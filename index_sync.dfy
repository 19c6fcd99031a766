/** The conversation of `process_upstash` with the vector index, as values:
    the requests it sends (`range` pages, `delete` batches, `upsert`
    batches), which of them fail, and what the index holds afterwards.

    A request is identified by its position among all the requests the
    index has received; the requests at the positions in `rejects` raise. */
module IndexSync {
  import opened Base
  import opened VectorStore

  datatype IndexCall =
    | RangeCall(cursor: nat)
    | DeleteCall(ids: seq<string>)
    | UpsertCall(vectors: seq<StoredVector>)

  /** The vectors the index holds and the requests it has received. */
  datatype IndexState = IndexState(vectors: seq<StoredVector>, log: seq<IndexCall>)

  /** `process_upstash` raises this when the embeddings file has no entry. */
  const NoVectorsError: Exception := ValueError("Nenhum vetor foi preparado")

  function RangeCalls(cursors: seq<nat>): (calls: seq<IndexCall>)
    ensures |calls| == |cursors|
    decreases |cursors|
  {
    if cursors == [] then [] else [RangeCall(cursors[0])] + RangeCalls(cursors[1..])
  }

  lemma {:induction false} RangeCallsAppend(cursors: seq<nat>, cursor: nat)
    ensures RangeCalls(cursors + [cursor]) == RangeCalls(cursors) + [RangeCall(cursor)]
    decreases |cursors|
  {
    if cursors != [] {
      assert (cursors + [cursor])[1..] == cursors[1..] + [cursor];
      RangeCallsAppend(cursors[1..], cursor);
    }
  }

  function DeleteCalls(bs: seq<seq<string>>): (calls: seq<IndexCall>)
    ensures |calls| == |bs|
    decreases |bs|
  {
    if bs == [] then [] else [DeleteCall(bs[0])] + DeleteCalls(bs[1..])
  }

  function UpsertCalls(bs: seq<seq<StoredVector>>): (calls: seq<IndexCall>)
    ensures |calls| == |bs|
    decreases |bs|
  {
    if bs == [] then [] else [UpsertCall(bs[0])] + UpsertCalls(bs[1..])
  }

  /** The ids `_check_existing_vectors` returns and the index afterwards. */
  datatype Checked = Checked(ids: seq<string>, state: IndexState)

  /** `_check_existing_vectors`: the scan from the empty cursor on; a failed
      request is swallowed, and the answer is then the empty list. */
  function CheckExisting(st: IndexState, doc: string, rejects: set<nat>): Checked {
    var o := ScanFrom(st.vectors, doc, 0, |st.log|, rejects);
    Checked(if o.ids.Some? then o.ids.value else [], IndexState(st.vectors, st.log + RangeCalls(o.cursors)))
  }

  /** The check resumed at `next` (nothing left to request when `None`),
      with `ids` already found and the index in state `st`. */
  function ResumeCheck(st: IndexState, doc: string, ids: seq<string>, next: Option<nat>, rejects: set<nat>): Checked {
    match next
    case None => Checked(ids, st)
    case Some(cursor) =>
      var o := ScanFrom(st.vectors, doc, cursor, |st.log|, rejects);
      Checked(if o.ids.Some? then ids + o.ids.value else [], IndexState(st.vectors, st.log + RangeCalls(o.cursors)))
  }

  /** The whole check is the check resumed at the empty cursor with nothing
      found yet. */
  lemma CheckExistingResumes(st: IndexState, doc: string, rejects: set<nat>)
    ensures CheckExisting(st, doc, rejects) == ResumeCheck(st, doc, [], Some(0), rejects)
  {
    var o := ScanFrom(st.vectors, doc, 0, |st.log|, rejects);
    if o.ids.Some? {
      assert [] + o.ids.value == o.ids.value;
    }
  }

  /** One range request of the check: a failed request ends it with no ids;
      otherwise the page's matching ids are added and the check resumes at
      the page's next cursor. */
  lemma ResumeCheckStep(st: IndexState, doc: string, ids: seq<string>, cursor: nat, rejects: set<nat>)
    ensures var after := IndexState(st.vectors, st.log + [RangeCall(cursor)]);
      var page := RangeOf(st.vectors, cursor);
      ResumeCheck(st, doc, ids, Some(cursor), rejects)
        == if |st.log| in rejects then Checked([], after)
           else ResumeCheck(after, doc, ids + MatchingIds(page.vectors, doc), page.next, rejects)
  {
    var after := IndexState(st.vectors, st.log + [RangeCall(cursor)]);
    var page := RangeOf(st.vectors, cursor);
    var o := ScanFrom(st.vectors, doc, cursor, |st.log|, rejects);
    if |st.log| in rejects {
      assert RangeCalls(o.cursors) == [RangeCall(cursor)] by {
        assert o.cursors == [cursor];
        assert [cursor][1..] == [];
      }
    } else if page.next.Some? {
      var rest := ScanFrom(st.vectors, doc, page.next.value, |st.log| + 1, rejects);
      assert o.cursors == [cursor] + rest.cursors;
      assert RangeCalls(o.cursors) == [RangeCall(cursor)] + RangeCalls(rest.cursors) by {
        assert o.cursors[1..] == rest.cursors;
      }
      assert st.log + RangeCalls(o.cursors) == after.log + RangeCalls(rest.cursors);
      if rest.ids.Some? {
        var here := MatchingIds(page.vectors, doc);
        assert ids + (here + rest.ids.value) == ids + here + rest.ids.value;
      }
    } else {
      assert RangeCalls(o.cursors) == [RangeCall(cursor)] by {
        assert o.cursors == [cursor];
        assert [cursor][1..] == [];
      }
    }
  }

  /** Whether a batched loop got through, and the index afterwards. */
  datatype Batched = Batched(ok: bool, state: IndexState)

  /** The delete batches, one request each, stopping at the first failure. */
  function DeleteBatches(st: IndexState, bs: seq<seq<string>>, rejects: set<nat>): Batched
    decreases |bs|
  {
    if bs == [] then Batched(true, st)
    else
      var log := st.log + [DeleteCall(bs[0])];
      if |st.log| in rejects then Batched(false, IndexState(st.vectors, log))
      else DeleteBatches(IndexState(RemoveIds(st.vectors, bs[0]), log), bs[1..], rejects)
  }

  /** `_delete_existing_vectors(ids)`: nothing to do for an empty list. */
  function DeleteExisting(st: IndexState, ids: seq<string>, rejects: set<nat>): Batched {
    if ids == [] then Batched(true, st) else DeleteBatches(st, Batches(ids), rejects)
  }

  /** The upsert batches, one request each, stopping at the first failure. */
  function UpsertBatches(st: IndexState, bs: seq<seq<StoredVector>>, rejects: set<nat>): Batched
    decreases |bs|
  {
    if bs == [] then Batched(true, st)
    else
      var log := st.log + [UpsertCall(bs[0])];
      if |st.log| in rejects then Batched(false, IndexState(st.vectors, log))
      else UpsertBatches(IndexState(UpsertAll(st.vectors, bs[0]), log), bs[1..], rejects)
  }

  /** The outcome of the index part of `process_upstash`: the number of
      vectors upserted, or what it raised; and the index afterwards. */
  datatype Sync = Sync(result: Result<nat>, state: IndexState)

  /** The index part of `process_upstash(doc)` once both files are found:
      look up the document's vectors, delete them when there are any (the
      outcome of the delete is ignored), then upsert `vectors` in batches. */
  function SyncDocument(st: IndexState, doc: string, vectors: seq<StoredVector>, rejects: set<nat>): Sync {
    var checked := CheckExisting(st, doc, rejects);
    var cleared := DeleteExisting(checked.state, checked.ids, rejects).state;
    if vectors == [] then Sync(Raised(NoVectorsError), cleared)
    else
      var up := UpsertBatches(cleared, Batches(vectors), rejects);
      Sync(if up.ok then Ok(|vectors|) else Raised(IndexRejected), up.state)
  }

  /** No request from position `from` on fails. */
  predicate AcceptedFrom(rejects: set<nat>, from: nat) {
    forall p :: from <= p && p in rejects ==> false
  }

  lemma AcceptedFromNone(rejects: set<nat>, from: nat, n: nat)
    requires AcceptedFrom(rejects, from)
    ensures !AnyRejected(rejects, from, n)
  {
  }

  /** Without failures every delete batch is sent, in order, and the index
      loses exactly the listed ids. */
  lemma {:induction false} DeleteBatchesClean(st: IndexState, bs: seq<seq<string>>, rejects: set<nat>)
    requires !AnyRejected(rejects, |st.log|, |bs|)
    ensures var r := DeleteBatches(st, bs, rejects);
      && r.ok
      && r.state.vectors == RemoveIds(st.vectors, Flatten(bs))
      && r.state.log == st.log + DeleteCalls(bs)
    decreases |bs|
  {
    if bs == [] {
      RemoveNothing(st.vectors);
    } else {
      assert |st.log| !in rejects by {
        assert |st.log| <= |st.log| < |st.log| + |bs|;
      }
      var next := IndexState(RemoveIds(st.vectors, bs[0]), st.log + [DeleteCall(bs[0])]);
      var r := DeleteBatches(next, bs[1..], rejects);
      assert r.ok && r.state.vectors == RemoveIds(next.vectors, Flatten(bs[1..]))
          && r.state.log == next.log + DeleteCalls(bs[1..]) by {
        DeleteBatchesClean(next, bs[1..], rejects);
      }
      assert r.state.vectors == RemoveIds(st.vectors, Flatten(bs)) by {
        RemoveIdsTwice(st.vectors, bs[0], Flatten(bs[1..]));
      }
      assert r.state.log == st.log + DeleteCalls(bs) by {
        assert DeleteCalls(bs) == [DeleteCall(bs[0])] + DeleteCalls(bs[1..]);
      }
    }
  }

  lemma {:induction false} RemoveNothing(vs: seq<StoredVector>)
    ensures RemoveIds(vs, []) == vs
    decreases |vs|
  {
    if vs != [] {
      RemoveNothing(vs[..|vs| - 1]);
    }
  }

  /** Without failures every upsert batch is sent, in order, and the index
      ends as after one upsert of all the vectors. */
  lemma {:induction false} UpsertBatchesClean(st: IndexState, bs: seq<seq<StoredVector>>, rejects: set<nat>)
    requires !AnyRejected(rejects, |st.log|, |bs|)
    ensures var r := UpsertBatches(st, bs, rejects);
      && r.ok
      && r.state.vectors == UpsertAll(st.vectors, Flatten(bs))
      && r.state.log == st.log + UpsertCalls(bs)
    decreases |bs|
  {
    if bs != [] {
      assert |st.log| !in rejects by {
        assert |st.log| <= |st.log| < |st.log| + |bs|;
      }
      var next := IndexState(UpsertAll(st.vectors, bs[0]), st.log + [UpsertCall(bs[0])]);
      var r := UpsertBatches(next, bs[1..], rejects);
      assert r.ok && r.state.vectors == UpsertAll(next.vectors, Flatten(bs[1..]))
          && r.state.log == next.log + UpsertCalls(bs[1..]) by {
        UpsertBatchesClean(next, bs[1..], rejects);
      }
      assert r.state.vectors == UpsertAll(st.vectors, Flatten(bs)) by {
        UpsertAllTwice(st.vectors, bs[0], Flatten(bs[1..]));
      }
      assert r.state.log == st.log + UpsertCalls(bs) by {
        assert UpsertCalls(bs) == [UpsertCall(bs[0])] + UpsertCalls(bs[1..]);
      }
    }
  }

  /** The batched delete gets through exactly when none of its requests is
      rejected; `_delete_existing_vectors` answers `False` otherwise. */
  lemma {:induction false} DeleteBatchesOkIff(st: IndexState, bs: seq<seq<string>>, rejects: set<nat>)
    ensures DeleteBatches(st, bs, rejects).ok <==> !AnyRejected(rejects, |st.log|, |bs|)
    decreases |bs|
  {
    if bs != [] {
      if |st.log| in rejects {
        assert |st.log| <= |st.log| < |st.log| + |bs|;
      } else {
        var next := IndexState(RemoveIds(st.vectors, bs[0]), st.log + [DeleteCall(bs[0])]);
        DeleteBatchesOkIff(next, bs[1..], rejects);
        if AnyRejected(rejects, |st.log|, |bs|) {
          var p :| |st.log| <= p < |st.log| + |bs| && p in rejects;
          assert |next.log| <= p < |next.log| + |bs[1..]|;
        }
      }
    }
  }

  /** At the first rejected delete request, number `k`, the loop stops: the
      batches before it have been deleted, the rejected one is logged, and the
      rest are never sent. */
  lemma {:induction false} DeleteBatchesStopsAt(st: IndexState, bs: seq<seq<string>>, rejects: set<nat>, k: nat)
    requires k < |bs|
    requires !AnyRejected(rejects, |st.log|, k) && |st.log| + k in rejects
    ensures var r := DeleteBatches(st, bs, rejects);
      && !r.ok
      && r.state.vectors == RemoveIds(st.vectors, Flatten(bs[..k]))
      && r.state.log == st.log + DeleteCalls(bs[..k + 1])
    decreases k
  {
    assert DeleteCalls(bs[..k + 1]) == [DeleteCall(bs[0])] + DeleteCalls(bs[..k + 1][1..]);
    if k == 0 {
      RemoveNothing(st.vectors);
      assert bs[..1][1..] == [];
    } else {
      assert |st.log| !in rejects by {
        assert |st.log| <= |st.log| < |st.log| + k;
      }
      var next := IndexState(RemoveIds(st.vectors, bs[0]), st.log + [DeleteCall(bs[0])]);
      DeleteBatchesStopsAt(next, bs[1..], rejects, k - 1);
      assert bs[..k][1..] == bs[1..][..k - 1];
      assert bs[..k + 1][1..] == bs[1..][..k];
      assert Flatten(bs[..k]) == bs[0] + Flatten(bs[1..][..k - 1]);
      RemoveIdsTwice(st.vectors, bs[0], Flatten(bs[1..][..k - 1]));
    }
  }

  /** The batched upsert gets through exactly when none of its requests is
      rejected; `process_upstash` raises otherwise. */
  lemma {:induction false} UpsertBatchesOkIff(st: IndexState, bs: seq<seq<StoredVector>>, rejects: set<nat>)
    ensures UpsertBatches(st, bs, rejects).ok <==> !AnyRejected(rejects, |st.log|, |bs|)
    decreases |bs|
  {
    if bs != [] {
      if |st.log| in rejects {
        assert |st.log| <= |st.log| < |st.log| + |bs|;
      } else {
        var next := IndexState(UpsertAll(st.vectors, bs[0]), st.log + [UpsertCall(bs[0])]);
        UpsertBatchesOkIff(next, bs[1..], rejects);
        if AnyRejected(rejects, |st.log|, |bs|) {
          var p :| |st.log| <= p < |st.log| + |bs| && p in rejects;
          assert |next.log| <= p < |next.log| + |bs[1..]|;
        }
      }
    }
  }

  /** At the first rejected upsert request, number `k`, the loop stops: the
      batches before it stay upserted, the rejected one is logged, and the
      rest are never sent. */
  lemma {:induction false} UpsertBatchesStopsAt(st: IndexState, bs: seq<seq<StoredVector>>, rejects: set<nat>, k: nat)
    requires k < |bs|
    requires !AnyRejected(rejects, |st.log|, k) && |st.log| + k in rejects
    ensures var r := UpsertBatches(st, bs, rejects);
      && !r.ok
      && r.state.vectors == UpsertAll(st.vectors, Flatten(bs[..k]))
      && r.state.log == st.log + UpsertCalls(bs[..k + 1])
    decreases k
  {
    assert UpsertCalls(bs[..k + 1]) == [UpsertCall(bs[0])] + UpsertCalls(bs[..k + 1][1..]);
    if k == 0 {
      assert bs[..1][1..] == [];
    } else {
      assert |st.log| !in rejects by {
        assert |st.log| <= |st.log| < |st.log| + k;
      }
      var next := IndexState(UpsertAll(st.vectors, bs[0]), st.log + [UpsertCall(bs[0])]);
      UpsertBatchesStopsAt(next, bs[1..], rejects, k - 1);
      assert bs[..k][1..] == bs[1..][..k - 1];
      assert bs[..k + 1][1..] == bs[1..][..k];
      assert Flatten(bs[..k]) == bs[0] + Flatten(bs[1..][..k - 1]);
      UpsertAllTwice(st.vectors, bs[0], Flatten(bs[1..][..k - 1]));
    }
  }

  /** Without failures the scan finds exactly the document's vectors. */
  lemma CheckExistingClean(st: IndexState, doc: string, rejects: set<nat>)
    requires !AnyRejected(rejects, |st.log|, |ScanFrom(st.vectors, doc, 0, |st.log|, rejects).cursors|)
    ensures CheckExisting(st, doc, rejects).ids == MatchingIds(st.vectors, doc)
    ensures CheckExisting(st, doc, rejects).state.vectors == st.vectors
  {
    var o := ScanFrom(st.vectors, doc, 0, |st.log|, rejects);
    ScanFailsIffRejected(st.vectors, doc, 0, |st.log|, rejects);
    assert o.ids.Some?;
    ScanFindsMatching(st.vectors, doc, 0, |st.log|, rejects);
    assert st.vectors[0..] == st.vectors;
  }

  /** Re-indexing a document when the index accepts every request: the
      upsert reports all the vectors, the document's ids in the index are
      then exactly the new ids, and every other vector whose id is neither an
      old id of the document nor a new one is kept. When the new ids are
      pairwise distinct, each is listed exactly once: a fresh scan returns as
      many ids as there are new vectors. */
  lemma SyncReplacesDocument(st: IndexState, doc: string, vectors: seq<StoredVector>, rejects: set<nat>)
    requires AcceptedFrom(rejects, |st.log|)
    requires vectors != []
    requires forall i :: 0 <= i < |vectors| ==> FromDoc(vectors[i], doc)
    ensures var s := SyncDocument(st, doc, vectors, rejects);
      && s.result == Ok(|vectors|)
      && MatchSet(s.state.vectors, doc) == IdSet(vectors)
      && (forall w :: w in st.vectors && w.id !in MatchingIds(st.vectors, doc) && w.id !in IdSet(vectors)
            ==> w in s.state.vectors)
      && ((forall i, j :: 0 <= i < j < |vectors| ==> vectors[i].id != vectors[j].id) ==>
            && multiset(MatchingIds(s.state.vectors, doc)) == multiset(Ids(vectors))
            && |MatchingIds(s.state.vectors, doc)| == |vectors|)
  {
    var checked := CheckExisting(st, doc, rejects);
    AcceptedFromNone(rejects, |st.log|, |ScanFrom(st.vectors, doc, 0, |st.log|, rejects).cursors|);
    CheckExistingClean(st, doc, rejects);
    var ids := MatchingIds(st.vectors, doc);
    var cleared := DeleteExisting(checked.state, ids, rejects).state;
    assert cleared.vectors == RemoveIds(st.vectors, ids) && |st.log| <= |cleared.log| by {
      if ids == [] {
        RemoveNothing(st.vectors);
      } else {
        AcceptedFromNone(rejects, |checked.state.log|, |Batches(ids)|);
        DeleteBatchesClean(checked.state, Batches(ids), rejects);
        BatchesPartition(ids);
      }
    }
    AcceptedFromNone(rejects, |cleared.log|, |Batches(vectors)|);
    UpsertBatchesClean(cleared, Batches(vectors), rejects);
    BatchesPartition(vectors);
    Reindex(st.vectors, doc, vectors);
    if forall i, j :: 0 <= i < j < |vectors| ==> vectors[i].id != vectors[j].id {
      ReindexListsOnce(st.vectors, doc, vectors);
    }
  }

  /** The number of requests the scan and the deletion of a document make
      when they all go through. */
  function RequestsBeforeUpsert(st: IndexState, doc: string, rejects: set<nat>): nat {
    |ScanFrom(st.vectors, doc, 0, |st.log|, rejects).cursors| + |Batches(MatchingIds(st.vectors, doc))|
  }

  /** No failure among `n` requests means none among the first `m` of them,
      nor among the `n - m` after those. */
  lemma AcceptedSplit(rejects: set<nat>, from: nat, m: nat, n: nat)
    requires m <= n && !AnyRejected(rejects, from, n)
    ensures !AnyRejected(rejects, from, m) && !AnyRejected(rejects, from + m, n - m)
  {
  }

  /** A failed upsert after a successful delete loses the document: when the
      scan and the delete go through but the first upsert request fails,
      `process_upstash` raises, and the index is left with no vector of the
      document at all, old or new. */
  lemma RejectedUpsertLosesDocument(st: IndexState, doc: string, vectors: seq<StoredVector>, rejects: set<nat>)
    requires vectors != []
    requires !AnyRejected(rejects, |st.log|, RequestsBeforeUpsert(st, doc, rejects))
    requires |st.log| + RequestsBeforeUpsert(st, doc, rejects) in rejects
    ensures var s := SyncDocument(st, doc, vectors, rejects);
      && s.result == Raised(IndexRejected)
      && MatchSet(s.state.vectors, doc) == {}
  {
    var failing := |st.log| + RequestsBeforeUpsert(st, doc, rejects);
    var ids := MatchingIds(st.vectors, doc);
    var checked := CheckExisting(st, doc, rejects);
    assert checked.ids == ids && checked.state.vectors == st.vectors by {
      var o := ScanFrom(st.vectors, doc, 0, |st.log|, rejects);
      AcceptedSplit(rejects, |st.log|, |o.cursors|, RequestsBeforeUpsert(st, doc, rejects));
      CheckExistingClean(st, doc, rejects);
    }
    var cleared := DeleteExisting(checked.state, ids, rejects).state;
    assert cleared.vectors == RemoveIds(st.vectors, ids) && |cleared.log| == failing by {
      if ids == [] {
        RemoveNothing(st.vectors);
      } else {
        DeleteBatchesClean(checked.state, Batches(ids), rejects);
        BatchesPartition(ids);
      }
    }
    DeleteListedClears(st.vectors, doc);
  }

  /** The phases of `process_upstash`: scan, delete, upsert. */
  function Phase(call: IndexCall): nat {
    match call
    case RangeCall(_) => 0
    case DeleteCall(_) => 1
    case UpsertCall(_) => 2
  }

  /** `later` is `earlier` followed by requests of phase `phase` only. */
  predicate ExtendsWith(earlier: seq<IndexCall>, later: seq<IndexCall>, phase: nat) {
    && |earlier| <= |later|
    && later[..|earlier|] == earlier
    && forall i :: |earlier| <= i < |later| ==> Phase(later[i]) == phase
  }

  lemma {:induction false} RangeCallsPhase(log: seq<IndexCall>, cursors: seq<nat>)
    ensures ExtendsWith(log, log + RangeCalls(cursors), 0)
    decreases |cursors|
  {
    if cursors != [] {
      var next := log + [RangeCall(cursors[0])];
      RangeCallsPhase(next, cursors[1..]);
      assert log + RangeCalls(cursors) == next + RangeCalls(cursors[1..]);
    }
  }

  lemma {:induction false} DeleteBatchesPhase(st: IndexState, bs: seq<seq<string>>, rejects: set<nat>)
    ensures ExtendsWith(st.log, DeleteBatches(st, bs, rejects).state.log, 1)
    decreases |bs|
  {
    if bs != [] && |st.log| !in rejects {
      var next := IndexState(RemoveIds(st.vectors, bs[0]), st.log + [DeleteCall(bs[0])]);
      DeleteBatchesPhase(next, bs[1..], rejects);
      var log := DeleteBatches(next, bs[1..], rejects).state.log;
      assert log[..|st.log|] == next.log[..|st.log|];
    }
  }

  lemma {:induction false} UpsertBatchesPhase(st: IndexState, bs: seq<seq<StoredVector>>, rejects: set<nat>)
    ensures ExtendsWith(st.log, UpsertBatches(st, bs, rejects).state.log, 2)
    decreases |bs|
  {
    if bs != [] && |st.log| !in rejects {
      var next := IndexState(UpsertAll(st.vectors, bs[0]), st.log + [UpsertCall(bs[0])]);
      UpsertBatchesPhase(next, bs[1..], rejects);
      var log := UpsertBatches(next, bs[1..], rejects).state.log;
      assert log[..|st.log|] == next.log[..|st.log|];
    }
  }

  predicate InPhaseOrder(calls: seq<IndexCall>) {
    forall i, j :: 0 <= i < j < |calls| ==> Phase(calls[i]) <= Phase(calls[j])
  }

  /** Three extensions in a row, of phases 0, 1 and 2, are in phase order. */
  lemma ChainInOrder(a: seq<IndexCall>, b: seq<IndexCall>, c: seq<IndexCall>, d: seq<IndexCall>, pb: nat, pc: nat, pd: nat)
    requires ExtendsWith(a, b, pb) && ExtendsWith(b, c, pc) && ExtendsWith(c, d, pd)
    requires pb <= pc <= pd
    ensures |a| <= |d| && d[..|a|] == a
    ensures InPhaseOrder(d[|a|..])
  {
    forall i | |a| <= i < |d|
      ensures (i < |b| ==> Phase(d[i]) == pb) && (|b| <= i < |c| ==> Phase(d[i]) == pc)
    {
      if i < |c| {
        assert d[i] == c[i];
      }
      if i < |b| {
        assert c[i] == b[i];
      }
    }
    var tail := d[|a|..];
    forall i, j | 0 <= i < j < |tail| ensures Phase(tail[i]) <= Phase(tail[j]) {
      assert tail[i] == d[|a| + i] && tail[j] == d[|a| + j];
    }
    assert d[..|a|] == c[..|b|][..|a|];
  }

  /** Every request `process_upstash` sends is in phase order: all the range
      requests of the scan come first, then the deletes, then the upserts;
      and the requests received before are left as they were. */
  lemma SyncPhases(st: IndexState, doc: string, vectors: seq<StoredVector>, rejects: set<nat>)
    ensures var log := SyncDocument(st, doc, vectors, rejects).state.log;
      && |st.log| <= |log| && log[..|st.log|] == st.log
      && InPhaseOrder(log[|st.log|..])
  {
    var checked := CheckExisting(st, doc, rejects);
    var o := ScanFrom(st.vectors, doc, 0, |st.log|, rejects);
    RangeCallsPhase(st.log, o.cursors);
    var deleted := DeleteExisting(checked.state, checked.ids, rejects).state;
    if checked.ids != [] {
      DeleteBatchesPhase(checked.state, Batches(checked.ids), rejects);
    }
    var final := SyncDocument(st, doc, vectors, rejects).state;
    if vectors != [] {
      UpsertBatchesPhase(deleted, Batches(vectors), rejects);
    }
    ChainInOrder(st.log, checked.state.log, deleted.log, final.log, 0, 1, 2);
  }
}
