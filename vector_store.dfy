/** The vector index the pipeline writes to, as values: stored vectors and
    their metadata, the pages `range` returns, and what `delete` and `upsert`
    do to the stored sequence. Also the scan of `_check_existing_vectors` and
    the fixed-size batches of `_delete_existing_vectors` and
    `process_upstash`, as reference definitions. */
module VectorStore {
  import opened Base
  import Constants

  /** A metadata value: the pipeline stores strings, integers and booleans. */
  datatype MetaValue = MStr(text: string) | MInt(number: int) | MBool(flag: bool)

  type Metadata = map<string, MetaValue>

  /** A vector as the index holds it; `metadata` is `None` when it has none. */
  datatype StoredVector = StoredVector(id: string, values: seq<real>, metadata: Option<Metadata>)

  /** `vector.metadata and vector.metadata.get("doc_source") == doc_source`:
      metadata present and not empty, with a `doc_source` string equal to
      `doc`. */
  predicate FromDoc(v: StoredVector, doc: string) {
    && v.metadata.Some?
    && v.metadata.value != map[]
    && "doc_source" in v.metadata.value
    && v.metadata.value["doc_source"] == MStr(doc)
  }

  /** The ids of the vectors tagged with `doc`, in order. */
  function MatchingIds(vs: seq<StoredVector>, doc: string): seq<string>
    decreases |vs|
  {
    if vs == [] then []
    else MatchingIds(vs[..|vs| - 1], doc) + (if FromDoc(vs[|vs| - 1], doc) then [vs[|vs| - 1].id] else [])
  }

  lemma {:induction false} MatchingIdsConcat(a: seq<StoredVector>, b: seq<StoredVector>, doc: string)
    ensures MatchingIds(a + b, doc) == MatchingIds(a, doc) + MatchingIds(b, doc)
    decreases |b|
  {
    if b == [] {
      assert a + b == a;
    } else {
      assert (a + b)[..|a + b| - 1] == a + b[..|b| - 1];
      MatchingIdsConcat(a, b[..|b| - 1], doc);
    }
  }

  /** An id is listed exactly when some vector tagged with `doc` has it. */
  lemma {:induction false} MatchingIdsMembers(vs: seq<StoredVector>, doc: string, id: string)
    ensures id in MatchingIds(vs, doc) <==> exists v :: v in vs && FromDoc(v, doc) && v.id == id
    decreases |vs|
  {
    if vs != [] {
      var init := vs[..|vs| - 1];
      MatchingIdsMembers(init, doc, id);
      assert vs == init + [vs[|vs| - 1]];
      if exists v :: v in vs && FromDoc(v, doc) && v.id == id {
        var v :| v in vs && FromDoc(v, doc) && v.id == id;
        if v != vs[|vs| - 1] {
          assert v in init;
        }
      }
    }
  }

  /** One page of `range(cursor, limit=RANGE_LIMIT)`: at most `RANGE_LIMIT`
      vectors from position `cursor` on, and the cursor of the next page, or
      `None` (the empty cursor) when none follows. */
  datatype RangePage = RangePage(vectors: seq<StoredVector>, next: Option<nat>)

  function RangeOf(vs: seq<StoredVector>, cursor: nat): (page: RangePage)
    ensures |page.vectors| <= Constants.RangeLimit
    ensures page.next.Some? ==> cursor < page.next.value < |vs| && page.vectors == vs[cursor..page.next.value]
    ensures page.next.None? && cursor <= |vs| ==> page.vectors == vs[cursor..]
    ensures cursor >= |vs| ==> page == RangePage([], None)
  {
    var lo := if cursor <= |vs| then cursor else |vs|;
    var hi := if lo + Constants.RangeLimit <= |vs| then lo + Constants.RangeLimit else |vs|;
    RangePage(vs[lo..hi], if hi < |vs| then Some(hi) else None)
  }

  /** The scan of `_check_existing_vectors` from `cursor` on, where `call` is
      the position of its first request among all the index's requests and
      the requests at the positions in `rejects` fail: the ids found (`None`
      when a request failed) and the cursors requested. */
  datatype ScanOutcome = ScanOutcome(ids: Option<seq<string>>, cursors: seq<nat>)

  function ScanFrom(vs: seq<StoredVector>, doc: string, cursor: nat, call: nat, rejects: set<nat>): (o: ScanOutcome)
    ensures 0 < |o.cursors| && o.cursors[0] == cursor
    decreases |vs| - cursor
  {
    if call in rejects then ScanOutcome(None, [cursor])
    else
      var page := RangeOf(vs, cursor);
      var here := MatchingIds(page.vectors, doc);
      match page.next
      case None => ScanOutcome(Some(here), [cursor])
      case Some(next) =>
        var rest := ScanFrom(vs, doc, next, call + 1, rejects);
        ScanOutcome(if rest.ids.Some? then Some(here + rest.ids.value) else None, [cursor] + rest.cursors)
  }

  /** A scan that got through finds exactly the ids tagged with `doc` from
      `cursor` on, in index order. */
  lemma {:induction false} ScanFindsMatching(vs: seq<StoredVector>, doc: string, cursor: nat, call: nat, rejects: set<nat>)
    requires cursor <= |vs|
    requires ScanFrom(vs, doc, cursor, call, rejects).ids.Some?
    ensures ScanFrom(vs, doc, cursor, call, rejects).ids.value == MatchingIds(vs[cursor..], doc)
    decreases |vs| - cursor
  {
    var page := RangeOf(vs, cursor);
    if page.next.Some? {
      var next := page.next.value;
      ScanFindsMatching(vs, doc, next, call + 1, rejects);
      assert vs[cursor..] == vs[cursor..next] + vs[next..];
      MatchingIdsConcat(vs[cursor..next], vs[next..], doc);
    }
  }

  /** Some request at a position from `call` to `call + n - 1` is rejected. */
  predicate AnyRejected(rejects: set<nat>, call: nat, n: nat) {
    exists p :: call <= p < call + n && p in rejects
  }

  /** A scan fails exactly when one of the requests it makes is rejected. */
  lemma {:induction false} ScanFailsIffRejected(vs: seq<StoredVector>, doc: string, cursor: nat, call: nat, rejects: set<nat>)
    ensures var o := ScanFrom(vs, doc, cursor, call, rejects);
      o.ids.None? <==> AnyRejected(rejects, call, |o.cursors|)
    decreases |vs| - cursor
  {
    var o := ScanFrom(vs, doc, cursor, call, rejects);
    var page := RangeOf(vs, cursor);
    if call !in rejects && page.next.Some? {
      var next := page.next.value;
      ScanFailsIffRejected(vs, doc, next, call + 1, rejects);
      var rest := ScanFrom(vs, doc, next, call + 1, rejects);
      assert |o.cursors| == 1 + |rest.cursors|;
      if AnyRejected(rejects, call, |o.cursors|) {
        var p :| call <= p < call + |o.cursors| && p in rejects;
        assert call + 1 <= p;
      }
    } else if call in rejects {
      assert call <= call < call + 1;
    }
  }

  /** The consecutive slices `s[i : i + BATCH_SIZE]` for `i` in
      `range(0, len(s), BATCH_SIZE)`. */
  function Batches<T>(s: seq<T>): seq<seq<T>>
    decreases |s|
  {
    if s == [] then []
    else if |s| <= Constants.BatchSize then [s]
    else [s[..Constants.BatchSize]] + Batches(s[Constants.BatchSize..])
  }

  function Flatten<T>(bs: seq<seq<T>>): seq<T>
    decreases |bs|
  {
    if bs == [] then [] else bs[0] + Flatten(bs[1..])
  }

  /** The batches cover the list exactly once and in order; none is empty,
      none holds more than `BATCH_SIZE` elements, and all but the last hold
      exactly `BATCH_SIZE`. */
  lemma {:induction false} BatchesPartition<T>(s: seq<T>)
    ensures Flatten(Batches(s)) == s
    ensures forall i :: 0 <= i < |Batches(s)| ==> 0 < |Batches(s)[i]| <= Constants.BatchSize
    ensures forall i :: 0 <= i < |Batches(s)| - 1 ==> |Batches(s)[i]| == Constants.BatchSize
    decreases |s|
  {
    if |s| > Constants.BatchSize {
      var rest := s[Constants.BatchSize..];
      BatchesPartition(rest);
      assert Batches(s) == [s[..Constants.BatchSize]] + Batches(rest);
      assert Batches(s)[1..] == Batches(rest);
      assert s == s[..Constants.BatchSize] + rest;
      forall i | 0 <= i < |Batches(s)| ensures 0 < |Batches(s)[i]| <= Constants.BatchSize {
        if i > 0 { assert Batches(s)[i] == Batches(rest)[i - 1]; }
      }
      forall i | 0 <= i < |Batches(s)| - 1 ensures |Batches(s)[i]| == Constants.BatchSize {
        if i > 0 { assert Batches(s)[i] == Batches(rest)[i - 1]; }
      }
    } else if s != [] {
      assert Flatten(Batches(s)) == s + Flatten([]);
    }
  }

  /** The end of the batch that starts at `i`. */
  function BatchEnd(length: nat, i: nat): nat {
    if i + Constants.BatchSize <= length then i + Constants.BatchSize else length
  }

  /** One step of the batching loop: the batches from `i` on are the slice
      `s[i : i + BATCH_SIZE]` and then the batches from its end on. */
  lemma BatchesStep<T>(s: seq<T>, i: nat)
    requires i < |s|
    ensures Batches(s[i..]) == [s[i..BatchEnd(|s|, i)]] + Batches(s[BatchEnd(|s|, i)..])
  {
    var t := s[i..];
    if |t| > Constants.BatchSize {
      assert t[..Constants.BatchSize] == s[i..i + Constants.BatchSize];
      assert t[Constants.BatchSize..] == s[i + Constants.BatchSize..];
    } else {
      assert s[i..BatchEnd(|s|, i)] == t;
      assert s[BatchEnd(|s|, i)..] == [];
    }
  }

  /** `delete(ids)`: the vectors whose id is listed are gone; the others keep
      their order. */
  function RemoveIds(vs: seq<StoredVector>, ids: seq<string>): seq<StoredVector>
    decreases |vs|
  {
    if vs == [] then []
    else RemoveIds(vs[..|vs| - 1], ids) + (if vs[|vs| - 1].id in ids then [] else [vs[|vs| - 1]])
  }

  /** A vector survives a delete exactly when its id is not listed. */
  lemma {:induction false} RemoveIdsMembers(vs: seq<StoredVector>, ids: seq<string>, v: StoredVector)
    ensures v in RemoveIds(vs, ids) <==> v in vs && v.id !in ids
    decreases |vs|
  {
    if vs != [] {
      var init := vs[..|vs| - 1];
      RemoveIdsMembers(init, ids, v);
      assert vs == init + [vs[|vs| - 1]];
    }
  }

  /** Deleting in two rounds deletes the union: batched deletion has the
      effect of one deletion of the whole list. */
  lemma {:induction false} RemoveIdsTwice(vs: seq<StoredVector>, a: seq<string>, b: seq<string>)
    ensures RemoveIds(RemoveIds(vs, a), b) == RemoveIds(vs, a + b)
    decreases |vs|
  {
    if vs != [] {
      var init := vs[..|vs| - 1];
      var last := vs[|vs| - 1];
      RemoveIdsTwice(init, a, b);
      var once := RemoveIds(init, a);
      assert (last.id in a + b) == (last.id in a || last.id in b);
      if last.id !in a {
        assert RemoveIds(vs, a) == once + [last];
        assert (once + [last])[..|once + [last]| - 1] == once;
      } else {
        assert RemoveIds(vs, a) == once;
      }
    }
  }

  /** Upserting one vector: it replaces the first stored vector with its id,
      or is added at the end. */
  function Put(vs: seq<StoredVector>, v: StoredVector): seq<StoredVector>
    decreases |vs|
  {
    if vs == [] then [v]
    else if vs[0].id == v.id then [v] + vs[1..]
    else [vs[0]] + Put(vs[1..], v)
  }

  /** `upsert(vectors=batch)`: the vectors of the batch, one after the other. */
  function UpsertAll(vs: seq<StoredVector>, batch: seq<StoredVector>): seq<StoredVector>
    decreases |batch|
  {
    if batch == [] then vs else UpsertAll(Put(vs, batch[0]), batch[1..])
  }

  /** Upserting in two rounds upserts the concatenation: batched upserts have
      the effect of one upsert of the whole list. */
  lemma {:induction false} UpsertAllTwice(vs: seq<StoredVector>, a: seq<StoredVector>, b: seq<StoredVector>)
    ensures UpsertAll(UpsertAll(vs, a), b) == UpsertAll(vs, a + b)
    decreases |a|
  {
    if a == [] {
      assert a + b == b;
    } else {
      UpsertAllTwice(Put(vs, a[0]), a[1..], b);
      assert (a + b)[0] == a[0];
      assert (a + b)[1..] == a[1..] + b;
    }
  }

  function IdSet(vs: seq<StoredVector>): set<string> {
    set v | v in vs :: v.id
  }

  /** The ids of the vectors tagged with `doc`. */
  function MatchSet(vs: seq<StoredVector>, doc: string): set<string> {
    set v | v in vs && FromDoc(v, doc) :: v.id
  }

  /** Upserting a vector tagged with `doc` adds its id to the document's ids
      and takes no other id away. */
  lemma {:induction false} PutMatchSet(vs: seq<StoredVector>, v: StoredVector, doc: string)
    requires FromDoc(v, doc)
    ensures MatchSet(Put(vs, v), doc) == MatchSet(vs, doc) + {v.id}
    decreases |vs|
  {
    if vs != [] && vs[0].id != v.id {
      PutMatchSet(vs[1..], v, doc);
      assert vs == [vs[0]] + vs[1..];
      assert MatchSet(vs, doc) == MatchSet([vs[0]], doc) + MatchSet(vs[1..], doc);
      assert MatchSet(Put(vs, v), doc) == MatchSet([vs[0]], doc) + MatchSet(Put(vs[1..], v), doc);
    } else if vs != [] {
      assert vs == [vs[0]] + vs[1..];
      assert MatchSet(vs, doc) == MatchSet([vs[0]], doc) + MatchSet(vs[1..], doc);
      assert MatchSet(Put(vs, v), doc) == MatchSet([v], doc) + MatchSet(vs[1..], doc);
    }
  }

  /** Upserting vectors that are all tagged with `doc` adds exactly their ids
      to the document's ids. */
  lemma {:induction false} UpsertAllMatchSet(vs: seq<StoredVector>, batch: seq<StoredVector>, doc: string)
    requires forall i :: 0 <= i < |batch| ==> FromDoc(batch[i], doc)
    ensures MatchSet(UpsertAll(vs, batch), doc) == MatchSet(vs, doc) + IdSet(batch)
    decreases |batch|
  {
    if batch != [] {
      PutMatchSet(vs, batch[0], doc);
      UpsertAllMatchSet(Put(vs, batch[0]), batch[1..], doc);
      assert batch == [batch[0]] + batch[1..];
      assert IdSet(batch) == {batch[0].id} + IdSet(batch[1..]);
    }
  }

  /** A vector keeps its place in the index under an upsert of other ids. */
  lemma {:induction false} PutKeepsOthers(vs: seq<StoredVector>, v: StoredVector, w: StoredVector)
    requires w in vs && w.id != v.id
    ensures w in Put(vs, v)
    decreases |vs|
  {
    if vs[0] != w {
      assert w in vs[1..];
      if vs[0].id != v.id {
        PutKeepsOthers(vs[1..], v, w);
      }
    }
  }

  lemma {:induction false} UpsertAllKeepsOthers(vs: seq<StoredVector>, batch: seq<StoredVector>, w: StoredVector)
    requires w in vs && w.id !in IdSet(batch)
    ensures w in UpsertAll(vs, batch)
    decreases |batch|
  {
    if batch != [] {
      assert batch[0] in batch;
      PutKeepsOthers(vs, batch[0], w);
      assert IdSet(batch[1..]) <= IdSet(batch) by {
        forall x | x in batch[1..] ensures x in batch { }
      }
      UpsertAllKeepsOthers(Put(vs, batch[0]), batch[1..], w);
    }
  }

  /** Deleting the ids the scan lists leaves no vector of the document. */
  lemma DeleteListedClears(vs: seq<StoredVector>, doc: string)
    ensures MatchSet(RemoveIds(vs, MatchingIds(vs, doc)), doc) == {}
  {
    var listed := MatchingIds(vs, doc);
    forall v | v in RemoveIds(vs, listed) && FromDoc(v, doc) ensures false {
      RemoveIdsMembers(vs, listed, v);
      MatchingIdsMembers(vs, doc, v.id);
    }
  }

  /** Re-indexing replaces a document instead of duplicating it: after the
      document's listed vectors are deleted and the new ones (all tagged with
      the document) are upserted, the document's ids are exactly the new
      ids, whatever was stored before; and a vector of another document
      whose id is neither listed nor new is still there. */
  lemma Reindex(vs: seq<StoredVector>, doc: string, incoming: seq<StoredVector>)
    requires forall i :: 0 <= i < |incoming| ==> FromDoc(incoming[i], doc)
    ensures var after := UpsertAll(RemoveIds(vs, MatchingIds(vs, doc)), incoming);
      && MatchSet(after, doc) == IdSet(incoming)
      && (forall w :: w in vs && w.id !in MatchingIds(vs, doc) && w.id !in IdSet(incoming) ==> w in after)
  {
    var listed := MatchingIds(vs, doc);
    var cleared := RemoveIds(vs, listed);
    DeleteListedClears(vs, doc);
    UpsertAllMatchSet(cleared, incoming, doc);
    forall w | w in vs && w.id !in listed && w.id !in IdSet(incoming)
      ensures w in UpsertAll(cleared, incoming)
    {
      RemoveIdsMembers(vs, listed, w);
      UpsertAllKeepsOthers(cleared, incoming, w);
    }
  }

  /** The ids of a list of vectors, in order. */
  function Ids(vs: seq<StoredVector>): (ids: seq<string>)
    ensures |ids| == |vs|
    ensures forall i :: 0 <= i < |vs| ==> ids[i] == vs[i].id
    decreases |vs|
  {
    if vs == [] then [] else [vs[0].id] + Ids(vs[1..])
  }

  /** Upserting a vector of `doc` whose id the document does not hold yet
      lists that id once more and changes no other listing of the document. */
  lemma {:induction false} PutListedOnce(vs: seq<StoredVector>, v: StoredVector, doc: string)
    requires FromDoc(v, doc) && v.id !in MatchSet(vs, doc)
    ensures multiset(MatchingIds(Put(vs, v), doc)) == multiset(MatchingIds(vs, doc)) + multiset{v.id}
    decreases |vs|
  {
    if vs == [] {
      assert MatchingIds([v], doc) == MatchingIds([], doc) + [v.id];
    } else {
      MatchingIdsConcat([vs[0]], vs[1..], doc);
      assert vs == [vs[0]] + vs[1..];
      if vs[0].id == v.id {
        assert !FromDoc(vs[0], doc);
        assert MatchingIds([vs[0]], doc) == MatchingIds([], doc);
        MatchingIdsConcat([v], vs[1..], doc);
        assert MatchingIds([v], doc) == MatchingIds([], doc) + [v.id];
      } else {
        assert v.id !in MatchSet(vs[1..], doc);
        PutListedOnce(vs[1..], v, doc);
        MatchingIdsConcat([vs[0]], Put(vs[1..], v), doc);
      }
    }
  }

  /** Upserting vectors of `doc` with pairwise distinct ids, none of which
      the document holds yet, lists each of their ids exactly once more. */
  lemma {:induction false} UpsertAllListedOnce(vs: seq<StoredVector>, batch: seq<StoredVector>, doc: string)
    requires forall i :: 0 <= i < |batch| ==> FromDoc(batch[i], doc)
    requires forall i, j :: 0 <= i < j < |batch| ==> batch[i].id != batch[j].id
    requires forall i :: 0 <= i < |batch| ==> batch[i].id !in MatchSet(vs, doc)
    ensures multiset(MatchingIds(UpsertAll(vs, batch), doc)) == multiset(MatchingIds(vs, doc)) + multiset(Ids(batch))
    decreases |batch|
  {
    if batch != [] {
      PutListedOnce(vs, batch[0], doc);
      PutMatchSet(vs, batch[0], doc);
      var rest := batch[1..];
      forall i | 0 <= i < |rest| ensures rest[i].id !in MatchSet(Put(vs, batch[0]), doc) {
        assert rest[i] == batch[i + 1];
      }
      forall i, j | 0 <= i < j < |rest| ensures rest[i].id != rest[j].id {
        assert rest[i] == batch[i + 1] && rest[j] == batch[j + 1];
      }
      UpsertAllListedOnce(Put(vs, batch[0]), rest, doc);
    }
  }

  /** A list without vectors of `doc` lists no id for it. */
  lemma {:induction false} ListedNone(vs: seq<StoredVector>, doc: string)
    requires forall v :: v in vs ==> !FromDoc(v, doc)
    ensures MatchingIds(vs, doc) == []
    decreases |vs|
  {
    if vs != [] {
      var init := vs[..|vs| - 1];
      forall v | v in init ensures !FromDoc(v, doc) {
        assert v in vs;
      }
      ListedNone(init, doc);
    }
  }

  /** After re-indexing with pairwise distinct new ids, the document lists
      each new id exactly once and nothing else: a fresh scan returns as
      many ids as there are new vectors, without duplicates. */
  lemma ReindexListsOnce(vs: seq<StoredVector>, doc: string, incoming: seq<StoredVector>)
    requires forall i :: 0 <= i < |incoming| ==> FromDoc(incoming[i], doc)
    requires forall i, j :: 0 <= i < j < |incoming| ==> incoming[i].id != incoming[j].id
    ensures var after := UpsertAll(RemoveIds(vs, MatchingIds(vs, doc)), incoming);
      && multiset(MatchingIds(after, doc)) == multiset(Ids(incoming))
      && |MatchingIds(after, doc)| == |incoming|
  {
    var listed := MatchingIds(vs, doc);
    var cleared := RemoveIds(vs, listed);
    forall v | v in cleared ensures !FromDoc(v, doc) {
      RemoveIdsMembers(vs, listed, v);
      MatchingIdsMembers(vs, doc, v.id);
    }
    ListedNone(cleared, doc);
    UpsertAllListedOnce(cleared, incoming, doc);
    var after := UpsertAll(cleared, incoming);
    assert |multiset(MatchingIds(after, doc))| == |MatchingIds(after, doc)|;
    assert |multiset(Ids(incoming))| == |Ids(incoming)|;
  }
}
