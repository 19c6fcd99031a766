/** Waiting for a parse job (`PDFProcessor._get_job_status` and
    `_wait_for_completion`): poll the job's status until it is final or the
    time allowed has run out, sleeping `check_interval` between polls.

    The parsing service is a transcript: the replies it gives to the
    successive status requests, in order. A request beyond the transcript
    gets no reply at all. The clock is abstract: polls take no time, and only
    the sleeps advance it. */
module JobPolling {
  import opened Base
  import Constants

  /** A reply of the job-status endpoint; its body is the `status` field of
      the returned JSON object, `None` when the object has no such field. */
  type StatusReply = Reply<Option<string>>

  /** `_get_job_status`: the status object of a 200 reply; a 4xx or 5xx
      reply raises, and any other status yields the empty object `{}`. */
  function GetJobStatus(reply: StatusReply): Result<Option<string>> {
    match reply
    case NoResponse => Raised(ConnectionFailure)
    case Received(status, body) =>
      if status == Constants.HttpOk then Ok(body)
      else if RaisesForStatus(status) then Raised(HttpError(status))
      else Ok(None)
  }

  /** The `k`-th status request (counting from 0). */
  function Poll(replies: seq<StatusReply>, k: nat): Result<Option<string>> {
    if k < |replies| then GetJobStatus(replies[k]) else Raised(ConnectionFailure)
  }

  /** The status the loop classifies: a missing field reads as "unknown". */
  function StatusOf(status: Option<string>): string {
    status.GetOr(Constants.UnknownStatus)
  }

  /** The four states that end the wait at once. */
  predicate IsFinal(status: string) {
    || status == Constants.JobSuccess
    || status == Constants.JobPartialSuccess
    || status == Constants.JobError
    || status == Constants.JobCancelled
  }

  /** Poll `k` answered with a status that is not final: the loop sleeps and
      polls again (in progress and unknown states are treated alike). */
  predicate Pending(replies: seq<StatusReply>, k: nat) {
    Poll(replies, k).Ok? && !IsFinal(StatusOf(Poll(replies, k).value))
  }

  /** `time.sleep` refuses a negative length. */
  const SleepError: Exception := ValueError("sleep length must be non-negative")

  /** The outcome of a wait: what `_wait_for_completion` returns or raises,
      how many status requests it made, and how long it slept in all. */
  datatype Waited = Waited(result: Result<Option<string>>, polls: nat, elapsed: int)

  /** The wait from poll `k` on, `elapsed` time units after it started: the
      reference definition of `_wait_for_completion`. */
  function WaitFrom(replies: seq<StatusReply>, maxWait: int, interval: int, k: nat, elapsed: int): Waited
    decreases |replies| - k
  {
    if elapsed >= maxWait then
      Waited(Poll(replies, k), k + 1, elapsed)
    else
      match Poll(replies, k)
      case Raised(e) => Waited(Raised(e), k + 1, elapsed)
      case Ok(status) =>
        if IsFinal(StatusOf(status)) then Waited(Ok(status), k + 1, elapsed)
        else if interval < 0 then Waited(Raised(SleepError), k + 1, elapsed)
        else WaitFrom(replies, maxWait, interval, k + 1, elapsed + interval)
  }

  /** `_wait_for_completion` with `max_wait_time = maxWait` and
      `check_interval = interval`. */
  method WaitForCompletion(replies: seq<StatusReply>, maxWait: int, interval: int) returns (w: Waited)
    ensures w == WaitFrom(replies, maxWait, interval, 0, 0)
  {
    var k: nat, elapsed := 0, 0;
    while elapsed < maxWait
      invariant WaitFrom(replies, maxWait, interval, k, elapsed) == WaitFrom(replies, maxWait, interval, 0, 0)
      decreases |replies| - k
    {
      var status := Poll(replies, k);
      if status.Raised? || IsFinal(StatusOf(status.value)) {
        return Waited(status, k + 1, elapsed);
      }
      if interval < 0 {
        return Waited(Raised(SleepError), k + 1, elapsed);
      }
      k, elapsed := k + 1, elapsed + interval;
    }
    w := Waited(Poll(replies, k), k + 1, elapsed);
  }

  /** The clock after `n` more sleeps of `interval`, starting from `start`. */
  function Clock(start: int, interval: int, n: nat): int
    decreases n
  {
    if n == 0 then start else Clock(start + interval, interval, n - 1)
  }

  /** The clock advances by `interval` per sleep. */
  lemma {:induction false} ClockIsProduct(start: int, interval: int, n: nat)
    ensures Clock(start, interval, n) == start + n * interval
    decreases n
  {
    if n > 0 {
      ClockIsProduct(start + interval, interval, n - 1);
      assert interval + (n - 1) * interval == n * interval;
    }
  }

  lemma ProductMonotone(n: nat, j: nat, interval: int)
    requires n <= j && interval >= 0
    ensures n * interval <= j * interval
  {
  }

  /** Pending polls only sleep: from poll `k` to poll `j` the wait just
      advances the clock by one interval per poll, as long as time has not
      run out at any of them. */
  lemma {:induction false} SkipPending(replies: seq<StatusReply>, maxWait: int, interval: int, k: nat, j: nat, elapsed: int)
    requires interval >= 0 && k <= j
    requires forall i :: k <= i < j ==> Pending(replies, i)
    requires forall n :: 0 <= n < j - k ==> Clock(elapsed, interval, n) < maxWait
    ensures WaitFrom(replies, maxWait, interval, k, elapsed)
         == WaitFrom(replies, maxWait, interval, j, Clock(elapsed, interval, j - k))
    decreases j - k
  {
    if k < j {
      assert Pending(replies, k);
      assert Clock(elapsed, interval, 0) < maxWait;
      var next := elapsed + interval;
      forall n | 0 <= n < j - (k + 1) ensures Clock(next, interval, n) < maxWait {
        assert Clock(elapsed, interval, n + 1) < maxWait;
      }
      SkipPending(replies, maxWait, interval, k + 1, j, next);
    }
  }

  /** Before poll `n < j` the clock shows `n * interval < j * interval`. */
  lemma ClockBefore(interval: int, j: nat, maxWait: int)
    requires interval >= 0 && (0 < j ==> (j - 1) * interval < maxWait)
    ensures forall n :: 0 <= n < j ==> Clock(0, interval, n) < maxWait
  {
    forall n | 0 <= n < j ensures Clock(0, interval, n) < maxWait {
      ClockIsProduct(0, interval, n);
      ProductMonotone(n, j - 1, interval);
    }
  }

  /** The first final status is returned, and no request follows it: when
      polls `0 .. j-1` are pending and poll `j` is final before time runs
      out, the wait makes exactly `j + 1` requests and sleeps `j` times. */
  lemma FirstFinalStatusIsReturned(replies: seq<StatusReply>, maxWait: int, interval: int, j: nat)
    requires interval >= 0
    requires forall i :: 0 <= i < j ==> Pending(replies, i)
    requires Poll(replies, j).Ok? && IsFinal(StatusOf(Poll(replies, j).value))
    requires j * interval < maxWait
    ensures WaitFrom(replies, maxWait, interval, 0, 0) == Waited(Poll(replies, j), j + 1, j * interval)
  {
    if 0 < j {
      ProductMonotone(j - 1, j, interval);
    }
    ClockBefore(interval, j, maxWait);
    SkipPending(replies, maxWait, interval, 0, j, 0);
    ClockIsProduct(0, interval, j);
  }

  /** Once the time allowed has run out, one more request is made and its
      outcome is returned as it is, final or not. */
  lemma TimeoutReturnsOneMorePoll(replies: seq<StatusReply>, maxWait: int, interval: int, j: nat)
    requires interval >= 0
    requires forall i :: 0 <= i < j ==> Pending(replies, i)
    requires 0 < j ==> (j - 1) * interval < maxWait
    requires maxWait <= j * interval
    ensures WaitFrom(replies, maxWait, interval, 0, 0) == Waited(Poll(replies, j), j + 1, j * interval)
  {
    ClockBefore(interval, j, maxWait);
    SkipPending(replies, maxWait, interval, 0, j, 0);
    ClockIsProduct(0, interval, j);
  }

  /** A status reply without a `status` field does not end the wait: it is
      read as "unknown" and the loop sleeps, exactly as for a job still in
      progress. */
  lemma MissingStatusKeepsWaiting(replies: seq<StatusReply>, maxWait: int, interval: int)
    requires 0 < |replies| && replies[0] == Received(Constants.HttpOk, None)
    requires 0 < maxWait && interval >= 0
    ensures WaitFrom(replies, maxWait, interval, 0, 0) == WaitFrom(replies, maxWait, interval, 1, interval)
  {
    assert StatusOf(None) == "unknown";
  }
}
