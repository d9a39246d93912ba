/** The background task `generate_report`: one delivery of a job is one
    attempt, and a failed attempt may put a follow-up job on the queue. The
    generation step itself (a sleep and a coin toss) is replaced by an
    `Outcome` the caller supplies. */
module Worker {
  import opened Wrappers
  import opened Reports
  import Decimal

  /** The task's `max_retries`: at most this many re-deliveries, so at most
      `MaxRetries + 1` attempts per job. */
  const MaxRetries: nat := 3

  /** A queued message: the report id, and how many times this job has
      already been retried (the task's `request.retries`). */
  datatype Job = Job(reportId: int, retries: nat)

  /** How the generation step ended; a success carries the clock reading
      that becomes `completed_at`. */
  datatype Outcome = Success(at: Time) | Failure

  /** The table after one attempt, and the follow-up job if one is queued. */
  datatype Step = Step(store: Store, requeue: Option<Job>)

  /** Where a successful attempt says the artefact lives. */
  function ResultUrl(id: int): string
  {
    "/reports/" + Decimal.IntToString(id) + ".txt"
  }

  /** Distinct ids get distinct result URLs. A re-used id gets the URL of
      the deleted report that had it before. */
  lemma ResultUrlInjective(a: int, b: int)
    requires ResultUrl(a) == ResultUrl(b)
    ensures a == b
  {
    var sa, sb := Decimal.IntToString(a), Decimal.IntToString(b);
    assert |sa| == |sb|;
    assert sa == ResultUrl(a)[9..9 + |sa|];
    assert sb == ResultUrl(b)[9..9 + |sb|];
    Decimal.IntToStringInjective(a, b);
  }

  /** First phase of an attempt: load the row, or give up silently when it
      is gone; otherwise mark it processing, whatever its status was. */
  function Begin(s: Store, id: int): (r: Option<Store>)
    ensures r.None? <==> id !in s
    ensures r.Some? ==> r.value.Keys == s.Keys
    // only the status column of this one row is written
    ensures r.Some? ==> r.value[id] == s[id].(status := Processing)
    ensures r.Some? ==> forall k :: k in s && k != id ==> r.value[k] == s[k]
  {
    if id in s then Some(s[id := s[id].(status := Processing)]) else None
  }

  /** Second phase, on the table as it stands when generation ends. A success
      on a row that still exists completes it. Otherwise (a failure, or a
      success whose write finds the row deleted) the row is re-read: if it
      is still there its retry count goes up by one, and on the last
      allowed attempt it is marked failed; earlier attempts re-queue the job. */
  function Settle(s: Store, job: Job, outcome: Outcome): (r: Step)
    ensures r.store.Keys == s.Keys
    ensures forall k :: k in s && k != job.reportId ==> r.store[k] == s[k]
    ensures r.requeue.Some? <==> (outcome.Failure? || job.reportId !in s) && job.retries < MaxRetries
    ensures r.requeue.Some? ==> r.requeue.value == Job(job.reportId, job.retries + 1)
    // a success on a row that is still there completes it
    ensures outcome.Success? && job.reportId in s ==>
      var before, after := s[job.reportId], r.store[job.reportId];
      after == before.(status := Completed, resultUrl := Some(ResultUrl(job.reportId)), completedAt := Some(outcome.at))
    // otherwise a row that is still there records one more failure, and the
    // last allowed attempt marks it failed
    ensures outcome.Failure? && job.reportId in s ==>
      var before, after := s[job.reportId], r.store[job.reportId];
      && after.retryCount == before.retryCount + 1
      && after.id == before.id && after.title == before.title && after.createdAt == before.createdAt
      && after.resultUrl == before.resultUrl && after.completedAt == before.completedAt
      && after.status == (if job.retries >= MaxRetries then Failed else before.status)
  {
    var id := job.reportId;
    if outcome.Success? && id in s then
      var done := s[id].(status := Completed, resultUrl := Some(ResultUrl(id)), completedAt := Some(outcome.at));
      Step(s[id := done], None)
    else
      var counted := if id in s then s[id := s[id].(retryCount := s[id].retryCount + 1)] else s;
      if job.retries >= MaxRetries then
        Step(if id in counted then counted[id := counted[id].(status := Failed)] else counted, None)
      else
        Step(counted, Some(Job(id, job.retries + 1)))
  }

  /** One delivery of `job`. */
  function Attempt(s: Store, job: Job, outcome: Outcome): (r: Step)
    // a job whose report is gone is dropped and changes nothing
    ensures job.reportId !in s ==> r == Step(s, None)
    // only the job's own row can change, and no row appears or disappears
    ensures r.store.Keys == s.Keys
    ensures forall k :: k in s && k != job.reportId ==> r.store[k] == s[k]
    ensures job.reportId in s ==>
      var before, after := s[job.reportId], r.store[job.reportId];
      && after.id == before.id && after.title == before.title && after.createdAt == before.createdAt
      && (outcome.Success? ==>
            && after.status == Completed
            && after.resultUrl == Some(ResultUrl(job.reportId))
            && after.completedAt == Some(outcome.at)
            && after.retryCount == before.retryCount
            && r.requeue == None)
      && (outcome.Failure? ==>
            && after.retryCount == before.retryCount + 1
            && after.resultUrl == before.resultUrl
            && after.completedAt == before.completedAt
            && after.status == (if job.retries >= MaxRetries then Failed else Processing)
            && r.requeue == (if job.retries >= MaxRetries then None else Some(Job(job.reportId, job.retries + 1))))
  {
    match Begin(s, job.reportId)
    case None => Step(s, None)
    case Some(marked) => Settle(marked, job, outcome)
  }

  /** `k` consecutive failures. */
  function Failures(k: nat): (os: seq<Outcome>)
    ensures |os| == k && forall i :: 0 <= i < k ==> os[i] == Failure
  {
    seq(k, _ => Failure)
  }

  /** Where a job stands after being fed a sequence of outcomes. */
  datatype Run = Run(store: Store, attempts: nat, pending: Option<Job>)

  /** Deliver `job`, then each follow-up job it queues, consuming one outcome
      per attempt. `pending` is the follow-up still queued when the outcomes
      run out; `attempts` counts the outcomes used. */
  function RunJob(s: Store, job: Job, outcomes: seq<Outcome>): (r: Run)
    ensures r.attempts <= |outcomes|
    ensures r.store.Keys == s.Keys
    ensures forall k :: k in s && k != job.reportId ==> r.store[k] == s[k]
    ensures r.pending.Some? ==> r.attempts == |outcomes| && r.pending.value.reportId == job.reportId
    decreases |outcomes|
  {
    if outcomes == [] then Run(s, 0, Some(job))
    else
      var step := Attempt(s, job, outcomes[0]);
      match step.requeue
      case None => Run(step.store, 1, None)
      case Some(next) =>
        var rest := RunJob(step.store, next, outcomes[1..]);
        Run(rest.store, rest.attempts + 1, rest.pending)
  }

  /** No job is attempted more than `MaxRetries + 1` times in all. */
  lemma {:induction false} RunJobBounded(s: Store, job: Job, outcomes: seq<Outcome>)
    requires job.retries <= MaxRetries
    ensures RunJob(s, job, outcomes).attempts <= MaxRetries + 1 - job.retries
    ensures RunJob(s, job, outcomes).pending.Some? ==> RunJob(s, job, outcomes).pending.value.retries <= MaxRetries
    decreases |outcomes|
  {
    if outcomes != [] {
      var step := Attempt(s, job, outcomes[0]);
      if step.requeue.Some? {
        RunJobBounded(step.store, step.requeue.value, outcomes[1..]);
      }
    }
  }

  /** `k` failures and then a success, within the retry budget, complete
      the report with `k` more recorded retries. */
  lemma {:induction false} FailuresThenSuccess(s: Store, job: Job, k: nat, at: Time, rest: seq<Outcome>)
    requires job.reportId in s
    requires job.retries + k <= MaxRetries
    ensures var r := RunJob(s, job, Failures(k) + ([Success(at)] + rest));
      && job.reportId in r.store
      && r.store[job.reportId].status == Completed
      && r.store[job.reportId].retryCount == s[job.reportId].retryCount + k
      && r.store[job.reportId].resultUrl == Some(ResultUrl(job.reportId))
      && r.store[job.reportId].completedAt == Some(at)
      && r.attempts == k + 1
      && r.pending == None
    decreases k
  {
    var os := Failures(k) + ([Success(at)] + rest);
    if k > 0 {
      FailuresTail(k, [Success(at)] + rest);
      var step := Attempt(s, job, Failure);
      var next := Job(job.reportId, job.retries + 1);
      assert step.requeue == Some(next);
      FailuresThenSuccess(step.store, next, k - 1, at, rest);
      var tail := RunJob(step.store, next, os[1..]);
      assert RunJob(s, job, os) == Run(tail.store, tail.attempts + 1, tail.pending);
    } else {
      assert os[0] == Success(at);
      var step := Attempt(s, job, Success(at));
      assert RunJob(s, job, os) == Run(step.store, 1, None);
    }
  }

  /** Failing every remaining attempt marks the report failed, after one
      retry-count increment per attempt, and leaves its result fields alone. */
  lemma {:induction false} FailuresExhaust(s: Store, job: Job, rest: seq<Outcome>)
    requires job.reportId in s
    requires job.retries <= MaxRetries
    ensures var n := MaxRetries + 1 - job.retries;
      var r := RunJob(s, job, Failures(n) + rest);
      && job.reportId in r.store
      && r.store[job.reportId].status == Failed
      && r.store[job.reportId].retryCount == s[job.reportId].retryCount + n
      && r.store[job.reportId].resultUrl == s[job.reportId].resultUrl
      && r.store[job.reportId].completedAt == s[job.reportId].completedAt
      && r.attempts == n
      && r.pending == None
    decreases MaxRetries - job.retries
  {
    var n := MaxRetries + 1 - job.retries;
    var os := Failures(n) + rest;
    FailuresTail(n, rest);
    var step := Attempt(s, job, Failure);
    if job.retries < MaxRetries {
      var next := Job(job.reportId, job.retries + 1);
      assert step.requeue == Some(next);
      FailuresExhaust(step.store, next, rest);
      var tail := RunJob(step.store, next, os[1..]);
      assert RunJob(s, job, os) == Run(tail.store, tail.attempts + 1, tail.pending);
    } else {
      assert step.requeue == None;
      assert RunJob(s, job, os) == Run(step.store, 1, None);
    }
  }

  /** Peeling the first of `n` failures off an outcome sequence. */
  lemma FailuresTail(n: nat, rest: seq<Outcome>)
    requires n > 0
    ensures (Failures(n) + rest)[0] == Failure
    ensures (Failures(n) + rest)[1..] == Failures(n - 1) + rest
  {
    assert Failures(n)[1..] == Failures(n - 1);
  }

  /** The lifecycle facts every stored row satisfies: a pending row has never
      been attempted, a completed row has its artefact and completion time,
      and a failed row has recorded at least one failure. */
  predicate Coherent(r: Report)
  {
    && (r.status == Pending ==> r.retryCount == 0 && r.resultUrl == None && r.completedAt == None)
    && (r.status == Completed ==> r.resultUrl == Some(ResultUrl(r.id)) && r.completedAt.Some?)
    && (r.status == Failed ==> r.retryCount > 0)
  }

  /** A well-keyed table of coherent rows. */
  predicate Consistent(s: Store)
  {
    WellFormed(s) && forall id :: id in s ==> Coherent(s[id])
  }

  /** An attempt keeps the table consistent, whatever the row's prior status. */
  lemma AttemptConsistent(s: Store, job: Job, outcome: Outcome)
    requires Consistent(s)
    ensures Consistent(Attempt(s, job, outcome).store)
  {
  }

  /** A job started on a fresh report: however the outcomes fall, the report
      ends completed within the retry budget, failed after one more failure
      than the budget, or still processing with its follow-up job queued. */
  lemma {:induction false} RunFromCount(s: Store, job: Job, outcomes: seq<Outcome>)
    requires job.reportId in s
    requires s[job.reportId].retryCount == job.retries <= MaxRetries
    requires s[job.reportId].status == Processing || outcomes != []
    ensures var r := RunJob(s, job, outcomes); var after := r.store[job.reportId];
      && after.retryCount <= MaxRetries + 1
      && (r.pending.None? ==>
            || (after.status == Completed && after.retryCount <= MaxRetries)
            || (after.status == Failed && after.retryCount == MaxRetries + 1))
      && (r.pending.Some? ==>
            && after.status == Processing
            && r.pending.value == Job(job.reportId, after.retryCount))
    decreases |outcomes|
  {
    if outcomes != [] {
      var step := Attempt(s, job, outcomes[0]);
      if step.requeue.Some? {
        RunFromCount(step.store, step.requeue.value, outcomes[1..]);
      }
    }
  }

  /** A second delivery for a completed report reopens it: the row goes back
      to processing, and a failing attempt leaves it there with the earlier
      result URL still set. */
  lemma RedeliveryReopensCompleted(s: Store, id: int, retries: nat)
    requires id in s && s[id].status == Completed && s[id].resultUrl.Some?
    requires retries < MaxRetries
    ensures var after := Attempt(s, Job(id, retries), Failure).store[id];
      after.status == Processing && after.resultUrl == s[id].resultUrl
  {
  }
}
