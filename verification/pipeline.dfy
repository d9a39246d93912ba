/** The whole backend as one state machine: requests from the API and
    deliveries of queued jobs to the worker, in any interleaving, over the
    table and the queue. */
module Pipeline {
  import opened Wrappers
  import opened Reports
  import opened SortedKeys
  import opened Worker
  import opened Api

  /** The queue hands message `i` to a worker, which makes one attempt; a
      follow-up job joins the back of the queue. The queue promises no order,
      so any waiting message may be the one delivered. */
  function Deliver(b: Backend, i: nat, outcome: Outcome): (r: Backend)
    requires i < |b.queue|
    ensures r.store == Attempt(b.store, b.queue[i], outcome).store
    // the delivered message leaves the queue, every other one stays, and
    // the follow-up, if any, is the only one added
    ensures multiset(r.queue) == multiset(b.queue) - multiset{b.queue[i]} + Requeued(Attempt(b.store, b.queue[i], outcome))
    ensures |r.queue| == |b.queue| - 1 + |Requeued(Attempt(b.store, b.queue[i], outcome))|
  {
    var step := Attempt(b.store, b.queue[i], outcome);
    var rest := b.queue[..i] + b.queue[i + 1..];
    assert b.queue == b.queue[..i] + [b.queue[i]] + b.queue[i + 1..];
    match step.requeue
    case None => Backend(step.store, rest)
    case Some(next) => Backend(step.store, rest + [next])
  }

  /** The messages an attempt adds to the queue. */
  function Requeued(step: Step): multiset<Job>
  {
    if step.requeue.Some? then multiset{step.requeue.value} else multiset{}
  }

  /** What can happen next: a create or delete request, or a delivery. */
  datatype Event =
    | CreateRequest(title: string, now: Time)
    | DeleteRequest(id: int)
    | Delivery(index: nat, outcome: Outcome)

  /** One event; a delivery when no such message waits does nothing. */
  function Apply(b: Backend, e: Event): Backend
  {
    match e
    case CreateRequest(title, now) => Create(b, title, now).backend
    case DeleteRequest(id) => Delete(b, id).backend
    case Delivery(i, outcome) => if i < |b.queue| then Deliver(b, i, outcome) else b
  }

  /** The state after a history of events, starting from `b`. */
  function Replay(b: Backend, events: seq<Event>): Backend
    decreases |events|
  {
    if events == [] then b else Replay(Apply(b, events[0]), events[1..])
  }

  /** The reachable-state invariant: a consistent table, and no queued job
      past its retry budget. */
  predicate Invariant(b: Backend)
  {
    && Consistent(b.store)
    && forall i :: 0 <= i < |b.queue| ==> b.queue[i].retries <= MaxRetries
  }

  /** Every event keeps the invariant. */
  lemma ApplyInvariant(b: Backend, e: Event)
    requires Invariant(b)
    ensures Invariant(Apply(b, e))
  {
    match e
    case CreateRequest(title, now) =>
    case DeleteRequest(id) =>
    case Delivery(i, outcome) =>
      if i < |b.queue| {
        AttemptConsistent(b.store, b.queue[i], outcome);
        var r := Deliver(b, i, outcome);
        forall j | 0 <= j < |r.queue|
          ensures r.queue[j].retries <= MaxRetries
        {
          if j < i {
            assert r.queue[j] == b.queue[j];
          } else if j < |b.queue| - 1 {
            assert r.queue[j] == b.queue[j + 1];
          }
        }
      }
  }

  /** The invariant survives any sequence of events from any state that has
      it. The empty backend has it, so every state reachable from there has
      it: completed rows carry their own result URL and a completion time,
      pending rows are untouched, failed rows recorded a failure. */
  lemma {:induction false} ReplayInvariant(b: Backend, events: seq<Event>)
    requires Invariant(b)
    ensures Invariant(Replay(b, events))
    decreases |events|
  {
    if events != [] {
      ApplyInvariant(b, events[0]);
      ReplayInvariant(Apply(b, events[0]), events[1..]);
    }
  }

  /** A new report heads the listing, pending, above the older rows. */
  lemma ListAfterCreate(b: Backend, title: string, now: Time)
    requires WellFormed(b.store)
    ensures var c := Create(b, title, now);
      && WellFormed(c.backend.store)
      && List(c.backend.store) == [c.report] + List(b.store)
      && c.report.status == Pending
  {
    var c := Create(b, title, now);
    ListInsertTop(b.store, c.report);
  }

  /** Inserting a row whose key exceeds every other puts it at the head of
      the listing, above the unchanged listing of the rest. */
  lemma ListInsertTop(s: Store, r: Report)
    requires WellFormed(s)
    requires forall k :: k in s ==> k < r.id
    ensures WellFormed(s[r.id := r])
    ensures List(s[r.id := r]) == [r] + List(s)
  {
    ListIsRows(s);
    ListIsRows(s[r.id := r]);
    RowsAfterInsert(s, r);
  }

  /** A new report's job, failing `k` times within the budget and then
      succeeding, completes it with `k` recorded retries and its URL. */
  lemma CreatedJobCompletes(b: Backend, title: string, now: Time, k: nat, at: Time, rest: seq<Outcome>)
    requires k <= MaxRetries
    ensures var c := Create(b, title, now);
      var r := RunJob(c.backend.store, Job(c.report.id, 0), Failures(k) + ([Success(at)] + rest));
      var after := r.store[c.report.id];
      && after.status == Completed
      && after.retryCount == k
      && after.resultUrl == Some("/reports/" + Decimal.IntToString(c.report.id) + ".txt")
      && after.completedAt == Some(at)
      && r.attempts == k + 1
      && r.pending == None
  {
    var c := Create(b, title, now);
    FailuresThenSuccess(c.backend.store, Job(c.report.id, 0), k, at, rest);
  }

  /** A new report's job failing every attempt ends failed after four
      attempts, with a retry count of four and no result. */
  lemma CreatedJobFails(b: Backend, title: string, now: Time, rest: seq<Outcome>)
    ensures var c := Create(b, title, now);
      var r := RunJob(c.backend.store, Job(c.report.id, 0), Failures(4) + rest);
      var after := r.store[c.report.id];
      && after.status == Failed
      && after.retryCount == 4
      && after.resultUrl == None
      && after.completedAt == None
      && r.attempts == 4
      && r.pending == None
  {
    var c := Create(b, title, now);
    FailuresExhaust(c.backend.store, Job(c.report.id, 0), rest);
  }

  /** However a new report's attempts turn out, there are at most four of
      them and the retry count never passes four. */
  lemma CreatedJobBounded(b: Backend, title: string, now: Time, outcomes: seq<Outcome>)
    ensures var c := Create(b, title, now);
      var r := RunJob(c.backend.store, Job(c.report.id, 0), outcomes);
      && r.attempts <= MaxRetries + 1
      && r.store[c.report.id].retryCount <= MaxRetries + 1
  {
    var c := Create(b, title, now);
    RunJobBounded(c.backend.store, Job(c.report.id, 0), outcomes);
    if outcomes != [] {
      RunFromCount(c.backend.store, Job(c.report.id, 0), outcomes);
    }
  }

  /** A report deleted while its generation runs stays deleted: the late
      write finds no row and creates none. */
  lemma DeleteDuringGeneration(b: Backend, job: Job, outcome: Outcome)
    requires job.reportId in b.store
    ensures var marked := Begin(b.store, job.reportId).value;
      var deleted := Delete(Backend(marked, b.queue), job.reportId).backend;
      var settled := Settle(deleted.store, job, outcome);
      && settled.store == b.store - {job.reportId}
      && Get(settled.store, job.reportId) == Err(NotFound)
  {
  }

  /** A history in which an id is handed out again: report 1 fails three
      times, is deleted while its last follow-up job still waits, and a new
      report receives id 1 again. */
  const StaleJobHistory: seq<Event> := [
    CreateRequest("first", 0),
    Delivery(0, Failure), Delivery(0, Failure), Delivery(0, Failure),
    DeleteRequest(1),
    CreateRequest("second", 1),
    Delivery(0, Failure)]

  /** What the history leaves behind: the new report 1, failed with a
      retry count of 1. */
  predicate StaleJobOutcome(b: Backend)
  {
    1 in b.store && b.store[1].title == "second" && b.store[1].status == Failed && b.store[1].retryCount == 1
  }

  /** The waiting job of the deleted report is delivered to the new report
      1, which takes it as its fourth attempt: one failure marks it failed
      with a retry count of 1, though it never had a retry. */
  lemma StaleJobFailsReusedId()
    ensures var b := Replay(Backend(map[], []), StaleJobHistory);
      Invariant(b) && StaleJobOutcome(b)
  {
    StaleJobCreated(Backend(map[], []));
    ReplayInvariant(Backend(map[], []), StaleJobHistory);
  }

  /** From the first create on. */
  lemma StaleJobCreated(b: Backend)
    requires b.store == map[] && b.queue == []
    ensures StaleJobOutcome(Replay(b, StaleJobHistory))
  {
    var h := StaleJobHistory;
    var created := CreateStep(b, h[0]);
    assert created.queue == [Job(1, 0)];
    assert Replay(b, h) == Replay(created, h[1..]);
    StaleJobFailing(created, 0);
  }

  /** From the `k`-th failure of the first report on. */
  lemma {:induction false} StaleJobFailing(b: Backend, k: nat)
    requires k <= MaxRetries && b.store.Keys == {1} && b.queue == [Job(1, k)]
    ensures StaleJobOutcome(Replay(b, StaleJobHistory[k + 1..]))
    decreases MaxRetries - k
  {
    var h := StaleJobHistory;
    if k < MaxRetries {
      var next := FailStep(b, h[k + 1], 1, k);
      assert next.queue == [Job(1, k + 1)];
      assert h[k + 1..][1..] == h[k + 2..];
      assert Replay(b, h[k + 1..]) == Replay(next, h[k + 2..]);
      StaleJobFailing(next, k + 1);
    } else {
      var next := DeleteStep(b, h[4], 1);
      assert h[4..][1..] == h[5..];
      assert Replay(b, h[4..]) == Replay(next, h[5..]);
      StaleJobRecreated(next);
    }
  }

  /** From the second create on. */
  lemma StaleJobRecreated(b: Backend)
    requires b.store == map[] && b.queue == [Job(1, 3)]
    ensures StaleJobOutcome(Replay(b, StaleJobHistory[5..]))
  {
    var h := StaleJobHistory;
    var created := CreateStep(b, h[5]);
    assert created.queue == [Job(1, 3), Job(1, 0)];
    var failed := FailStep(created, h[6], 1, 3);
    assert h[5..][1..] == h[6..] && h[6..][1..] == [];
    assert Replay(b, h[5..]) == Replay(created, h[6..]);
    assert Replay(created, h[6..]) == Replay(failed, []) == failed;
  }

  /** A create on an empty table: the row gets key 1. */
  lemma CreateStep(b: Backend, e: Event) returns (next: Backend)
    requires b.store == map[] && e.CreateRequest?
    ensures Apply(b, e) == next
    ensures next.store.Keys == {1} && next.store[1] == NewReport(1, e.title, e.now)
    ensures next.queue == b.queue + [Job(1, 0)]
  {
    next := Apply(b, e);
  }

  /** A failure delivered to the front job, which is for the table's one row. */
  lemma FailStep(b: Backend, e: Event, id: int, k: nat) returns (next: Backend)
    requires e == Delivery(0, Failure)
    requires b.store.Keys == {id} && |b.queue| >= 1 && b.queue[0] == Job(id, k)
    ensures Apply(b, e) == next
    ensures next.store.Keys == {id}
    ensures next.store[id] == b.store[id].(status := if k >= MaxRetries then Failed else Processing, retryCount := b.store[id].retryCount + 1)
    ensures next.queue == b.queue[1..] + (if k >= MaxRetries then [] else [Job(id, k + 1)])
  {
    next := Apply(b, e);
    assert b.queue[..0] + b.queue[1..] == b.queue[1..];
  }

  /** Deleting the table's one row. */
  lemma DeleteStep(b: Backend, e: Event, id: int) returns (next: Backend)
    requires e == DeleteRequest(id) && b.store.Keys == {id}
    ensures Apply(b, e) == next
    ensures next.store == map[] && next.queue == b.queue
  {
    next := Apply(b, e);
    assert next.store.Keys == {};
  }
}
