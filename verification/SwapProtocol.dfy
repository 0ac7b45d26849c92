/**
 Idempotent execution of swaps: requests pass the idempotency check, enqueue a
 job, store their response under the key and reply, while one worker polls the
 queue.  Every database access is a step of its own, steps of different
 requests and of the worker interleave freely, and any write may fail.

 `overlap(key)` bounds how many requests with that key are in flight at once;
 other keys have bounds of their own.
 */
module SwapProtocol {
  import opened Prelude
  import opened TransactionQueue

  datatype Response = Response(requestId: nat, transactionId: nat)

  /** A row of idempotency_keys; its hash is written and never read. */
  datatype Record = Record(requestHash: string, response: Response, completed: bool)

  /** How far a request has come; `tx` is the job it enqueued. */
  datatype Pc =
    | Arrived
    | Passed
    | Enqueued(tx: nat)
    | Stored(tx: nat)
    | Replied(response: Response)
    | Replayed(response: Response)
    | StoreFailed(tx: nat)
    | Rejected

  datatype Request = Request(key: string, hash: string, pc: Pc) {
    predicate InFlight() { pc.Arrived? || pc.Passed? || pc.Enqueued? || pc.Stored? }
  }

  /** The worker between two row updates; `rest` is what is left of its batch. */
  datatype Worker =
    | Idle
    | Picking(rest: seq<nat>)
    | Marked(id: nat, rest: seq<nat>)
    | Succeeded(id: nat, hash: string, rest: seq<nat>)
    | Catching(id: nat, rest: seq<nat>)

  datatype State = State(requests: seq<Request>, records: map<string, Record>, jobs: seq<Job>, worker: Worker)

  datatype Step =
    | Arrive(key: string, hash: string)
    | Check(i: nat)
    | Reject(i: nat)
    | Enqueue(i: nat)
    | Store(i: nat)
    | FailStore(i: nat)
    | Reply(i: nat)
    | StartPoll
    | MarkProcessing(ok: bool)
    | Execute(exec: Option<string>)
    | MarkCompleted(ok: bool)
    | MarkFailed(ok: bool)
    | EndPoll
    | Crash

  // ----- steps

  /** The request a step belongs to. */
  function Mover(st: Step): Option<nat> {
    match st
    case Check(i) => Some(i)
    case Reject(i) => Some(i)
    case Enqueue(i) => Some(i)
    case Store(i) => Some(i)
    case FailStore(i) => Some(i)
    case Reply(i) => Some(i)
    case _ => None
  }

  /** The job a worker step updates. */
  function Target(w: Worker): Option<nat> {
    match w
    case Idle => None
    case Picking(rest) => if rest == [] then None else Some(rest[0])
    case Marked(id, _) => Some(id)
    case Succeeded(id, _, _) => Some(id)
    case Catching(id, _) => Some(id)
  }

  predicate HasTarget(s: State) { Target(s.worker).Some? && Target(s.worker).value < |s.jobs| }

  predicate Enabled(overlap: string -> nat, s: State, st: Step) {
    match st
    case Arrive(key, _) => Sum(s.requests, Busy(key)) < overlap(key)
    case Check(i) => i < |s.requests| && s.requests[i].pc.Arrived?
    case Reject(i) => i < |s.requests| && (s.requests[i].pc.Arrived? || s.requests[i].pc.Passed?)
    case Enqueue(i) => i < |s.requests| && s.requests[i].pc.Passed?
    case Store(i) => i < |s.requests| && s.requests[i].pc.Enqueued?
    case FailStore(i) => i < |s.requests| && s.requests[i].pc.Enqueued?
    case Reply(i) => i < |s.requests| && s.requests[i].pc.Stored?
    case StartPoll => s.worker.Idle?
    case MarkProcessing(_) => s.worker.Picking? && HasTarget(s)
    case Execute(_) => s.worker.Marked? && HasTarget(s)
    case MarkCompleted(_) => s.worker.Succeeded? && HasTarget(s)
    case MarkFailed(_) => s.worker.Catching? && HasTarget(s)
    case EndPoll => s.worker == Picking([])
    case Crash => true
  }

  function Move(s: State, i: nat, pc: Pc): State
    requires i < |s.requests|
  {
    s.(requests := s.requests[i := s.requests[i].(pc := pc)])
  }

  function Write(s: State, job: Job, w: Worker): State
    requires HasTarget(s)
  {
    s.(jobs := s.jobs[Target(s.worker).value := job], worker := w)
  }

  predicate HasCompleted(s: State, key: string) { key in s.records && s.records[key].completed }

  function Effect(overlap: string -> nat, s: State, st: Step): State
    requires Enabled(overlap, s, st)
  {
    match st
    case Arrive(key, hash) => s.(requests := s.requests + [Request(key, hash, Arrived)])
    case Check(i) =>
      var key := s.requests[i].key;
      Move(s, i, if HasCompleted(s, key) then Replayed(s.records[key].response) else Passed)
    case Reject(i) => Move(s, i, Rejected)
    case Enqueue(i) => Move(s, i, Enqueued(|s.jobs|)).(jobs := s.jobs + [NewJob(s.requests[i].key)])
    case Store(i) =>
      var r := s.requests[i];
      Move(s, i, Stored(r.pc.tx)).(records := s.records[r.key := Record(r.hash, Response(i, r.pc.tx), true)])
    case FailStore(i) => Move(s, i, StoreFailed(s.requests[i].pc.tx))
    case Reply(i) => Move(s, i, Replied(Response(i, s.requests[i].pc.tx)))
    case StartPoll => s.(worker := Picking(Batch(s.jobs)))
    case MarkProcessing(ok) =>
      var id, rest := s.worker.rest[0], s.worker.rest[1..];
      if ok then Write(s, s.jobs[id].(status := Processing), Marked(id, rest))
      else s.(worker := Catching(id, rest))
    case Execute(exec) =>
      var w := s.worker;
      Write(s, Called(s.jobs[w.id], exec),
            if exec.Some? then Succeeded(w.id, exec.value, w.rest) else Catching(w.id, w.rest))
    case MarkCompleted(ok) =>
      var w := s.worker;
      if ok then Write(s, s.jobs[w.id].(status := Completed, txHash := Some(w.hash)), Picking(w.rest))
      else s.(worker := Catching(w.id, w.rest))
    case MarkFailed(ok) =>
      var w := s.worker;
      if ok then Write(s, s.jobs[w.id].(status := Failed, error := true), Picking(w.rest))
      else s.(worker := Idle)
    case EndPoll => s.(worker := Idle)
    case Crash => s.(worker := Idle)
  }

  /** A step that is not enabled does nothing, so every list of steps is a run. */
  function Next(overlap: string -> nat, s: State, st: Step): State {
    if Enabled(overlap, s, st) then Effect(overlap, s, st) else s
  }

  function Exec(overlap: string -> nat, s: State, steps: seq<Step>): State {
    if steps == [] then s else Next(overlap, Exec(overlap, s, Init(steps)), Last(steps))
  }

  const START := State([], map[], [], Idle)

  function Reach(overlap: string -> nat, steps: seq<Step>): State { Exec(overlap, START, steps) }

  // ----- counting

  function Busy(key: string): Request -> int {
    (r: Request) => if r.InFlight() && r.key == key then 1 else 0
  }

  /** Passed the check, not known to have failed. */
  function Slot(key: string): Request -> int {
    (r: Request) => if (r.pc.Passed? || r.pc.Enqueued? || r.pc.Stored? || r.pc.Replied?) && r.key == key then 1 else 0
  }

  function StoredOk(key: string): Request -> int {
    (r: Request) => if (r.pc.Stored? || r.pc.Replied?) && r.key == key then 1 else 0
  }

  function StoreLost(key: string): Request -> int {
    (r: Request) => if r.pc.StoreFailed? && r.key == key then 1 else 0
  }

  function Between(key: string): Request -> int {
    (r: Request) => if r.pc.Enqueued? && r.key == key then 1 else 0
  }

  function JobOf(key: string): Job -> int { (j: Job) => if j.key == key then 1 else 0 }

  function CallsOf(key: string): Job -> int { (j: Job) => if j.key == key then j.calls else 0 }

  /** Jobs ever enqueued for a key. */
  function JobsFor(s: State, key: string): int { Sum(s.jobs, JobOf(key)) }

  /** Calls of executeTransaction ever made for a key. */
  function CallsFor(s: State, key: string): int { Sum(s.jobs, CallsOf(key)) }

  lemma SumsMove(overlap: string -> nat, s: State, st: Step, w: Request -> int)
    requires Enabled(overlap, s, st)
    ensures var h := Effect(overlap, s, st);
            match Mover(st)
            case Some(i) => i < |s.requests| == |h.requests|
                            && Sum(h.requests, w) == Sum(s.requests, w) - w(s.requests[i]) + w(h.requests[i])
            case None => Sum(h.requests, w)
                         == Sum(s.requests, w) + if st.Arrive? then w(Request(st.key, st.hash, Arrived)) else 0
  {
    match Mover(st)
    case Some(i) => SumUpdate(s.requests, w, i, Effect(overlap, s, st).requests[i]);
    case None => if st.Arrive? { SumAppend(s.requests, w, Request(st.key, st.hash, Arrived)); }
  }

  lemma JobsMove(overlap: string -> nat, s: State, st: Step, key: string)
    requires Enabled(overlap, s, st)
    ensures JobsFor(Effect(overlap, s, st), key)
         == JobsFor(s, key) + if st.Enqueue? && s.requests[st.i].key == key then 1 else 0
  {
    var h := Effect(overlap, s, st);
    if st.Enqueue? {
      SumAppend(s.jobs, JobOf(key), NewJob(s.requests[st.i].key));
    } else if h.jobs != s.jobs {
      var id := Target(s.worker).value;
      SumUpdate(s.jobs, JobOf(key), id, h.jobs[id]);
    }
  }

  /** The request has put a job into the queue. */
  function Queued(key: string): Request -> int {
    (r: Request) =>
      if (r.pc.Enqueued? || r.pc.Stored? || r.pc.Replied? || r.pc.StoreFailed?) && r.key == key then 1 else 0
  }

  lemma {:induction false} QueuedSplits(rs: seq<Request>, key: string)
    ensures Sum(rs, Queued(key)) == Sum(rs, StoredOk(key)) + Sum(rs, StoreLost(key)) + Sum(rs, Between(key))
  {
    if rs == [] {
    } else {
      QueuedSplits(Init(rs), key);
    }
  }

  lemma QueuedStep(overlap: string -> nat, s: State, st: Step, key: string)
    requires Enabled(overlap, s, st) && JobsFor(s, key) == Sum(s.requests, Queued(key))
    ensures JobsFor(Effect(overlap, s, st), key) == Sum(Effect(overlap, s, st).requests, Queued(key))
  {
    JobsMove(overlap, s, st, key);
    SumsMove(overlap, s, st, Queued(key));
  }

  lemma {:induction false} JobsAreQueued(overlap: string -> nat, steps: seq<Step>, key: string)
    ensures JobsFor(Reach(overlap, steps), key) == Sum(Reach(overlap, steps).requests, Queued(key))
  {
    if steps == [] {
    } else {
      JobsAreQueued(overlap, Init(steps), key);
      var s := Reach(overlap, Init(steps));
      if Enabled(overlap, s, Last(steps)) {
        QueuedStep(overlap, s, Last(steps), key);
      }
    }
  }

  /**
   Every job of a key is accounted for: a store that succeeded, a store that
   failed, or a request between enqueue and store.
   */
  lemma JobsAreAccountedFor(overlap: string -> nat, steps: seq<Step>, key: string)
    ensures var s := Reach(overlap, steps);
            JobsFor(s, key) == Sum(s.requests, StoredOk(key)) + Sum(s.requests, StoreLost(key))
                               + Sum(s.requests, Between(key))
  {
    JobsAreQueued(overlap, steps, key);
    QueuedSplits(Reach(overlap, steps).requests, key);
  }

  // ----- how many jobs a key can have

  predicate SlotsBounded(overlap: string -> nat, s: State, key: string) {
    && Sum(s.requests, Busy(key)) <= overlap(key)
    && Sum(s.requests, Slot(key)) <= overlap(key)
    && (!HasCompleted(s, key) ==> Sum(s.requests, StoredOk(key)) == 0)
  }

  /** Before anything is stored, the requests past the check are in flight, and so is the one being checked. */
  lemma RoomForOneMore(overlap: string -> nat, s: State, i: nat, key: string)
    requires i < |s.requests| && s.requests[i].pc.Arrived? && s.requests[i].key == key
    requires Sum(s.requests, Busy(key)) <= overlap(key) && Sum(s.requests, StoredOk(key)) == 0
    ensures Sum(s.requests, Slot(key)) + 1 <= overlap(key)
  {
    var out := s.requests[i].(pc := Rejected);
    var rest := s.requests[i := out];
    SumUpdate(s.requests, Busy(key), i, out);
    SumUpdate(s.requests, Slot(key), i, out);
    SumNonnegative(s.requests, StoredOk(key));
    forall j | 0 <= j < |rest| ensures Slot(key)(rest[j]) <= 1 * Busy(key)(rest[j]) {
      assert StoredOk(key)(s.requests[j]) <= 0;
    }
    SumAtMost(rest, Slot(key), Busy(key), 1);
  }

  lemma BusyStep(overlap: string -> nat, s: State, st: Step, key: string)
    requires Enabled(overlap, s, st) && Sum(s.requests, Busy(key)) <= overlap(key)
    ensures Sum(Effect(overlap, s, st).requests, Busy(key)) <= overlap(key)
  {
    SumsMove(overlap, s, st, Busy(key));
  }

  lemma SlotStep(overlap: string -> nat, s: State, st: Step, key: string)
    requires Enabled(overlap, s, st) && SlotsBounded(overlap, s, key)
    ensures Sum(Effect(overlap, s, st).requests, Slot(key)) <= overlap(key)
  {
    SumsMove(overlap, s, st, Slot(key));
    if st.Check? && s.requests[st.i].key == key && !HasCompleted(s, key) {
      RoomForOneMore(overlap, s, st.i, key);
    }
  }

  /** The step stores a response under the key. */
  predicate Stores(s: State, st: Step, key: string) {
    st.Store? && st.i < |s.requests| && s.requests[st.i].key == key
  }

  lemma RecordsChange(overlap: string -> nat, s: State, st: Step, key: string)
    requires Enabled(overlap, s, st)
    ensures if Stores(s, st, key) then HasCompleted(Effect(overlap, s, st), key)
            else Get(Effect(overlap, s, st).records, key) == Get(s.records, key)
  {
  }

  lemma StoredWeight(overlap: string -> nat, s: State, st: Step, key: string, i: nat)
    requires Enabled(overlap, s, st) && Mover(st) == Some(i) && !Stores(s, st, key)
    ensures StoredOk(key)(Effect(overlap, s, st).requests[i]) == StoredOk(key)(s.requests[i])
  {
  }

  lemma StoredStep(overlap: string -> nat, s: State, st: Step, key: string)
    requires Enabled(overlap, s, st) && SlotsBounded(overlap, s, key)
    ensures var h := Effect(overlap, s, st);
            !HasCompleted(h, key) ==> Sum(h.requests, StoredOk(key)) == 0
  {
    RecordsChange(overlap, s, st, key);
    if !Stores(s, st, key) {
      SumsMove(overlap, s, st, StoredOk(key));
      if Mover(st).Some? {
        StoredWeight(overlap, s, st, key, Mover(st).value);
      }
    }
  }

  lemma SlotsBoundedStep(overlap: string -> nat, s: State, st: Step, key: string)
    requires SlotsBounded(overlap, s, key)
    ensures SlotsBounded(overlap, Next(overlap, s, st), key)
  {
    if Enabled(overlap, s, st) {
      BusyStep(overlap, s, st, key);
      SlotStep(overlap, s, st, key);
      StoredStep(overlap, s, st, key);
    }
  }

  lemma {:induction false} SlotsStayBounded(overlap: string -> nat, steps: seq<Step>, key: string)
    ensures SlotsBounded(overlap, Reach(overlap, steps), key)
  {
    if steps == [] {
    } else {
      SlotsStayBounded(overlap, Init(steps), key);
      SlotsBoundedStep(overlap, Reach(overlap, Init(steps)), Last(steps), key);
    }
  }

  lemma {:induction false} SumOfTwo(rs: seq<Request>, key: string)
    ensures Sum(rs, StoredOk(key)) + Sum(rs, Between(key)) <= Sum(rs, Slot(key))
  {
    if rs == [] {
    } else {
      SumOfTwo(Init(rs), key);
    }
  }

  /**
   How often a key can be executed twice: whatever the interleaving, a key
   never has more jobs than its requests may overlap plus its failed stores.
   */
  lemma JobBound(overlap: string -> nat, steps: seq<Step>, key: string)
    ensures var s := Reach(overlap, steps);
            JobsFor(s, key) <= overlap(key) + Sum(s.requests, StoreLost(key))
  {
    JobsAreAccountedFor(overlap, steps, key);
    SlotsStayBounded(overlap, steps, key);
    SumOfTwo(Reach(overlap, steps).requests, key);
  }

  // ----- the bound is reached

  /** The first f requests lost their store, the next n are between enqueue and store. */
  function Shape(key: string, f: nat, n: nat): seq<Request> {
    seq(f + n, i requires 0 <= i < f + n => Request(key, "h", if i < f then StoreFailed(i) else Enqueued(i)))
  }

  function FreshJobs(key: string, n: nat): seq<Job> { seq(n, _ => NewJob(key)) }

  function ShapeState(key: string, f: nat, n: nat): State {
    State(Shape(key, f, n), map[], FreshJobs(key, f + n), Idle)
  }

  lemma {:induction false} FreshJobsSum(key: string, n: nat)
    ensures Sum(FreshJobs(key, n), JobOf(key)) == n
  {
    if n == 0 {
    } else {
      FreshJobsSum(key, n - 1);
      assert Init(FreshJobs(key, n)) == FreshJobs(key, n - 1);
    }
  }

  lemma {:induction false} ShapeSums(key: string, f: nat, n: nat)
    ensures Sum(Shape(key, f, n), Busy(key)) == n && Sum(Shape(key, f, n), StoreLost(key)) == f
    decreases f + n
  {
    if n > 0 {
      ShapeSums(key, f, n - 1);
      assert Init(Shape(key, f, n)) == Shape(key, f, n - 1);
    } else if f > 0 {
      ShapeSums(key, f - 1, 0);
      assert Init(Shape(key, f, 0)) == Shape(key, f - 1, 0);
    }
  }

  lemma ExecStep(overlap: string -> nat, s: State, steps: seq<Step>, st: Step)
    ensures Exec(overlap, s, steps + [st]) == Next(overlap, Exec(overlap, s, steps), st)
  {
  }

  lemma CrowdArrives(overlap: string -> nat, key: string, f: nat, n: nat)
    requires n < overlap(key)
    ensures Next(overlap, ShapeState(key, f, n), Arrive(key, "h"))
         == State(Shape(key, f, n) + [Request(key, "h", Arrived)], map[], FreshJobs(key, f + n), Idle)
  {
    ShapeSums(key, f, n);
  }

  /** A request that arrived last passes the check and enqueues. */
  lemma LastOneEnqueues(overlap: string -> nat, key: string, before: seq<Request>, jobs: seq<Job>)
    ensures var i := |before|;
            var s := State(before + [Request(key, "h", Arrived)], map[], jobs, Idle);
            Next(overlap, Next(overlap, s, Check(i)), Enqueue(i))
              == State(before + [Request(key, "h", Enqueued(|jobs|))], map[], jobs + [NewJob(key)], Idle)
  {
  }

  /** One more request arrives, passes the check and enqueues. */
  lemma EnqueueOneMore(overlap: string -> nat, key: string, f: nat, n: nat)
    requires n < overlap(key)
    ensures var i := f + n;
            Next(overlap, Next(overlap, Next(overlap, ShapeState(key, f, n), Arrive(key, "h")), Check(i)), Enqueue(i))
              == ShapeState(key, f, n + 1)
  {
    CrowdArrives(overlap, key, f, n);
    LastOneEnqueues(overlap, key, Shape(key, f, n), FreshJobs(key, f + n));
    assert Shape(key, f, n) + [Request(key, "h", Enqueued(f + n))] == Shape(key, f, n + 1);
    assert FreshJobs(key, f + n) + [NewJob(key)] == FreshJobs(key, f + n + 1);
  }

  lemma LoseStore(overlap: string -> nat, key: string, f: nat)
    ensures Next(overlap, ShapeState(key, f, 1), FailStore(f)) == ShapeState(key, f + 1, 0)
  {
    assert Next(overlap, ShapeState(key, f, 1), FailStore(f)).requests == Shape(key, f + 1, 0);
  }

  /** The state: f failed stores, n requests between enqueue and store, and a job for each. */
  lemma {:induction false} RunToShape(overlap: string -> nat, key: string, f: nat, n: nat) returns (steps: seq<Step>)
    requires 1 <= overlap(key) && n <= overlap(key)
    ensures Reach(overlap, steps) == ShapeState(key, f, n)
    decreases f + n
  {
    steps := [];
    if n > 0 {
      steps := RunToShape(overlap, key, f, n - 1);
      steps := EnqueueAfter(overlap, key, f, n - 1, steps);
    } else if f > 0 {
      steps := RunToShape(overlap, key, f - 1, 0);
      steps := EnqueueAfter(overlap, key, f - 1, 0, steps);
      LoseStore(overlap, key, f - 1);
      ExecStep(overlap, START, steps, FailStore(f - 1));
      steps := steps + [FailStore(f - 1)];
    } else {
      assert ShapeState(key, 0, 0) == START;
    }
  }

  lemma EnqueueAfter(overlap: string -> nat, key: string, f: nat, n: nat, before: seq<Step>) returns (steps: seq<Step>)
    requires n < overlap(key) && Reach(overlap, before) == ShapeState(key, f, n)
    ensures Reach(overlap, steps) == ShapeState(key, f, n + 1)
  {
    var i := f + n;
    EnqueueOneMore(overlap, key, f, n);
    ExecStep(overlap, START, before, Arrive(key, "h"));
    ExecStep(overlap, START, before + [Arrive(key, "h")], Check(i));
    ExecStep(overlap, START, before + [Arrive(key, "h")] + [Check(i)], Enqueue(i));
    steps := before + [Arrive(key, "h")] + [Check(i)] + [Enqueue(i)];
  }

  /** For every key, overlap and number of failed stores some run gives the key as many jobs as is allowed. */
  lemma JobBoundIsReached(overlap: string -> nat, key: string, losses: nat) returns (steps: seq<Step>)
    requires 1 <= overlap(key)
    ensures var s := Reach(overlap, steps);
            Sum(s.requests, StoreLost(key)) == losses && JobsFor(s, key) == overlap(key) + losses
  {
    steps := RunToShape(overlap, key, losses, overlap(key));
    ShapeSums(key, losses, overlap(key));
    FreshJobsSum(key, losses + overlap(key));
  }

  /** In every run with at most `losses` failed stores of the key, the key gets at most one job. */
  ghost predicate AtMostOneJob(overlap: string -> nat, key: string, losses: nat) {
    forall steps: seq<Step> {:trigger Reach(overlap, steps)} ::
      Sum(Reach(overlap, steps).requests, StoreLost(key)) <= losses ==> JobsFor(Reach(overlap, steps), key) <= 1
  }

  /**
   The documented promise of no second execution holds for a key exactly when
   its own requests do not overlap and it loses no store, whatever the
   requests of other keys do.
   */
  lemma AtMostOneJobIff(overlap: string -> nat, key: string, losses: nat)
    requires 1 <= overlap(key)
    ensures AtMostOneJob(overlap, key, losses) <==> overlap(key) == 1 && losses == 0
  {
    if overlap(key) == 1 && losses == 0 {
      forall steps: seq<Step> | Sum(Reach(overlap, steps).requests, StoreLost(key)) <= losses
        ensures JobsFor(Reach(overlap, steps), key) <= 1
      {
        JobBound(overlap, steps, key);
      }
    } else {
      var steps := JobBoundIsReached(overlap, key, losses);
      assert JobsFor(Reach(overlap, steps), key) > 1;
    }
  }

  // ----- the worker: at most one call per job

  /** What a job's row says about the calls made for it. */
  predicate JobSound(j: Job) {
    && j.calls <= 1
    && (j.calls == 0 ==> j.outcome == None)
    && (j.status.Pending? ==> j.calls == 0)
    && (j.status.Completed? ==> j.outcome.Some? && j.txHash == j.outcome)
    && (!j.status.Completed? ==> j.txHash == None)
  }

  predicate AllPending(jobs: seq<Job>, ids: seq<nat>) {
    forall i :: 0 <= i < |ids| ==> ids[i] < |jobs| && jobs[ids[i]].status.Pending?
  }

  predicate WorkerSound(s: State) {
    && (forall j :: 0 <= j < |s.jobs| ==> JobSound(s.jobs[j]))
    && match s.worker
       case Idle => true
       case Picking(rest) => Ascending(rest) && AllPending(s.jobs, rest)
       case Marked(id, rest) =>
         && Ascending([id] + rest) && AllPending(s.jobs, rest)
         && id < |s.jobs| && s.jobs[id].status.Processing? && s.jobs[id].calls == 0
       case Succeeded(id, hash, rest) =>
         && Ascending([id] + rest) && AllPending(s.jobs, rest)
         && id < |s.jobs| && s.jobs[id].status.Processing? && s.jobs[id].calls == 1 && s.jobs[id].outcome == Some(hash)
       case Catching(id, rest) =>
         && Ascending([id] + rest) && AllPending(s.jobs, rest)
         && id < |s.jobs| && (s.jobs[id].status.Pending? || s.jobs[id].status.Processing?)
  }

  lemma RestIsElsewhere(id: nat, rest: seq<nat>)
    requires Ascending([id] + rest)
    ensures Ascending(rest) && forall i :: 0 <= i < |rest| ==> rest[i] != id
  {
    var all := [id] + rest;
    forall i, j | 0 <= i < j < |rest| ensures rest[i] < rest[j] {
      assert all[i + 1] < all[j + 1];
    }
    forall i | 0 <= i < |rest| ensures rest[i] != id {
      assert all[0] < all[i + 1];
    }
  }

  /** Requests only add fresh rows at the end. */
  lemma GrowthIsSound(s: State, h: State)
    requires WorkerSound(s) && h.worker == s.worker && s.jobs <= h.jobs
    requires forall j :: |s.jobs| <= j < |h.jobs| ==> JobSound(h.jobs[j])
    ensures WorkerSound(h)
  {
    forall j | 0 <= j < |h.jobs| ensures JobSound(h.jobs[j]) {
      if j < |s.jobs| {
        assert h.jobs[j] == s.jobs[j];
      }
    }
  }

  /** A write to the job at work leaves the rest of the batch as it was. */
  lemma WriteIsSound(s: State, id: nat, rest: seq<nat>, job: Job)
    requires WorkerSound(s) && id < |s.jobs| && Ascending([id] + rest) && AllPending(s.jobs, rest) && JobSound(job)
    ensures var jobs := s.jobs[id := job];
            && (forall j :: 0 <= j < |jobs| ==> JobSound(jobs[j]))
            && AllPending(jobs, rest) && Ascending(rest)
  {
    RestIsElsewhere(id, rest);
  }

  lemma MarkIsSound(overlap: string -> nat, s: State, ok: bool)
    requires WorkerSound(s) && Enabled(overlap, s, MarkProcessing(ok))
    ensures WorkerSound(Effect(overlap, s, MarkProcessing(ok)))
  {
    var id, rest := s.worker.rest[0], s.worker.rest[1..];
    assert s.worker.rest == [id] + rest;
    assert forall i :: 0 <= i < |rest| ==> rest[i] == s.worker.rest[i + 1];
    WriteIsSound(s, id, rest, s.jobs[id].(status := Processing));
  }

  lemma WorkerSoundStep(overlap: string -> nat, s: State, st: Step)
    requires WorkerSound(s)
    ensures WorkerSound(Next(overlap, s, st))
  {
    if Enabled(overlap, s, st) {
      var h, w := Effect(overlap, s, st), s.worker;
      match st {
        case StartPoll => BatchIsPending(s.jobs);
        case MarkProcessing(ok) => MarkIsSound(overlap, s, ok);
        case Execute(exec) => WriteIsSound(s, w.id, w.rest, h.jobs[w.id]);
        case MarkCompleted(ok) => WriteIsSound(s, w.id, w.rest, h.jobs[w.id]);
        case MarkFailed(ok) => WriteIsSound(s, w.id, w.rest, h.jobs[w.id]);
        case EndPoll =>
        case Crash =>
        case _ => GrowthIsSound(s, h);
      }
    }
  }

  lemma BatchIsPending(jobs: seq<Job>)
    ensures Ascending(Batch(jobs)) && AllPending(jobs, Batch(jobs))
  {
    PendingIdsAreThePendingRows(jobs);
    forall i | 0 <= i < |Batch(jobs)| ensures jobs[Batch(jobs)[i]].status.Pending? {
      assert Batch(jobs)[i] in PendingIds(jobs);
    }
  }

  /**
   At most once: for every pattern of failing updates, results of the adapter,
   crashes and restarts, the adapter is called at most once per job; a pending
   job was never called for, and a completed one carries the hash of its call.
   */
  lemma {:induction false} ExecutedAtMostOnce(overlap: string -> nat, steps: seq<Step>)
    ensures WorkerSound(Reach(overlap, steps))
  {
    if steps == [] {
    } else {
      ExecutedAtMostOnce(overlap, Init(steps));
      WorkerSoundStep(overlap, Reach(overlap, Init(steps)), Last(steps));
    }
  }

  /** No run of steps in which the update to completed fails. */
  predicate NoLostCompletion(steps: seq<Step>) { forall i :: 0 <= i < |steps| ==> steps[i] != MarkCompleted(false) }

  /** A row that ended failed belongs to a job whose call did not succeed. */
  predicate FailedMeansNotSent(s: State) {
    && (forall j :: 0 <= j < |s.jobs| && s.jobs[j].status.Failed? ==> s.jobs[j].outcome == None)
    && (s.worker.Catching? && s.worker.id < |s.jobs| ==> s.jobs[s.worker.id].outcome == None)
  }

  lemma FailedMeansNotSentStep(overlap: string -> nat, s: State, st: Step)
    requires WorkerSound(s) && FailedMeansNotSent(s) && st != MarkCompleted(false)
    ensures FailedMeansNotSent(Next(overlap, s, st))
  {
  }

  lemma {:induction false} NothingLostNothingMislabelled(overlap: string -> nat, steps: seq<Step>)
    requires NoLostCompletion(steps)
    ensures FailedMeansNotSent(Reach(overlap, steps))
  {
    if steps == [] {
    } else {
      NothingLostNothingMislabelled(overlap, Init(steps));
      ExecutedAtMostOnce(overlap, Init(steps));
      assert Last(steps) == steps[|steps| - 1];
      FailedMeansNotSentStep(overlap, Reach(overlap, Init(steps)), Last(steps));
    }
  }

  /** Failed rows can be trusted in every run; `lossy` allows the update to completed to fail. */
  ghost predicate FailedIsTrue(overlap: string -> nat, lossy: bool) {
    forall steps: seq<Step> :: lossy || NoLostCompletion(steps) ==> FailedMeansNotSent(Reach(overlap, steps))
  }

  /** A row can end failed although its transaction was sent exactly when the update to completed can fail. */
  lemma FailedIsTrueIff(overlap: string -> nat, key: string, lossy: bool)
    requires 1 <= overlap(key)
    ensures FailedIsTrue(overlap, lossy) <==> !lossy
  {
    if lossy {
      var steps := RunToShape(overlap, key, 0, 1);
      var s, a := ShapeState(key, 0, 1), Attempt(true, Some("0x1"), false, true);
      var script := seq(TAKE, _ => a);
      var poll := [StartPoll] + BatchSteps(script) + [EndPoll];
      PollIsWorkerRun(overlap, s, script);
      ExecAppend(overlap, START, steps, poll);
      SentButFailed(s.jobs, script);
      assert Reach(overlap, steps + poll).jobs[0].status.Failed?;
      assert !FailedMeansNotSent(Reach(overlap, steps + poll));
    } else {
      forall steps: seq<Step> | NoLostCompletion(steps) ensures FailedMeansNotSent(Reach(overlap, steps)) {
        NothingLostNothingMislabelled(overlap, steps);
      }
    }
  }

  /** One poll over one job whose call succeeds and whose update to completed fails. */
  lemma SentButFailed(jobs: seq<Job>, script: seq<Attempt>)
    requires |jobs| == 1 && Untouched(jobs[0]) && |script| == TAKE
    requires script[0] == Attempt(true, Some("0x1"), false, true)
    ensures Poll(jobs, script)[0].status.Failed? && Poll(jobs, script)[0].outcome == Some("0x1")
  {
    assert Init(jobs) == [] && PendingIds(jobs) == [0] && Batch(jobs) == [0];
    var (job, threw) := Process(jobs[0], script[0]);
    OutcomeOfAttempt(jobs[0], script[0]);
    assert [0][1..] == [];
    assert ProcessAll(jobs, [0], script) == ProcessAll(jobs[0 := job], [], script[1..]);
  }

  /** How a row may change: towards its end, and never again once there. */
  predicate Progress(old_: Job, new_: Job) {
    && new_.key == old_.key
    && old_.calls <= new_.calls
    && (new_.status.Pending? ==> new_ == old_)
    && (old_.status.Completed? || old_.status.Failed? ==> new_ == old_)
  }

  lemma ProgressStep(overlap: string -> nat, s: State, st: Step)
    requires WorkerSound(s)
    ensures var h := Next(overlap, s, st);
            |s.jobs| <= |h.jobs| && forall j :: 0 <= j < |s.jobs| ==> Progress(s.jobs[j], h.jobs[j])
  {
  }

  /** No job returns to pending; completed and failed rows never change, in any continuation. */
  lemma {:induction false} JobsOnlyProgress(overlap: string -> nat, steps: seq<Step>, more: seq<Step>)
    ensures var (s, h) := (Reach(overlap, steps), Exec(overlap, Reach(overlap, steps), more));
            && WorkerSound(h)
            && |s.jobs| <= |h.jobs| && forall j :: 0 <= j < |s.jobs| ==> Progress(s.jobs[j], h.jobs[j])
    decreases |more|
  {
    ExecutedAtMostOnce(overlap, steps);
    if more == [] {
    } else {
      JobsOnlyProgress(overlap, steps, Init(more));
      var h := Exec(overlap, Reach(overlap, steps), Init(more));
      ProgressStep(overlap, h, Last(more));
      WorkerSoundStep(overlap, h, Last(more));
    }
  }

  /** The worker is at work on the row. */
  predicate InHand(w: Worker, j: nat) { (w.Marked? || w.Succeeded? || w.Catching?) && w.id == j }

  /** A row that is no longer pending and that the worker is not at work on. */
  predicate LetGo(s: State, j: nat) { j < |s.jobs| && !s.jobs[j].status.Pending? && !InHand(s.worker, j) }

  lemma LetGoStep(overlap: string -> nat, s: State, st: Step, j: nat)
    requires WorkerSound(s) && LetGo(s, j)
    ensures LetGo(Next(overlap, s, st), j) && Next(overlap, s, st).jobs[j] == s.jobs[j]
  {
  }

  /**
   What the worker has let go of is never picked up again: a row left
   processing by a crash, or by a failed update in the catch block, stays as
   it is in every continuation, just as a completed or a failed one.
   */
  lemma {:induction false} LetGoStays(overlap: string -> nat, steps: seq<Step>, more: seq<Step>, j: nat)
    requires LetGo(Reach(overlap, steps), j)
    ensures var (s, h) := (Reach(overlap, steps), Exec(overlap, Reach(overlap, steps), more));
            LetGo(h, j) && h.jobs[j] == s.jobs[j]
    decreases |more|
  {
    if more == [] {
    } else {
      LetGoStays(overlap, steps, Init(more), j);
      JobsOnlyProgress(overlap, steps, Init(more));
      LetGoStep(overlap, Exec(overlap, Reach(overlap, steps), Init(more)), Last(more), j);
    }
  }

  lemma OneJobBatch(jobs: seq<Job>)
    requires |jobs| == 1 && jobs[0].status.Pending?
    ensures Batch(jobs) == [0]
  {
    assert Init(jobs) == [] && PendingIds(jobs) == [0];
  }

  lemma StopAfterMarking(overlap: string -> nat, s: State)
    requires s.worker.Idle? && |s.jobs| == 1 && s.jobs[0].status.Pending?
    ensures var h := Next(overlap, Next(overlap, Next(overlap, s, StartPoll), MarkProcessing(true)), Crash);
            |h.jobs| == 1 && h.jobs[0].status.Processing? && h.worker.Idle?
  {
    OneJobBatch(s.jobs);
    var polling := s.(worker := Picking([0]));
    assert Next(overlap, s, StartPoll) == polling;
    MarkStep(overlap, polling, true);
  }

  /** Rows are left processing by some runs: the worker may stop after marking one. */
  lemma SomeRunStrandsARow(overlap: string -> nat, key: string) returns (steps: seq<Step>)
    requires 1 <= overlap(key)
    ensures var s := Reach(overlap, steps);
            LetGo(s, 0) && s.jobs[0].status.Processing? && s.worker.Idle?
  {
    var before := RunToShape(overlap, key, 0, 1);
    StopAfterMarking(overlap, ShapeState(key, 0, 1));
    ExecStep(overlap, START, before, StartPoll);
    ExecStep(overlap, START, before + [StartPoll], MarkProcessing(true));
    ExecStep(overlap, START, before + [StartPoll] + [MarkProcessing(true)], Crash);
    steps := before + [StartPoll] + [MarkProcessing(true)] + [Crash];
  }

  /** The step calls the adapter for a job of the key. */
  predicate Calls(overlap: string -> nat, s: State, st: Step, key: string) {
    Enabled(overlap, s, st) && st.Execute? && s.jobs[s.worker.id].key == key
  }

  lemma CallsMove(overlap: string -> nat, s: State, st: Step, key: string)
    ensures CallsFor(Next(overlap, s, st), key) == CallsFor(s, key) + if Calls(overlap, s, st, key) then 1 else 0
  {
    var h := Next(overlap, s, st);
    if Enabled(overlap, s, st) && st.Enqueue? {
      SumAppend(s.jobs, CallsOf(key), NewJob(s.requests[st.i].key));
    } else if h.jobs != s.jobs {
      var id := Target(s.worker).value;
      SumUpdate(s.jobs, CallsOf(key), id, h.jobs[id]);
    }
  }

  /** How many steps of a run call the adapter for a job of the key. */
  function CallsMade(overlap: string -> nat, steps: seq<Step>, key: string): nat {
    if steps == [] then 0
    else
      CallsMade(overlap, Init(steps), key)
      + if Calls(overlap, Reach(overlap, Init(steps)), Last(steps), key) then 1 else 0
  }

  /** The calls recorded beside the rows of a key are the calls its run made. */
  lemma {:induction false} CallsAreRecorded(overlap: string -> nat, steps: seq<Step>, key: string)
    ensures CallsFor(Reach(overlap, steps), key) == CallsMade(overlap, steps, key)
  {
    if steps == [] {
    } else {
      CallsAreRecorded(overlap, Init(steps), key);
      CallsMove(overlap, Reach(overlap, Init(steps)), Last(steps), key);
    }
  }

  /**
   From key to chain: the adapter is called for a key at most as often as its
   requests may overlap plus the stores it lost.
   */
  lemma CallsPerKeyBound(overlap: string -> nat, steps: seq<Step>, key: string)
    ensures var s := Reach(overlap, steps);
            && CallsFor(s, key) <= overlap(key) + Sum(s.requests, StoreLost(key))
            && CallsMade(overlap, steps, key) <= overlap(key) + Sum(s.requests, StoreLost(key))
  {
    CallsAreRecorded(overlap, steps, key);
    ExecutedAtMostOnce(overlap, steps);
    SumAtMost(Reach(overlap, steps).jobs, CallsOf(key), JobOf(key), 1);
    JobBound(overlap, steps, key);
  }

  // ----- what responses name

  predicate NamesJob(s: State, key: string, tx: nat) { tx < |s.jobs| && s.jobs[tx].key == key }

  predicate RequestNamesJob(s: State, r: Request) {
    match r.pc
    case Enqueued(tx) => NamesJob(s, r.key, tx)
    case Stored(tx) => NamesJob(s, r.key, tx)
    case StoreFailed(tx) => NamesJob(s, r.key, tx)
    case Replied(response) => NamesJob(s, r.key, response.transactionId)
    case Replayed(response) => NamesJob(s, r.key, response.transactionId)
    case _ => true
  }

  predicate ResponsesNameJobs(s: State) {
    && (forall i :: 0 <= i < |s.requests| ==> RequestNamesJob(s, s.requests[i]))
    && (forall key :: key in s.records ==>
          s.records[key].completed && NamesJob(s, key, s.records[key].response.transactionId))
  }

  lemma NamesStay(overlap: string -> nat, s: State, st: Step, key: string, tx: nat)
    requires NamesJob(s, key, tx)
    ensures NamesJob(Next(overlap, s, st), key, tx)
  {
  }

  lemma RequestNamesStay(overlap: string -> nat, s: State, st: Step, r: Request)
    requires RequestNamesJob(s, r)
    ensures RequestNamesJob(Next(overlap, s, st), r)
  {
  }

  /** The request that moved names a job if it named one before, was given one, or took it from a record. */
  lemma MoverNamesJob(overlap: string -> nat, s: State, st: Step)
    requires ResponsesNameJobs(s) && Enabled(overlap, s, st) && Mover(st).Some?
    ensures var h := Effect(overlap, s, st);
            Mover(st).value < |h.requests| && RequestNamesJob(h, h.requests[Mover(st).value])
  {
  }

  lemma ResponsesNameJobsStep(overlap: string -> nat, s: State, st: Step)
    requires ResponsesNameJobs(s)
    ensures ResponsesNameJobs(Next(overlap, s, st))
  {
    if Enabled(overlap, s, st) {
      var h := Effect(overlap, s, st);
      forall i: nat | i < |h.requests| ensures RequestNamesJob(h, h.requests[i]) {
        if Mover(st) == Some(i) {
          MoverNamesJob(overlap, s, st);
        } else if i < |s.requests| {
          RequestNamesStay(overlap, s, st, s.requests[i]);
        }
      }
      forall key | key in h.records
        ensures h.records[key].completed && NamesJob(h, key, h.records[key].response.transactionId)
      {
        if st.Store? && s.requests[st.i].key == key {
          assert RequestNamesJob(s, s.requests[st.i]);
        } else {
          NamesStay(overlap, s, st, key, s.records[key].response.transactionId);
        }
      }
    }
  }

  /** Referential safety: every stored, given or replayed response names a job of the same key in the queue table. */
  lemma {:induction false} ResponsesAlwaysNameJobs(overlap: string -> nat, steps: seq<Step>)
    ensures ResponsesNameJobs(Reach(overlap, steps))
  {
    if steps == [] {
    } else {
      ResponsesAlwaysNameJobs(overlap, Init(steps));
      ResponsesNameJobsStep(overlap, Reach(overlap, Init(steps)), Last(steps));
    }
  }

  lemma OneJobOneName(s: State, key: string, a: nat, b: nat)
    requires NamesJob(s, key, a) && NamesJob(s, key, b) && JobsFor(s, key) <= 1
    ensures a == b
  {
    if a != b {
      TwoJobs(s.jobs, key, a, b);
    }
  }

  lemma TwoJobs(jobs: seq<Job>, key: string, a: nat, b: nat)
    requires a < |jobs| && b < |jobs| && a != b && jobs[a].key == key && jobs[b].key == key
    ensures Sum(jobs, JobOf(key)) >= 2
  {
    var other := jobs[a].(key := key + "'");
    assert |other.key| != |key|;
    SumUpdate(jobs, JobOf(key), a, other);
    SumNonnegative(jobs[a := other], JobOf(key));
    assert JobOf(key)(jobs[a := other][b]) <= Sum(jobs[a := other], JobOf(key));
  }

  function Answer(r: Request): Option<Response> {
    match r.pc
    case Replied(response) => Some(response)
    case Replayed(response) => Some(response)
    case _ => None
  }

  /**
   When the requests of a key do not overlap and none of its stores is lost,
   all successful replies for it name one and the same job, the only one the
   key ever gets.  Requests of other keys may overlap and fail as they like.
   */
  lemma SerialRepliesAgree(overlap: string -> nat, steps: seq<Step>, key: string, i: nat, j: nat)
    requires overlap(key) == 1
    requires var s := Reach(overlap, steps);
             && Sum(s.requests, StoreLost(key)) == 0
             && i < |s.requests| && s.requests[i].key == key && Answer(s.requests[i]).Some?
             && j < |s.requests| && s.requests[j].key == key && Answer(s.requests[j]).Some?
    ensures var s := Reach(overlap, steps);
            && JobsFor(s, key) == 1
            && Answer(s.requests[i]).value.transactionId == Answer(s.requests[j]).value.transactionId
  {
    var s := Reach(overlap, steps);
    JobBound(overlap, steps, key);
    ResponsesAlwaysNameJobs(overlap, steps);
    assert RequestNamesJob(s, s.requests[i]) && RequestNamesJob(s, s.requests[j]);
    var tx := Answer(s.requests[i]).value.transactionId;
    OneJobOneName(s, key, tx, Answer(s.requests[j]).value.transactionId);
    SumNonnegative(s.jobs, JobOf(key));
    assert JobOf(key)(s.jobs[tx]) <= JobsFor(s, key);
  }

  // ----- stability

  /** The key has a completed record and no request past the check that could still store. */
  predicate Settled(s: State, key: string) {
    && HasCompleted(s, key)
    && forall i :: 0 <= i < |s.requests| && s.requests[i].key == key ==>
         !s.requests[i].pc.Passed? && !s.requests[i].pc.Enqueued?
  }

  /** What a request that arrives from now on can be answered. */
  predicate AnsweredFrom(record: Record, r: Request) {
    r.pc.Arrived? || r.pc.Rejected? || r.pc == Replayed(record.response)
  }

  lemma SettledStep(overlap: string -> nat, s: State, st: Step, key: string)
    requires Settled(s, key) && Enabled(overlap, s, st)
    ensures var h := Effect(overlap, s, st);
            && Settled(h, key) && h.records[key] == s.records[key] && JobsFor(h, key) == JobsFor(s, key)
  {
    RecordsChange(overlap, s, st, key);
    JobsMove(overlap, s, st, key);
  }

  /** A later request goes from the check to the stored answer, or is rejected. */
  lemma AnsweredStep(overlap: string -> nat, s: State, st: Step, key: string, j: nat)
    requires Enabled(overlap, s, st) && HasCompleted(s, key) && j < |Effect(overlap, s, st).requests|
    requires Effect(overlap, s, st).requests[j].key == key
    requires j < |s.requests| ==> s.requests[j].key == key && AnsweredFrom(s.records[key], s.requests[j])
    ensures AnsweredFrom(s.records[key], Effect(overlap, s, st).requests[j])
  {
  }

  lemma KeysStay(overlap: string -> nat, s: State, st: Step)
    requires Enabled(overlap, s, st)
    ensures var h := Effect(overlap, s, st);
            |s.requests| <= |h.requests| && forall j :: 0 <= j < |s.requests| ==> h.requests[j].key == s.requests[j].key
  {
  }

  /**
   Stability: once a key is settled its record never changes, no job is added
   for it, and every later request for it is answered with the stored response.
   */
  lemma {:induction false} SettledStays(overlap: string -> nat, s: State, steps: seq<Step>, key: string)
    requires Settled(s, key)
    ensures var h := Exec(overlap, s, steps);
            && Settled(h, key) && h.records[key] == s.records[key] && JobsFor(h, key) == JobsFor(s, key)
            && |s.requests| <= |h.requests|
            && forall i :: |s.requests| <= i < |h.requests| && h.requests[i].key == key ==>
                 AnsweredFrom(s.records[key], h.requests[i])
    decreases |steps|
  {
    if steps == [] {
    } else {
      SettledStays(overlap, s, Init(steps), key);
      var h, st := Exec(overlap, s, Init(steps)), Last(steps);
      if Enabled(overlap, h, st) {
        var after := Effect(overlap, h, st);
        SettledStep(overlap, h, st, key);
        KeysStay(overlap, h, st);
        forall j: nat | |s.requests| <= j < |after.requests| && after.requests[j].key == key
          ensures AnsweredFrom(s.records[key], after.requests[j])
        {
          AnsweredStep(overlap, h, st, key, j);
        }
      }
    }
  }

  // ----- one poll as a run of worker steps

  function AttemptSteps(a: Attempt): seq<Step> {
    [MarkProcessing(a.markOk), Execute(a.exec), MarkCompleted(a.completeOk), MarkFailed(a.failOk)]
  }

  lemma FourSteps(overlap: string -> nat, s: State, a: Step, b: Step, c: Step, d: Step)
    ensures Exec(overlap, s, [a, b, c, d]) == Next(overlap, Next(overlap, Next(overlap, Next(overlap, s, a), b), c), d)
  {
    ExecStep(overlap, s, [], a);
    ExecStep(overlap, s, [a], b);
    ExecStep(overlap, s, [a, b], c);
    ExecStep(overlap, s, [a, b, c], d);
    assert [a] + [b] == [a, b] && [a, b] + [c] == [a, b, c] && [a, b, c] + [d] == [a, b, c, d];
  }

  /** The state with another row for job `id` and another worker. */
  function AtWork(s: State, id: nat, j: Job, w: Worker): State
    requires id < |s.jobs|
  {
    s.(jobs := s.jobs[id := j], worker := w)
  }

  lemma MarkStep(overlap: string -> nat, s: State, ok: bool)
    requires s.worker.Picking? && s.worker.rest != [] && s.worker.rest[0] < |s.jobs|
    ensures var id, rest := s.worker.rest[0], s.worker.rest[1..];
            Next(overlap, s, MarkProcessing(ok))
            == if ok then AtWork(s, id, s.jobs[id].(status := Processing), Marked(id, rest))
               else AtWork(s, id, s.jobs[id], Catching(id, rest))
  {
    var id := s.worker.rest[0];
    assert s.jobs[id := s.jobs[id]] == s.jobs;
  }

  lemma ExecuteStep(overlap: string -> nat, s: State, id: nat, j: Job, w: Worker, exec: Option<string>)
    requires id < |s.jobs| && (w.Marked? || w.Catching?) && w.id == id
    ensures Next(overlap, AtWork(s, id, j, w), Execute(exec))
         == if w.Catching? then AtWork(s, id, j, w)
            else AtWork(s, id, Called(j, exec),
                        if exec.Some? then Succeeded(id, exec.value, w.rest) else Catching(id, w.rest))
  {
  }

  lemma CompleteStep(overlap: string -> nat, s: State, id: nat, j: Job, w: Worker, ok: bool)
    requires id < |s.jobs| && (w.Succeeded? || w.Catching?) && w.id == id
    ensures Next(overlap, AtWork(s, id, j, w), MarkCompleted(ok))
         == if w.Catching? then AtWork(s, id, j, w)
            else if ok then AtWork(s, id, j.(status := Completed, txHash := Some(w.hash)), Picking(w.rest))
            else AtWork(s, id, j, Catching(id, w.rest))
  {
  }

  lemma FailStep(overlap: string -> nat, s: State, id: nat, j: Job, w: Worker, ok: bool)
    requires id < |s.jobs| && (w.Picking? || (w.Catching? && w.id == id))
    ensures Next(overlap, AtWork(s, id, j, w), MarkFailed(ok))
         == if w.Picking? then AtWork(s, id, j, w)
            else if ok then AtWork(s, id, j.(status := Failed, error := true), Picking(w.rest))
            else AtWork(s, id, j, Idle)
  {
  }

  /** The steps for one job do to its row what processing it does. */
  lemma AttemptIsProcess(overlap: string -> nat, s: State, a: Attempt)
    requires s.worker.Picking? && s.worker.rest != [] && s.worker.rest[0] < |s.jobs|
    ensures var id, rest := s.worker.rest[0], s.worker.rest[1..];
            var (job, threw) := Process(s.jobs[id], a);
            Exec(overlap, s, AttemptSteps(a)) == AtWork(s, id, job, if threw then Idle else Picking(rest))
  {
    var id, rest := s.worker.rest[0], s.worker.rest[1..];
    FourSteps(overlap, s, MarkProcessing(a.markOk), Execute(a.exec), MarkCompleted(a.completeOk), MarkFailed(a.failOk));
    MarkStep(overlap, s, a.markOk);
    var j, w := s.jobs[id], Catching(id, rest);
    if a.markOk {
      j, w := j.(status := Processing), Marked(id, rest);
    }
    ExecuteStep(overlap, s, id, j, w, a.exec);
    if w.Marked? {
      j, w := Called(j, a.exec), if a.exec.Some? then Succeeded(id, a.exec.value, rest) else Catching(id, rest);
    }
    CompleteStep(overlap, s, id, j, w, a.completeOk);
    if w.Succeeded? && a.completeOk {
      j, w := j.(status := Completed, txHash := Some(w.hash)), Picking(rest);
    } else if w.Succeeded? {
      w := Catching(id, rest);
    }
    FailStep(overlap, s, id, j, w, a.failOk);
  }

  function BatchSteps(script: seq<Attempt>): seq<Step> {
    if script == [] then [] else AttemptSteps(script[0]) + BatchSteps(script[1..])
  }

  lemma {:induction false} ExecAppend(overlap: string -> nat, s: State, a: seq<Step>, b: seq<Step>)
    ensures Exec(overlap, s, a + b) == Exec(overlap, Exec(overlap, s, a), b)
    decreases |b|
  {
    if b == [] {
      assert a + b == a;
    } else {
      ExecAppend(overlap, s, a, Init(b));
      assert Init(a + b) == a + Init(b);
    }
  }

  predicate Resting(w: Worker) { w == Idle || w == Picking([]) }

  lemma AttemptIgnored(overlap: string -> nat, s: State, a: Attempt)
    requires Resting(s.worker)
    ensures Exec(overlap, s, AttemptSteps(a)) == s
  {
    FourSteps(overlap, s, MarkProcessing(a.markOk), Execute(a.exec), MarkCompleted(a.completeOk), MarkFailed(a.failOk));
  }

  /** Once the batch is over, or was given up, the remaining steps of a poll do nothing. */
  lemma {:induction false} RestingIgnores(overlap: string -> nat, s: State, script: seq<Attempt>)
    requires Resting(s.worker)
    ensures Exec(overlap, s, BatchSteps(script)) == s
    decreases |script|
  {
    if script == [] {
    } else {
      var a := script[0];
      AttemptIgnored(overlap, s, a);
      ExecAppend(overlap, s, AttemptSteps(a), BatchSteps(script[1..]));
      RestingIgnores(overlap, s, script[1..]);
    }
  }

  lemma {:induction false} BatchIsProcessAll(overlap: string -> nat, s: State, script: seq<Attempt>)
    requires s.worker.Picking? && InTable(s.jobs, s.worker.rest) && |s.worker.rest| <= |script|
    ensures var h := Exec(overlap, s, BatchSteps(script));
            && h == s.(jobs := ProcessAll(s.jobs, s.worker.rest, script), worker := h.worker)
            && Resting(h.worker)
    decreases |script|
  {
    var ids := s.worker.rest;
    if ids == [] {
      RestingIgnores(overlap, s, script);
    } else {
      var a := script[0];
      var (job, threw) := Process(s.jobs[ids[0]], a);
      AttemptIsProcess(overlap, s, a);
      ExecAppend(overlap, s, AttemptSteps(a), BatchSteps(script[1..]));
      var after := Exec(overlap, s, AttemptSteps(a));
      if threw {
        RestingIgnores(overlap, after, script[1..]);
      } else {
        BatchIsProcessAll(overlap, after, script[1..]);
      }
    }
  }

  lemma PollStarts(overlap: string -> nat, s: State)
    requires s.worker.Idle?
    ensures Exec(overlap, s, [StartPoll]) == s.(worker := Picking(Batch(s.jobs)))
  {
  }

  /** A poll as the worker codes it is a run of the protocol's worker steps, for every pattern of faults. */
  lemma PollIsWorkerRun(overlap: string -> nat, s: State, script: seq<Attempt>)
    requires s.worker.Idle? && |script| == TAKE
    ensures Exec(overlap, s, [StartPoll] + BatchSteps(script) + [EndPoll]) == s.(jobs := Poll(s.jobs, script))
  {
    var started := s.(worker := Picking(Batch(s.jobs)));
    PollStarts(overlap, s);
    ExecAppend(overlap, s, [StartPoll], BatchSteps(script));
    BatchIsProcessAll(overlap, started, script);
    var worked := Exec(overlap, s, [StartPoll] + BatchSteps(script));
    assert worked == started.(jobs := Poll(s.jobs, script), worker := worked.worker);
    ExecStep(overlap, s, [StartPoll] + BatchSteps(script), EndPoll);
    assert Next(overlap, worked, EndPoll) == worked.(worker := Idle);
  }

  // ----- one request served without interference

  datatype Refusal =
    | MissingKey
    | InvalidKey
    | InvalidParams
    | InvalidBody
    | ChainNotFound
    | InvalidTransaction
    | ServerError

  /** The transaction of a request body, as far as it is looked at. */
  datatype Transaction = Transaction(to: string, data: string, value: Option<string>, gasLimit: Option<string>)

  /**
   A request after its idempotency check: the chain in its path, its
   transaction (nothing if the body has none of that form), whether the chain
   is supported, and whether the two writes succeed.
   */
  datatype Circumstances = Circumstances(
    chainId: string,
    body: Option<Transaction>,
    chainKnown: bool,
    enqueueOk: bool,
    storeOk: bool
  ) {
    predicate ParamsValid() { chainId != "" && forall i :: 0 <= i < |chainId| ==> '0' <= chainId[i] <= '9' }

    predicate BodyValid() { body.Some? && body.value.to != "" && body.value.data != "" }

    /** The schema lets a missing value pass; the controller does not. */
    predicate TransactionComplete() { BodyValid() && body.value.value.Some? }

    /** What stops the request before a job is inserted. */
    function Obstacle(): Option<Refusal> {
      if !ParamsValid() then Some(InvalidParams)
      else if !BodyValid() then Some(InvalidBody)
      else if !chainKnown then Some(ChainNotFound)
      else if !TransactionComplete() then Some(InvalidTransaction)
      else if !enqueueOk then Some(ServerError)
      else None
    }
  }

  /** What serving a request alone does to the two tables, and how the request ends. */
  function Serve(records: map<string, Record>, jobs: seq<Job>, id: nat, key: string, hash: string, c: Circumstances)
    : (map<string, Record>, seq<Job>, Pc)
  {
    if key in records && records[key].completed then (records, jobs, Replayed(records[key].response))
    else if c.Obstacle().Some? then (records, jobs, Rejected)
    else
      var response := Response(id, |jobs|);
      if c.storeOk then (records[key := Record(hash, response, true)], jobs + [NewJob(key)], Replied(response))
      else (records, jobs + [NewJob(key)], StoreFailed(|jobs|))
  }

  /** The steps of a request nobody interferes with. */
  function OwnSteps(i: nat, c: Circumstances): seq<Step> {
    if c.Obstacle().Some? then [Check(i), Reject(i)]
    else [Check(i), Enqueue(i), if c.storeOk then Store(i) else FailStore(i), Reply(i)]
  }

  lemma TwoSteps(overlap: string -> nat, s: State, a: Step, b: Step)
    ensures Exec(overlap, s, [a, b]) == Next(overlap, Next(overlap, s, a), b)
  {
    ExecStep(overlap, s, [], a);
    ExecStep(overlap, s, [a], b);
    assert [] + [a] == [a] && [a] + [b] == [a, b];
  }

  lemma MoveTwice(s: State, i: nat, a: Pc, b: Pc)
    requires i < |s.requests|
    ensures Move(Move(s, i, a), i, b) == Move(s, i, b)
  {
  }

  lemma CheckStep(overlap: string -> nat, s: State, i: nat)
    requires i < |s.requests| && s.requests[i].pc.Arrived? && !HasCompleted(s, s.requests[i].key)
    ensures Next(overlap, s, Check(i)) == Move(s, i, Passed)
  {
  }

  lemma EnqueueStep(overlap: string -> nat, s: State, i: nat)
    requires i < |s.requests|
    ensures Next(overlap, Move(s, i, Passed), Enqueue(i))
         == Move(s, i, Enqueued(|s.jobs|)).(jobs := s.jobs + [NewJob(s.requests[i].key)])
  {
    MoveTwice(s, i, Passed, Enqueued(|s.jobs|));
  }

  lemma StoreStep(overlap: string -> nat, s: State, i: nat, tx: nat, ok: bool)
    requires i < |s.requests|
    ensures var r := s.requests[i];
            Next(overlap, Move(s, i, Enqueued(tx)), if ok then Store(i) else FailStore(i))
            == if ok then Move(s, i, Stored(tx)).(records := s.records[r.key := Record(r.hash, Response(i, tx), true)])
               else Move(s, i, StoreFailed(tx))
  {
    MoveTwice(s, i, Enqueued(tx), if ok then Stored(tx) else StoreFailed(tx));
  }

  lemma ReplyStep(overlap: string -> nat, s: State, i: nat, tx: nat, ok: bool)
    requires i < |s.requests|
    ensures Next(overlap, Move(s, i, if ok then Stored(tx) else StoreFailed(tx)), Reply(i))
         == Move(s, i, if ok then Replied(Response(i, tx)) else StoreFailed(tx))
  {
    MoveTwice(s, i, Stored(tx), Replied(Response(i, tx)));
  }

  lemma RefusedInTwoSteps(overlap: string -> nat, s: State, i: nat)
    requires i < |s.requests| && s.requests[i].pc.Arrived? && !HasCompleted(s, s.requests[i].key)
    ensures Exec(overlap, s, [Check(i), Reject(i)]) == Move(s, i, Rejected)
  {
    TwoSteps(overlap, s, Check(i), Reject(i));
    CheckStep(overlap, s, i);
    MoveTwice(s, i, Passed, Rejected);
  }

  lemma ServedInFourSteps(overlap: string -> nat, s: State, i: nat, storeOk: bool)
    requires i < |s.requests| && s.requests[i].pc.Arrived? && !HasCompleted(s, s.requests[i].key)
    ensures var (r, tx) := (s.requests[i], |s.jobs|);
            var jobs := s.jobs + [NewJob(r.key)];
            Exec(overlap, s, [Check(i), Enqueue(i), if storeOk then Store(i) else FailStore(i), Reply(i)])
            == if storeOk
               then Move(s, i, Replied(Response(i, tx)))
                      .(jobs := jobs, records := s.records[r.key := Record(r.hash, Response(i, tx), true)])
               else Move(s, i, StoreFailed(tx)).(jobs := jobs)
  {
    var r, tx := s.requests[i], |s.jobs|;
    FourSteps(overlap, s, Check(i), Enqueue(i), if storeOk then Store(i) else FailStore(i), Reply(i));
    CheckStep(overlap, s, i);
    EnqueueStep(overlap, s, i);
    var t := s.(jobs := s.jobs + [NewJob(r.key)]);
    StoreStep(overlap, t, i, tx, storeOk);
    var u := if storeOk then t.(records := s.records[r.key := Record(r.hash, Response(i, tx), true)]) else t;
    ReplyStep(overlap, u, i, tx, storeOk);
  }

  /** A request that finds a completed record is answered with it; its other steps do nothing. */
  lemma ReplayedInAnySteps(overlap: string -> nat, s: State, i: nat, c: Circumstances)
    requires i < |s.requests| && s.requests[i].pc.Arrived? && HasCompleted(s, s.requests[i].key)
    ensures Exec(overlap, s, OwnSteps(i, c)) == Move(s, i, Replayed(s.records[s.requests[i].key].response))
  {
    var answered := Move(s, i, Replayed(s.records[s.requests[i].key].response));
    if c.Obstacle().Some? {
      TwoSteps(overlap, s, Check(i), Reject(i));
      AnsweredIgnores(overlap, answered, i, Reject(i));
    } else {
      var store := if c.storeOk then Store(i) else FailStore(i);
      FourSteps(overlap, s, Check(i), Enqueue(i), store, Reply(i));
      AnsweredIgnores(overlap, answered, i, Enqueue(i));
      AnsweredIgnores(overlap, answered, i, store);
      AnsweredIgnores(overlap, answered, i, Reply(i));
    }
  }

  lemma AnsweredIgnores(overlap: string -> nat, s: State, i: nat, st: Step)
    requires i < |s.requests| && s.requests[i].pc.Replayed? && Mover(st) == Some(i)
    ensures Next(overlap, s, st) == s
  {
  }

  /** Serving alone is the request's own steps taken in a row. */
  lemma ServeIsItsSteps(overlap: string -> nat, s: State, i: nat, c: Circumstances)
    requires i < |s.requests| && s.requests[i].pc.Arrived?
    ensures var r := s.requests[i];
            var (records, jobs, pc) := Serve(s.records, s.jobs, i, r.key, r.hash, c);
            Exec(overlap, s, OwnSteps(i, c)) == State(s.requests[i := r.(pc := pc)], records, jobs, s.worker)
  {
    if HasCompleted(s, s.requests[i].key) {
      ReplayedInAnySteps(overlap, s, i, c);
    } else if c.Obstacle().Some? {
      RefusedInTwoSteps(overlap, s, i);
    } else {
      ServedInFourSteps(overlap, s, i, c.storeOk);
    }
  }
}
