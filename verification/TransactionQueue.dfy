/**
 The pending_transactions table and the polling worker of
 src/infrastructure/queue.  Rows stand in the order of created_at.  A row also
 records the key of the request that made it and how often, and with which
 result, the blockchain adapter was called for it; the table itself has no
 such columns.
 */
module TransactionQueue {
  import opened Prelude

  datatype Status = Pending | Processing | Completed | Failed

  datatype Job = Job(
    key: string,
    status: Status,
    txHash: Option<string>,
    error: bool,
    calls: nat,
    outcome: Option<string>
  )

  function NewJob(key: string): Job { Job(key, Pending, None, false, 0, None) }

  /** Rows one poll takes at most. */
  const TAKE := 5

  // ----- one job

  /**
   What happens to one job: whether each row update succeeds, and what the
   adapter returns, if it does not throw.
   */
  datatype Attempt = Attempt(markOk: bool, exec: Option<string>, completeOk: bool, failOk: bool) {
    /** Processing does not throw: all goes well, or what fails is at least marked failed. */
    predicate Settles() { failOk || (markOk && exec.Some? && completeOk) }
  }

  function Called(j: Job, exec: Option<string>): Job { j.(calls := j.calls + 1, outcome := exec) }

  /** The catch block; it throws when its own update fails. */
  function Catch(j: Job, failOk: bool): (Job, bool) {
    if failOk then (j.(status := Failed, error := true), false) else (j, true)
  }

  /** The row after processing, and whether processing threw. */
  function Process(j: Job, a: Attempt): (Job, bool) {
    if !a.markOk then Catch(j, a.failOk)
    else
      var called := Called(j.(status := Processing), a.exec);
      if a.exec.None? || !a.completeOk then Catch(called, a.failOk)
      else (called.(status := Completed, txHash := a.exec), false)
  }

  /** The row of a job nothing has happened to yet. */
  predicate Untouched(j: Job) {
    j.status.Pending? && j.txHash == None && !j.error && j.calls == 0 && j.outcome == None
  }

  /**
   How a row ends, exactly, for every pattern of failing updates and results
   of the adapter: completed iff everything up to the last update succeeded;
   failed although the adapter's call succeeded iff the update to completed
   failed and the one to failed did not; left as it stood iff that one
   failed too, and only then does processing throw.
   */
  lemma OutcomeOfAttempt(j: Job, a: Attempt)
    requires Untouched(j)
    ensures var (r, threw) := Process(j, a);
            var sent := a.markOk && a.exec.Some?;
            && (r.status.Completed? <==> sent && a.completeOk)
            && (r.status.Failed? <==> !(sent && a.completeOk) && a.failOk)
            && (r.status.Failed? && r.outcome.Some? <==> sent && !a.completeOk && a.failOk)
            && (r.status.Processing? <==> a.markOk && threw)
            && (r.status.Pending? <==> !a.markOk && threw)
            && (threw <==> !(sent && a.completeOk) && !a.failOk) && (threw <==> !a.Settles())
            && r.key == j.key && r.calls == (if a.markOk then 1 else 0) && (r.error <==> r.status.Failed?)
            && r.outcome == (if a.markOk then a.exec else None)
            && (r.txHash.Some? <==> r.status.Completed?)
            && (r.status.Completed? ==> r.txHash == a.exec)
  {
  }

  // ----- one poll

  /** The pending rows, oldest first. */
  function PendingIds(rows: seq<Job>): (ids: seq<nat>)
    ensures forall i :: 0 <= i < |ids| ==> ids[i] < |rows|
  {
    if rows == [] then []
    else PendingIds(Init(rows)) + if Last(rows).status.Pending? then [|rows| - 1] else []
  }

  function Batch(rows: seq<Job>): (ids: seq<nat>)
    ensures |ids| <= TAKE && forall i :: 0 <= i < |ids| ==> ids[i] < |rows|
  {
    PendingIds(rows)[..Min(TAKE, |PendingIds(rows)|)]
  }

  predicate InTable(rows: seq<Job>, ids: seq<nat>) { forall i :: 0 <= i < |ids| ==> ids[i] < |rows| }

  /** The loop over the batch; a job that throws ends it. */
  function ProcessAll(rows: seq<Job>, ids: seq<nat>, script: seq<Attempt>): (r: seq<Job>)
    requires |ids| <= |script| && InTable(rows, ids)
    ensures |r| == |rows|
    decreases |ids|
  {
    if ids == [] then rows
    else
      var (j, threw) := Process(rows[ids[0]], script[0]);
      var next := rows[ids[0] := j];
      if threw then next else ProcessAll(next, ids[1..], script[1..])
  }

  function Poll(rows: seq<Job>, script: seq<Attempt>): (r: seq<Job>)
    requires |script| == TAKE
    ensures |r| == |rows|
  {
    ProcessAll(rows, Batch(rows), script)
  }

  /** No job of the poll throws; single updates and adapter calls may fail. */
  predicate Clean(script: seq<Attempt>) { forall i :: 0 <= i < |script| ==> script[i].Settles() }

  // ----- the pending list

  predicate Ascending(ids: seq<nat>) { forall i, j :: 0 <= i < j < |ids| ==> ids[i] < ids[j] }

  /** The list holds exactly the pending rows, in order. */
  lemma {:induction false} PendingIdsAreThePendingRows(rows: seq<Job>)
    ensures Ascending(PendingIds(rows))
    ensures forall j: nat :: j in PendingIds(rows) <==> j < |rows| && rows[j].status.Pending?
  {
    if rows == [] {
    } else {
      PendingIdsAreThePendingRows(Init(rows));
    }
  }

  /** A list is determined by its members once it is ascending. */
  lemma {:induction false} AscendingUnique(a: seq<nat>, b: seq<nat>)
    requires Ascending(a) && Ascending(b)
    requires forall x: nat :: x in a <==> x in b
    ensures a == b
    decreases |a|
  {
    if a == [] {
      assert forall i :: 0 <= i < |b| ==> b[i] in b;
    } else {
      assert a[|a| - 1] in b;
      assert b[|b| - 1] in a;
      assert Last(a) == Last(b);
      forall x: nat ensures x in Init(a) <==> x in Init(b) {
        DropLast(a, x);
        DropLast(b, x);
      }
      AscendingUnique(Init(a), Init(b));
      assert a == Init(a) + [Last(a)] && b == Init(b) + [Last(b)];
    }
  }

  lemma DropLast(a: seq<nat>, x: nat)
    requires a != [] && Ascending(a)
    ensures x in Init(a) <==> x in a && x != Last(a)
  {
    if x in a && x != Last(a) {
      var i :| 0 <= i < |a| && a[i] == x;
      assert Init(a)[i] == x;
    }
  }

  /** If none throws the batch leaves pending, job by job, and nothing else changes. */
  lemma {:induction false} CleanBatch(rows: seq<Job>, ids: seq<nat>, script: seq<Attempt>)
    requires |ids| <= |script| && InTable(rows, ids) && Clean(script) && Ascending(ids)
    ensures var r := ProcessAll(rows, ids, script);
            forall j: nat :: j < |rows| ==> if j in ids then !r[j].status.Pending? else r[j] == rows[j]
    decreases |ids|
  {
    if ids == [] {
    } else {
      var (job, _) := Process(rows[ids[0]], script[0]);
      CleanBatch(rows[ids[0] := job], ids[1..], script[1..]);
    }
  }

  /** After a poll in which nothing throws no row of its batch is pending. */
  lemma BatchHasLeft(rows: seq<Job>, script: seq<Attempt>, j: nat)
    requires |script| == TAKE && Clean(script) && j in Batch(rows)
    ensures j !in PendingIds(Poll(rows, script))
  {
    PendingIdsAreThePendingRows(rows);
    PendingIdsAreThePendingRows(Poll(rows, script));
    CleanBatch(rows, Batch(rows), script);
  }

  /** Nor has any other row changed. */
  lemma RestHasStayed(rows: seq<Job>, script: seq<Attempt>, j: nat)
    requires |script| == TAKE && Clean(script) && j !in Batch(rows)
    ensures j in PendingIds(Poll(rows, script)) <==> j in PendingIds(rows)
  {
    PendingIdsAreThePendingRows(rows);
    PendingIdsAreThePendingRows(Poll(rows, script));
    CleanBatch(rows, Batch(rows), script);
  }

  /** An ascending list cut in two: each member is on exactly one side. */
  lemma CutMembers(ids: seq<nat>, n: nat, j: nat)
    requires Ascending(ids) && n <= |ids|
    ensures j in ids <==> j in ids[..n] || j in ids[n..]
    ensures j !in ids[..n] || j !in ids[n..]
  {
    assert ids == ids[..n] + ids[n..];
  }

  lemma AscendingTail(ids: seq<nat>, n: nat)
    requires Ascending(ids) && n <= |ids|
    ensures Ascending(ids[n..])
  {
  }

  /** A poll in which nothing throws takes exactly the oldest pending rows off the list. */
  lemma CleanPollTakesTheOldest(rows: seq<Job>, script: seq<Attempt>)
    requires |script| == TAKE && Clean(script)
    ensures PendingIds(Poll(rows, script)) == PendingIds(rows)[|Batch(rows)|..]
  {
    var ids, n, left := PendingIds(rows), |Batch(rows)|, PendingIds(Poll(rows, script));
    PendingIdsAreThePendingRows(rows);
    PendingIdsAreThePendingRows(Poll(rows, script));
    AscendingTail(ids, n);
    forall j: nat ensures j in left <==> j in ids[n..] {
      CutMembers(ids, n, j);
      if j in Batch(rows) {
        BatchHasLeft(rows, script, j);
      } else {
        RestHasStayed(rows, script, j);
      }
    }
    AscendingUnique(left, ids[n..]);
  }

  lemma {:induction false} ArrivalsGoLast(rows: seq<Job>, more: seq<Job>)
    ensures PendingIds(rows) <= PendingIds(rows + more)
    ensures forall i :: |PendingIds(rows)| <= i < |PendingIds(rows + more)| ==> PendingIds(rows + more)[i] >= |rows|
  {
    if more == [] {
      assert rows + more == rows;
    } else {
      ArrivalsGoLast(rows, Init(more));
      assert Init(rows + more) == rows + Init(more);
    }
  }

  // ----- rows inserted while a poll is at work

  /** The loop over the batch when `arrivals[i]` is inserted just before the i-th job is processed. */
  function ProcessAmid(rows: seq<Job>, ids: seq<nat>, script: seq<Attempt>, arrivals: seq<seq<Job>>): seq<Job>
    requires |ids| <= |script| && |ids| <= |arrivals| && InTable(rows, ids)
    decreases |ids|
  {
    if ids == [] then rows
    else
      var grown := rows + arrivals[0];
      var (j, threw) := Process(grown[ids[0]], script[0]);
      var next := grown[ids[0] := j];
      if threw then next else ProcessAmid(next, ids[1..], script[1..], arrivals[1..])
  }

  /** What was inserted before the loop ended. */
  function Landed(rows: seq<Job>, ids: seq<nat>, script: seq<Attempt>, arrivals: seq<seq<Job>>): seq<Job>
    requires |ids| <= |script| && |ids| <= |arrivals| && InTable(rows, ids)
    decreases |ids|
  {
    if ids == [] then []
    else
      var (j, threw) := Process(rows[ids[0]], script[0]);
      arrivals[0] + if threw then [] else Landed(rows[ids[0] := j], ids[1..], script[1..], arrivals[1..])
  }

  /** Inserting while the loop runs is inserting after it, whatever fails in it. */
  lemma {:induction false} ArrivalsCommute(rows: seq<Job>, before: seq<Job>, ids: seq<nat>, script: seq<Attempt>,
                                           arrivals: seq<seq<Job>>)
    requires |ids| <= |script| && |ids| <= |arrivals| && InTable(rows, ids)
    ensures ProcessAmid(rows + before, ids, script, arrivals)
         == ProcessAll(rows, ids, script) + before + Landed(rows, ids, script, arrivals)
    decreases |ids|
  {
    if ids == [] {
      assert rows + before == rows + before + [];
    } else {
      var (j, threw) := Process(rows[ids[0]], script[0]);
      var next, more := rows[ids[0] := j], before + arrivals[0];
      assert (rows + before + arrivals[0])[ids[0] := j] == next + more;
      if threw {
        assert next + more == next + before + (arrivals[0] + []);
      } else {
        ArrivalsCommute(next, more, ids[1..], script[1..], arrivals[1..]);
        Regroup(ProcessAll(next, ids[1..], script[1..]), before, arrivals[0],
                Landed(next, ids[1..], script[1..], arrivals[1..]));
      }
    }
  }

  lemma Regroup(a: seq<Job>, b: seq<Job>, c: seq<Job>, d: seq<Job>)
    ensures a + (b + c) + d == a + b + (c + d)
  {
  }

  function PollAmid(rows: seq<Job>, script: seq<Attempt>, arrivals: seq<seq<Job>>): seq<Job>
    requires |script| == |arrivals| == TAKE
  {
    ProcessAmid(rows, Batch(rows), script, arrivals)
  }

  /** A poll with insertions at any points of it is the poll and then the insertions. */
  lemma PollAmidIsPollThenInsert(rows: seq<Job>, script: seq<Attempt>, arrivals: seq<seq<Job>>)
    requires |script| == |arrivals| == TAKE
    ensures PollAmid(rows, script, arrivals) == Poll(rows, script) + Landed(rows, Batch(rows), script, arrivals)
  {
    ArrivalsCommute(rows, [], Batch(rows), script, arrivals);
    assert rows + [] == rows && Poll(rows, script) + [] == Poll(rows, script);
  }

  lemma {:induction false} NothingLanded(rows: seq<Job>, ids: seq<nat>, script: seq<Attempt>, arrivals: seq<seq<Job>>)
    requires |ids| <= |script| && |ids| <= |arrivals| && InTable(rows, ids)
    requires forall i :: 0 <= i < |arrivals| ==> arrivals[i] == []
    ensures Landed(rows, ids, script, arrivals) == []
    decreases |ids|
  {
    if ids == [] {
    } else {
      NothingLanded(rows[ids[0] := Process(rows[ids[0]], script[0]).0], ids[1..], script[1..], arrivals[1..]);
    }
  }

  // ----- runs of polls and arrivals

  /** Rows inserted between two polls, or one poll with the rows inserted while it is at work. */
  datatype Event = Insert(jobs: seq<Job>) | PollNow(script: seq<Attempt>, arrivals: seq<seq<Job>>)

  predicate CleanEvent(ev: Event) { ev.PollNow? ==> |ev.script| == |ev.arrivals| == TAKE && Clean(ev.script) }

  predicate CleanRun(evs: seq<Event>) { forall i :: 0 <= i < |evs| ==> CleanEvent(evs[i]) }

  function Apply(rows: seq<Job>, ev: Event): seq<Job>
    requires CleanEvent(ev)
  {
    match ev
    case Insert(jobs) => rows + jobs
    case PollNow(script, arrivals) => PollAmid(rows, script, arrivals)
  }

  function RunEvents(rows: seq<Job>, evs: seq<Event>): seq<Job>
    requires CleanRun(evs)
    decreases |evs|
  {
    if evs == [] then rows else RunEvents(Apply(rows, evs[0]), evs[1..])
  }

  function Polls(evs: seq<Event>): nat {
    if evs == [] then 0 else (if evs[0].PollNow? then 1 else 0) + Polls(evs[1..])
  }

  /** What an event leaves of the pending list. */
  function Left(rows: seq<Job>, ev: Event): seq<nat> {
    if ev.PollNow? then PendingIds(rows)[|Batch(rows)|..] else PendingIds(rows)
  }

  /** An event keeps what it leaves at the front of the list, and adds fresh rows only. */
  lemma AfterEvent(rows: seq<Job>, ev: Event)
    requires CleanEvent(ev)
    ensures |rows| <= |Apply(rows, ev)|
    ensures var after := PendingIds(Apply(rows, ev));
            && Left(rows, ev) <= after
            && forall i :: |Left(rows, ev)| <= i < |after| ==> after[i] >= |rows|
  {
    match ev
    case Insert(jobs) => ArrivalsGoLast(rows, jobs);
    case PollNow(script, arrivals) =>
      PollAmidIsPollThenInsert(rows, script, arrivals);
      CleanPollTakesTheOldest(rows, script);
      ArrivalsGoLast(Poll(rows, script), Landed(rows, Batch(rows), script, arrivals));
  }

  lemma {:induction false} NeverPendingAgain(rows: seq<Job>, evs: seq<Event>, j: nat)
    requires CleanRun(evs) && j < |rows| && j !in PendingIds(rows)
    ensures j < |RunEvents(rows, evs)| && j !in PendingIds(RunEvents(rows, evs))
    decreases |evs|
  {
    if evs == [] {
    } else {
      AfterEvent(rows, evs[0]);
      NeverPendingAgain(Apply(rows, evs[0]), evs[1..], j);
    }
  }

  /** A poll takes the first five off the list and moves everyone else five places up. */
  lemma PositionAfterPoll(rows: seq<Job>, ev: Event, p: nat)
    requires CleanEvent(ev) && ev.PollNow? && p < |PendingIds(rows)|
    ensures var (ids, after) := (PendingIds(rows), PendingIds(Apply(rows, ev)));
            if p < TAKE then ids[p] !in after else p - TAKE < |after| && after[p - TAKE] == ids[p]
  {
    PendingIdsAreThePendingRows(rows);
    AfterEvent(rows, ev);
    PositionAfterDrop(PendingIds(rows), |Batch(rows)|, p);
  }

  lemma PositionAfterDrop(ids: seq<nat>, n: nat, p: nat)
    requires Ascending(ids) && p < |ids| && n == Min(TAKE, |ids|)
    ensures if p < TAKE then ids[p] !in ids[n..] else p - TAKE < |ids[n..]| && ids[n..][p - TAKE] == ids[p]
  {
  }

  /**
   First in, first out, with an exact bound: a job with p older pending jobs
   is still pending after k polls if and only if 5k <= p, whatever arrives
   between the polls or while one is at work.
   */
  lemma {:induction false} PendingAfterPolls(rows: seq<Job>, evs: seq<Event>, j: nat, p: nat)
    requires CleanRun(evs) && p < |PendingIds(rows)| && PendingIds(rows)[p] == j
    ensures j in PendingIds(RunEvents(rows, evs)) <==> 5 * Polls(evs) <= p
    decreases |evs|
  {
    if evs == [] {
    } else {
      var next := Apply(rows, evs[0]);
      AfterEvent(rows, evs[0]);
      if evs[0].Insert? {
        PendingAfterPolls(next, evs[1..], j, p);
      } else {
        PositionAfterPoll(rows, evs[0], p);
        if p < TAKE {
          NeverPendingAgain(next, evs[1..], j);
        } else {
          PendingAfterPolls(next, evs[1..], j, p - TAKE);
        }
      }
    }
  }

  /** Hence: by poll number floor(p/5)+1 the job has left pending. */
  lemma LeavesPendingInTime(rows: seq<Job>, evs: seq<Event>, j: nat, p: nat)
    requires CleanRun(evs) && p < |PendingIds(rows)| && PendingIds(rows)[p] == j
    requires Polls(evs) >= p / 5 + 1
    ensures j !in PendingIds(RunEvents(rows, evs))
  {
    PendingAfterPolls(rows, evs, j, p);
  }

  /** What k polls leave of a list of pending rows. */
  function AfterTaking(ids: seq<nat>, k: nat): seq<nat> { ids[Min(5 * k, |ids|)..] }

  lemma TakeOnceMore(ids: seq<nat>, k: nat)
    ensures AfterTaking(AfterTaking(ids, 1), k) == AfterTaking(ids, k + 1)
  {
  }

  /** Polls during which nothing arrives. */
  predicate OnlyPolls(evs: seq<Event>) {
    forall i :: 0 <= i < |evs| ==> evs[i].PollNow? && NoArrivals(evs[i].arrivals)
  }

  predicate NoArrivals(arrivals: seq<seq<Job>>) { forall i :: 0 <= i < |arrivals| ==> arrivals[i] == [] }

  lemma QuietPoll(rows: seq<Job>, ev: Event)
    requires CleanEvent(ev) && ev.PollNow? && NoArrivals(ev.arrivals)
    ensures PendingIds(Apply(rows, ev)) == AfterTaking(PendingIds(rows), 1)
  {
    PollAmidIsPollThenInsert(rows, ev.script, ev.arrivals);
    NothingLanded(rows, Batch(rows), ev.script, ev.arrivals);
    assert Apply(rows, ev) == Poll(rows, ev.script);
    CleanPollTakesTheOldest(rows, ev.script);
  }

  /** Without arrivals, k polls drain min(5k, pending) jobs, the oldest ones. */
  lemma {:induction false} PollsDrain(rows: seq<Job>, evs: seq<Event>, k: nat)
    requires CleanRun(evs) && OnlyPolls(evs) && |evs| == k
    ensures PendingIds(RunEvents(rows, evs)) == PendingIds(rows)[Min(5 * k, |PendingIds(rows)|)..]
    decreases k
  {
    if k == 0 {
    } else {
      QuietPoll(rows, evs[0]);
      PollsDrain(Apply(rows, evs[0]), evs[1..], k - 1);
      TakeOnceMore(PendingIds(rows), k - 1);
    }
  }

  /** The jobs a run processes, in the order it processes them. */
  function Processed(rows: seq<Job>, evs: seq<Event>): seq<nat>
    requires CleanRun(evs)
    decreases |evs|
  {
    if evs == [] then []
    else (if evs[0].PollNow? then Batch(rows) else []) + Processed(Apply(rows, evs[0]), evs[1..])
  }

  lemma {:induction false} ProcessedWasPending(rows: seq<Job>, evs: seq<Event>, j: nat)
    requires CleanRun(evs) && j in Processed(rows, evs)
    ensures j in PendingIds(rows) || j >= |rows|
    decreases |evs|
  {
    if evs[0].PollNow? && j in Batch(rows) {
    } else {
      ProcessedWasPending(Apply(rows, evs[0]), evs[1..], j);
      AfterEvent(rows, evs[0]);
    }
  }

  lemma AscendingConcat(a: seq<nat>, b: seq<nat>)
    requires Ascending(a) && Ascending(b)
    requires forall i, j :: 0 <= i < |a| && 0 <= j < |b| ==> a[i] < b[j]
    ensures Ascending(a + b)
  {
  }

  /** Everyone a poll leaves or meanwhile receives comes after its batch. */
  lemma BatchComesFirst(rows: seq<Job>, ev: Event, i: nat, j: nat)
    requires CleanEvent(ev) && ev.PollNow? && i < |Batch(rows)|
    requires j in PendingIds(Apply(rows, ev)) || j >= |Apply(rows, ev)|
    ensures Batch(rows)[i] < j
  {
    PendingIdsAreThePendingRows(rows);
    AfterEvent(rows, ev);
    var ids, n, after := PendingIds(rows), |Batch(rows)|, PendingIds(Apply(rows, ev));
    if j < |rows| {
      var k :| 0 <= k < |after| && after[k] == j;
      assert after[k] == ids[n..][k];
      assert ids[i] < ids[n + k];
    }
  }

  /** Jobs are processed in the order of created_at over the whole run, and none twice. */
  lemma {:induction false} ProcessedInCreationOrder(rows: seq<Job>, evs: seq<Event>)
    requires CleanRun(evs)
    ensures Ascending(Processed(rows, evs))
    decreases |evs|
  {
    if evs == [] {
    } else {
      var later := Processed(Apply(rows, evs[0]), evs[1..]);
      ProcessedInCreationOrder(Apply(rows, evs[0]), evs[1..]);
      if evs[0].PollNow? {
        PendingIdsAreThePendingRows(rows);
        forall i, j | 0 <= i < |Batch(rows)| && 0 <= j < |later| ensures Batch(rows)[i] < later[j] {
          ProcessedWasPending(Apply(rows, evs[0]), evs[1..], later[j]);
          BatchComesFirst(rows, evs[0], i, later[j]);
        }
        AscendingConcat(Batch(rows), later);
      } else {
        assert [] + later == later;
      }
    }
  }

  // ----- the table and the worker as they run

  class JobTable {
    var rows: seq<Job>

    constructor ()
      ensures rows == []
    {
      rows := [];
    }

    /** Inserts a pending row and returns its identity. */
    method EnqueueTransactionJob(key: string) returns (id: nat)
      modifies this
      ensures id == |old(rows)| && rows == old(rows) + [NewJob(key)]
    {
      id := |rows|;
      rows := rows + [NewJob(key)];
    }

    method CatchBlock(id: nat, failOk: bool) returns (threw: bool)
      requires id < |rows|
      modifies this
      ensures var (j, t) := Catch(old(rows)[id], failOk);
              rows == old(rows)[id := j] && threw == t
    {
      if failOk {
        rows := rows[id := rows[id].(status := Failed, error := true)];
      }
      return !failOk;
    }

    method ProcessJob(id: nat, a: Attempt) returns (threw: bool)
      requires id < |rows|
      modifies this
      ensures var (j, t) := Process(old(rows)[id], a);
              rows == old(rows)[id := j] && threw == t
    {
      if !a.markOk {
        threw := CatchBlock(id, a.failOk);
        return;
      }
      rows := rows[id := rows[id].(status := Processing)];
      rows := rows[id := Called(rows[id], a.exec)];
      if a.exec.None? || !a.completeOk {
        threw := CatchBlock(id, a.failOk);
        return;
      }
      rows := rows[id := rows[id].(status := Completed, txHash := a.exec)];
      return false;
    }

    /** Fetches a batch and processes it in order; an exception ends the poll. */
    method PollOnce(script: seq<Attempt>)
      requires |script| == TAKE
      modifies this
      ensures rows == Poll(old(rows), script)
    {
      var ids := Batch(rows);
      var i := 0;
      while i < |ids|
        invariant i <= |ids| && |rows| == |old(rows)|
        invariant InTable(rows, ids)
        invariant ProcessAll(rows, ids[i..], script[i..]) == Poll(old(rows), script)
      {
        assert ids[i..][1..] == ids[i + 1..] && script[i..][1..] == script[i + 1..];
        var threw := ProcessJob(ids[i], script[i]);
        if threw {
          return;
        }
        i := i + 1;
      }
    }
  }
}
