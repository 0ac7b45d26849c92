/**
 The same ledger when calls overlap.  Each call of src/services/quotaService.ts
 runs in a transaction at the database's default isolation: it reads committed
 rows, decides, locks the row for an atomic increment, and commits; any of
 these steps of different calls may interleave, and a call may abort.

 An environment bounds, for each key on its own, how many of its calls overlap,
 what they cost and how large the daily limits they meet are.  Calls without a
 key are not bounded at all.  Purchases are single statements outside any
 transaction: they may happen at any time, and any number of them.
 */
module QuotaInterleaved {
  import opened Prelude
  import opened QuotaLedger

  /** Bounds per API key. */
  datatype Env = Env(overlap: nat -> nat, cost: nat -> nat, limit: nat -> nat) {
    /** What a free call of the key can cost: dearer ones are denied. */
    function FreeCost(apiKey: nat): nat { Min(cost(apiKey), limit(apiKey)) }
  }

  /** Where a transaction stands, and what it remembers from its reads. */
  datatype Pc =
    | Begun
    | PaidSeen(remaining: int)
    | PaidLocked(remaining: int)
    | FreeTurn
    | FreeSeen(row: Option<nat>)
    | FreeLocked(row: Option<nat>)
    | Finished(result: Result)
    | Aborted

  datatype Txn = Txn(call: Call, pc: Pc) {
    predicate InFlight() { !pc.Finished? && !pc.Aborted? }
  }

  datatype State = State(ledger: Ledger, txns: seq<Txn>)

  datatype Step =
    | Begin(call: Call)
    | ReadMonthly(i: nat)
    | LockMonthly(i: nat)
    | CommitMonthly(i: nat)
    | ReadDaily(i: nat)
    | LockDaily(i: nat)
    | CommitDaily(i: nat)
    | Abort(i: nat)
    | Buy(mk: MonthKey, credits: nat)

  // ----- weights

  function Busy(apiKey: nat): Txn -> int {
    (t: Txn) => if t.InFlight() && t.call.apiKey == apiKey then 1 else 0
  }

  /** Decided to charge the monthly row, not committed yet. */
  function PendingPaid(mk: MonthKey): Txn -> int {
    (t: Txn) => if (t.pc.PaidSeen? || t.pc.PaidLocked?) && t.call.Month() == mk then t.call.Cost() else 0
  }

  function PendingFree(dk: DayKey): Txn -> int {
    (t: Txn) => if (t.pc.FreeSeen? || t.pc.FreeLocked?) && t.call.DayRow() == dk then t.call.Cost() else 0
  }

  function CommittedPaid(mk: MonthKey): Txn -> int {
    (t: Txn) => if t.pc.Finished? && t.pc.result.Paid? && t.call.Month() == mk then t.call.Cost() else 0
  }

  function CommittedFree(dk: DayKey): Txn -> int {
    (t: Txn) => if t.pc.Finished? && t.pc.result.Free? && t.call.DayRow() == dk then t.call.Cost() else 0
  }

  // ----- steps

  predicate At(s: State, i: nat) { i < |s.txns| }

  predicate Enabled(e: Env, s: State, st: Step) {
    match st
    case Begin(c) =>
      c.apiKey == 0 ||
      (&& Sum(s.txns, Busy(c.apiKey)) < e.overlap(c.apiKey)
       && c.Cost() <= e.cost(c.apiKey) && c.limit <= e.limit(c.apiKey))
    case ReadMonthly(i) => At(s, i) && s.txns[i].pc.Begun?
    case LockMonthly(i) =>
      && At(s, i) && s.txns[i].pc.PaidSeen?
      && forall j :: 0 <= j < |s.txns| && s.txns[j].pc.PaidLocked? ==>
           s.txns[j].call.Month() != s.txns[i].call.Month()
    case CommitMonthly(i) => At(s, i) && s.txns[i].pc.PaidLocked? && s.txns[i].call.Month() in s.ledger.monthly
    case ReadDaily(i) => At(s, i) && s.txns[i].pc.FreeTurn?
    case LockDaily(i) =>
      && At(s, i) && s.txns[i].pc.FreeSeen?
      && forall j :: 0 <= j < |s.txns| && s.txns[j].pc.FreeLocked? ==>
           s.txns[j].call.DayRow() != s.txns[i].call.DayRow()
    case CommitDaily(i) =>
      // creating a row that someone else created meanwhile violates the unique index: only Abort is left
      && At(s, i) && s.txns[i].pc.FreeLocked?
      && (s.txns[i].pc.row.None? ==> s.txns[i].call.DayRow() !in s.ledger.daily)
    case Abort(i) => At(s, i) && s.txns[i].InFlight()
    case Buy(mk, credits) => mk.apiKey != 0
  }

  function Move(s: State, i: nat, pc: Pc): State
    requires At(s, i)
  {
    s.(txns := s.txns[i := Txn(s.txns[i].call, pc)])
  }

  function Finish(s: State, i: nat, r: Result): State
    requires At(s, i)
  {
    Move(s, i, Finished(r))
  }

  function SeenUse(row: Option<nat>): nat { if row.Some? then row.value else 0 }

  function Effect(e: Env, s: State, st: Step): State
    requires Enabled(e, s, st)
  {
    match st
    case Begin(c) => s.(txns := s.txns + [Txn(c, Begun)])
    case ReadMonthly(i) =>
      var c := s.txns[i].call;
      Move(s, i, if PaidCovers(s.ledger, c) then PaidSeen(PaidLeft(s.ledger, c.Month())) else FreeTurn)
    case LockMonthly(i) => Move(s, i, PaidLocked(s.txns[i].pc.remaining))
    case CommitMonthly(i) =>
      var c := s.txns[i].call;
      Finish(s, i, Paid(s.txns[i].pc.remaining - c.Cost())).(ledger := ChargeMonth(s.ledger, c.Month(), c.Cost()))
    case ReadDaily(i) =>
      var c := s.txns[i].call;
      if c.limit <= 0 then Finish(s, i, Unmetered)
      else if c.apiKey == 0 || DailyUsed(s.ledger, c.DayRow()) + c.Cost() > c.limit then Finish(s, i, Denied)
      else Move(s, i, FreeSeen(Get(s.ledger.daily, c.DayRow())))
    case LockDaily(i) => Move(s, i, FreeLocked(s.txns[i].pc.row))
    case CommitDaily(i) =>
      var c := s.txns[i].call;
      Finish(s, i, Free(c.limit - (SeenUse(s.txns[i].pc.row) + c.Cost())))
        .(ledger := ChargeDay(s.ledger, c.DayRow(), c.Cost()))
    case Abort(i) => Move(s, i, Aborted)
    case Buy(mk, credits) => s.(ledger := AddCredits(s.ledger, mk, credits))
  }

  /** A step that is not enabled does nothing, so every list of steps is a run. */
  function Next(e: Env, s: State, st: Step): State { if Enabled(e, s, st) then Effect(e, s, st) else s }

  function Exec(e: Env, s: State, steps: seq<Step>): State {
    if steps == [] then s else Next(e, Exec(e, s, Init(steps)), Last(steps))
  }

  function Start(g: Ledger): State { State(g, []) }

  // ----- how sums move

  /** The transaction a step belongs to. */
  function Mover(st: Step): Option<nat> {
    match st
    case Begin(_) => None
    case Buy(_, _) => None
    case ReadMonthly(i) => Some(i)
    case LockMonthly(i) => Some(i)
    case CommitMonthly(i) => Some(i)
    case ReadDaily(i) => Some(i)
    case LockDaily(i) => Some(i)
    case CommitDaily(i) => Some(i)
    case Abort(i) => Some(i)
  }

  lemma SumsMove(e: Env, s: State, st: Step, w: Txn -> int)
    requires Enabled(e, s, st)
    ensures match Mover(st)
            case Some(i) =>
              At(s, i) && At(Effect(e, s, st), i)
              && Sum(Effect(e, s, st).txns, w) == Sum(s.txns, w) - w(s.txns[i]) + w(Effect(e, s, st).txns[i])
            case None =>
              Sum(Effect(e, s, st).txns, w) == Sum(s.txns, w) + if st.Begin? then w(Txn(st.call, Begun)) else 0
  {
    match Mover(st)
    case Some(i) => SumUpdate(s.txns, w, i, Effect(e, s, st).txns[i]);
    case None => if st.Begin? { SumAppend(s.txns, w, Txn(st.call, Begun)); }
  }

  // ----- what every run keeps

  /** A call in flight obeys the environment, a monthly row it read still exists, a free one fits its limit. */
  predicate Fits(e: Env, g: Ledger, t: Txn) {
    && (t.InFlight() && t.call.apiKey != 0 ==>
          t.call.Cost() <= e.cost(t.call.apiKey) && t.call.limit <= e.limit(t.call.apiKey))
    && (t.pc.PaidSeen? || t.pc.PaidLocked? ==> t.call.Month() in g.monthly)
    && (t.pc.FreeSeen? || t.pc.FreeLocked? ==> t.call.Cost() <= t.call.limit)
  }

  predicate Disciplined(e: Env, s: State) { forall i :: 0 <= i < |s.txns| ==> Fits(e, s.ledger, s.txns[i]) }

  lemma MoverFits(e: Env, s: State, st: Step, i: nat)
    requires Enabled(e, s, st) && Mover(st) == Some(i) && Fits(e, s.ledger, s.txns[i])
    ensures Fits(e, Effect(e, s, st).ledger, Effect(e, s, st).txns[i])
  {
  }

  lemma StillFits(e: Env, s: State, st: Step, t: Txn)
    requires Enabled(e, s, st) && Fits(e, s.ledger, t)
    ensures Fits(e, Effect(e, s, st).ledger, t)
  {
  }

  lemma DisciplinedStep(e: Env, s: State, st: Step)
    requires Disciplined(e, s)
    ensures Disciplined(e, Next(e, s, st))
  {
    if Enabled(e, s, st) {
      var h := Effect(e, s, st);
      forall j: nat | j < |h.txns| ensures Fits(e, h.ledger, h.txns[j]) {
        if Mover(st) == Some(j) {
          MoverFits(e, s, st, j);
        } else if j < |s.txns| {
          StillFits(e, s, st, s.txns[j]);
        }
      }
    }
  }

  lemma BusyStep(e: Env, s: State, st: Step, apiKey: nat)
    requires apiKey != 0 && Sum(s.txns, Busy(apiKey)) <= e.overlap(apiKey)
    ensures Sum(Next(e, s, st).txns, Busy(apiKey)) <= e.overlap(apiKey)
  {
    if Enabled(e, s, st) {
      SumsMove(e, s, st, Busy(apiKey));
    }
  }

  /**
   When one of at most n calls of a key is deciding, what the others have
   pending is at most the largest charge for each of them.
   */
  lemma OthersPending(s: State, i: nat, apiKey: nat, w: Txn -> int, n: nat, charge: nat)
    requires At(s, i) && Sum(s.txns, Busy(apiKey)) <= n
    requires s.txns[i].InFlight() && s.txns[i].call.apiKey == apiKey
    requires w(s.txns[i]) == 0 == w(Txn(s.txns[i].call, Aborted))
    requires forall j :: 0 <= j < |s.txns| ==> w(s.txns[j]) <= charge * Busy(apiKey)(s.txns[j])
    ensures Sum(s.txns, w) <= (n - 1) * charge
  {
    var out := Txn(s.txns[i].call, Aborted);
    var rest := s.txns[i := out];
    SumUpdate(s.txns, w, i, out);
    SumUpdate(s.txns, Busy(apiKey), i, out);
    forall j | 0 <= j < |rest| ensures w(rest[j]) <= charge * Busy(apiKey)(rest[j]) {
      if j != i {
        assert rest[j] == s.txns[j];
      }
    }
    SumAtMost(rest, w, Busy(apiKey), charge);
    Scale(Sum(rest, Busy(apiKey)), n - 1, charge);
  }

  lemma Scale(n: int, m: int, c: nat)
    requires n <= m
    ensures c * n <= m * c
  {
  }

  /** Used and pending credits of one monthly row exceed the purchase by at most `slack`. */
  predicate PaidWithin(s: State, mk: MonthKey, slack: int) {
    if mk in s.ledger.monthly then
      s.ledger.monthly[mk].used + Sum(s.txns, PendingPaid(mk)) <= s.ledger.monthly[mk].purchased + slack
    else Sum(s.txns, PendingPaid(mk)) == 0
  }

  /** The bound on one monthly row. */
  predicate PaidBounded(e: Env, s: State, mk: MonthKey) {
    PaidWithin(s, mk, (e.overlap(mk.apiKey) - 1) * e.cost(mk.apiKey))
  }

  /** The calls of a key stay within the environment. */
  predicate WithinBounds(e: Env, s: State, apiKey: nat) {
    && apiKey != 0 && 1 <= e.overlap(apiKey)
    && Disciplined(e, s) && Sum(s.txns, Busy(apiKey)) <= e.overlap(apiKey)
  }

  /** The step decides to charge the row. */
  predicate DecidesPaid(s: State, st: Step, mk: MonthKey) {
    && st.ReadMonthly? && At(s, st.i)
    && s.txns[st.i].call.Month() == mk && PaidCovers(s.ledger, s.txns[st.i].call)
  }

  /** What the step charges to the row. */
  function ChargeOf(s: State, st: Step, mk: MonthKey): nat {
    if st.CommitMonthly? && At(s, st.i) && s.txns[st.i].call.Month() == mk then s.txns[st.i].call.Cost() else 0
  }

  lemma PendingFalls(e: Env, s: State, st: Step, mk: MonthKey)
    requires Enabled(e, s, st) && !DecidesPaid(s, st, mk)
    ensures Sum(Effect(e, s, st).txns, PendingPaid(mk)) <= Sum(s.txns, PendingPaid(mk)) - ChargeOf(s, st, mk)
  {
    SumsMove(e, s, st, PendingPaid(mk));
  }

  lemma RowMoves(e: Env, s: State, st: Step, mk: MonthKey)
    requires Enabled(e, s, st)
    ensures var (g, h) := (s.ledger.monthly, Effect(e, s, st).ledger.monthly);
            if mk in g then
              mk in h && h[mk].used == g[mk].used + ChargeOf(s, st, mk) && h[mk].purchased >= g[mk].purchased
            else mk in h ==> h[mk].used == 0 <= h[mk].purchased
  {
  }

  lemma PaidWithinStep(e: Env, s: State, st: Step, mk: MonthKey, slack: nat)
    requires Enabled(e, s, st) && PaidWithin(s, mk, slack) && !DecidesPaid(s, st, mk)
    ensures PaidWithin(Effect(e, s, st), mk, slack)
  {
    PendingFalls(e, s, st, mk);
    RowMoves(e, s, st, mk);
    SumNonnegative(Effect(e, s, st).txns, PendingPaid(mk));
  }

  lemma PaidDecision(e: Env, s: State, i: nat, mk: MonthKey)
    requires WithinBounds(e, s, mk.apiKey)
    requires Enabled(e, s, ReadMonthly(i)) && DecidesPaid(s, ReadMonthly(i), mk)
    ensures PaidBounded(e, Effect(e, s, ReadMonthly(i)), mk)
  {
    SumsMove(e, s, ReadMonthly(i), PendingPaid(mk));
    OthersPending(s, i, mk.apiKey, PendingPaid(mk), e.overlap(mk.apiKey), e.cost(mk.apiKey));
  }

  lemma PaidBoundedStep(e: Env, s: State, st: Step, mk: MonthKey)
    requires WithinBounds(e, s, mk.apiKey) && PaidBounded(e, s, mk)
    ensures PaidBounded(e, Next(e, s, st), mk)
  {
    if Enabled(e, s, st) {
      if DecidesPaid(s, st, mk) {
        PaidDecision(e, s, st.i, mk);
      } else {
        Scale(0, e.overlap(mk.apiKey) - 1, e.cost(mk.apiKey));
        PaidWithinStep(e, s, st, mk, (e.overlap(mk.apiKey) - 1) * e.cost(mk.apiKey));
      }
    }
  }

  /** The bound on one daily row, which all endpoints of the key share. */
  predicate FreeBounded(e: Env, s: State, dk: DayKey) {
    DailyUsed(s.ledger, dk) + Sum(s.txns, PendingFree(dk))
      <= e.limit(dk.apiKey) + (e.overlap(dk.apiKey) - 1) * e.FreeCost(dk.apiKey)
  }

  lemma FreeDecision(e: Env, s: State, i: nat, dk: DayKey)
    requires WithinBounds(e, s, dk.apiKey)
    requires Enabled(e, s, ReadDaily(i)) && s.txns[i].call.DayRow() == dk && FreeBounded(e, s, dk)
    ensures FreeBounded(e, Effect(e, s, ReadDaily(i)), dk)
  {
    SumsMove(e, s, ReadDaily(i), PendingFree(dk));
    OthersPending(s, i, dk.apiKey, PendingFree(dk), e.overlap(dk.apiKey), e.FreeCost(dk.apiKey));
  }

  lemma FreeTotalFalls(e: Env, s: State, st: Step, dk: DayKey)
    requires Enabled(e, s, st) && !(st.ReadDaily? && s.txns[st.i].call.DayRow() == dk)
    ensures DailyUsed(Effect(e, s, st).ledger, dk) + Sum(Effect(e, s, st).txns, PendingFree(dk))
         <= DailyUsed(s.ledger, dk) + Sum(s.txns, PendingFree(dk))
  {
    SumsMove(e, s, st, PendingFree(dk));
  }

  lemma FreeBoundedStep(e: Env, s: State, st: Step, dk: DayKey)
    requires WithinBounds(e, s, dk.apiKey) && FreeBounded(e, s, dk)
    ensures FreeBounded(e, Next(e, s, st), dk)
  {
    if Enabled(e, s, st) {
      if st.ReadDaily? && s.txns[st.i].call.DayRow() == dk {
        FreeDecision(e, s, st.i, dk);
      } else {
        FreeTotalFalls(e, s, st, dk);
      }
    }
  }

  /** Whatever the other keys do, a key that starts within its bounds stays there. */
  lemma {:induction false} StaysWithinBounds(e: Env, g: Ledger, steps: seq<Step>, apiKey: nat)
    requires apiKey != 0 && 1 <= e.overlap(apiKey)
    ensures WithinBounds(e, Exec(e, Start(g), steps), apiKey)
  {
    if steps == [] {
    } else {
      var s := Exec(e, Start(g), Init(steps));
      StaysWithinBounds(e, g, Init(steps), apiKey);
      DisciplinedStep(e, s, Last(steps));
      BusyStep(e, s, Last(steps), apiKey);
    }
  }

  /**
   Paid credits under overlap: in every reachable state what is used and what
   is about to be used exceed the purchase by at most the key's largest cost
   for each of the other calls of the key that may overlap.
   */
  lemma {:induction false} PaidOvershootBound(e: Env, g: Ledger, steps: seq<Step>, mk: MonthKey)
    requires mk.apiKey != 0 && 1 <= e.overlap(mk.apiKey)
    requires mk in g.monthly ==> g.monthly[mk].used <= g.monthly[mk].purchased
    ensures PaidBounded(e, Exec(e, Start(g), steps), mk)
  {
    if steps == [] {
      Scale(0, e.overlap(mk.apiKey) - 1, e.cost(mk.apiKey));
    } else {
      PaidOvershootBound(e, g, Init(steps), mk);
      StaysWithinBounds(e, g, Init(steps), mk.apiKey);
      PaidBoundedStep(e, Exec(e, Start(g), Init(steps)), Last(steps), mk);
    }
  }

  /**
   The same bound for the row of a day, against the key's largest endpoint
   limit; a call dearer than that limit is denied, so it adds nothing.
   */
  lemma {:induction false} FreeOvershootBound(e: Env, g: Ledger, steps: seq<Step>, dk: DayKey)
    requires dk.apiKey != 0 && 1 <= e.overlap(dk.apiKey) && DailyUsed(g, dk) <= e.limit(dk.apiKey)
    ensures FreeBounded(e, Exec(e, Start(g), steps), dk)
  {
    if steps == [] {
      Scale(0, e.overlap(dk.apiKey) - 1, e.FreeCost(dk.apiKey));
    } else {
      FreeOvershootBound(e, g, Init(steps), dk);
      StaysWithinBounds(e, g, Init(steps), dk.apiKey);
      FreeBoundedStep(e, Exec(e, Start(g), Init(steps)), Last(steps), dk);
    }
  }

  lemma PendingIsNonnegative(s: State, mk: MonthKey, dk: DayKey)
    ensures 0 <= Sum(s.txns, PendingPaid(mk)) && 0 <= Sum(s.txns, PendingFree(dk))
  {
    SumNonnegative(s.txns, PendingPaid(mk));
    SumNonnegative(s.txns, PendingFree(dk));
  }

  /** A key whose calls do not overlap has the promise of the atomic ledger: nothing of it is overdrawn. */
  lemma NoOverlapNoOverdraft(e: Env, g: Ledger, steps: seq<Step>, mk: MonthKey, dk: DayKey)
    requires mk.apiKey == dk.apiKey != 0 && e.overlap(mk.apiKey) == 1
    requires NotOverdrawn(e, g, mk, dk)
    ensures NotOverdrawn(e, Exec(e, Start(g), steps).ledger, mk, dk)
  {
    PaidOvershootBound(e, g, steps, mk);
    FreeOvershootBound(e, g, steps, dk);
    PendingIsNonnegative(Exec(e, Start(g), steps), mk, dk);
  }

  predicate NotOverdrawn(e: Env, g: Ledger, mk: MonthKey, dk: DayKey) {
    PaidLeft(g, mk) >= 0 && DailyUsed(g, dk) <= e.limit(dk.apiKey)
  }

  // ----- locks and the unique index

  /** Two calls that hold a lock hold different rows. */
  predicate LocksExclusive(s: State) {
    forall i, j :: 0 <= i < j < |s.txns| ==> Apart(s.txns[i], s.txns[j])
  }

  predicate Apart(a: Txn, b: Txn) {
    && (a.pc.PaidLocked? && b.pc.PaidLocked? ==> a.call.Month() != b.call.Month())
    && (a.pc.FreeLocked? && b.pc.FreeLocked? ==> a.call.DayRow() != b.call.DayRow())
  }

  lemma MoverStaysApart(e: Env, s: State, st: Step, i: nat, j: nat)
    requires LocksExclusive(s) && Enabled(e, s, st) && Mover(st) == Some(i) && At(s, j) && j != i
    ensures Apart(Effect(e, s, st).txns[i], s.txns[j]) && Apart(s.txns[j], Effect(e, s, st).txns[i])
  {
    assert Apart(s.txns[Min(i, j)], s.txns[Max(i, j)]);
  }

  /** Mutual exclusion: in every run a row is locked by one call at most. */
  lemma {:induction false} LocksAreExclusive(e: Env, g: Ledger, steps: seq<Step>)
    ensures LocksExclusive(Exec(e, Start(g), steps))
  {
    if steps == [] {
    } else {
      LocksAreExclusive(e, g, Init(steps));
      var s, st := Exec(e, Start(g), Init(steps)), Last(steps);
      if Enabled(e, s, st) {
        var h := Effect(e, s, st);
        forall i: nat, j: nat | i < j < |h.txns| ensures Apart(h.txns[i], h.txns[j]) {
          if Mover(st) == Some(i) {
            MoverStaysApart(e, s, st, i, j);
          } else if Mover(st) == Some(j) {
            MoverStaysApart(e, s, st, j, i);
          }
        }
      }
    }
  }

  /** A call that is about to create a row which somebody else created meanwhile can only abort. */
  lemma LateCreatorAborts(e: Env, s: State, st: Step, i: nat)
    requires At(s, i) && s.txns[i].pc == FreeLocked(None) && s.txns[i].call.DayRow() in s.ledger.daily
    requires Enabled(e, s, st) && Mover(st) == Some(i)
    ensures st == Abort(i) && Effect(e, s, st).ledger == s.ledger
  {
  }

  // ----- conservation

  function UsedOf(g: Ledger, mk: MonthKey): int { if mk in g.monthly then g.monthly[mk].used else 0 }

  lemma PaidConservedStep(e: Env, s: State, st: Step, mk: MonthKey)
    requires Enabled(e, s, st)
    ensures UsedOf(Effect(e, s, st).ledger, mk) - Sum(Effect(e, s, st).txns, CommittedPaid(mk))
         == UsedOf(s.ledger, mk) - Sum(s.txns, CommittedPaid(mk))
  {
    SumsMove(e, s, st, CommittedPaid(mk));
  }

  lemma FreeConservedStep(e: Env, s: State, st: Step, dk: DayKey)
    requires Enabled(e, s, st)
    ensures DailyUsed(Effect(e, s, st).ledger, dk) - Sum(Effect(e, s, st).txns, CommittedFree(dk))
         == DailyUsed(s.ledger, dk) - Sum(s.txns, CommittedFree(dk))
  {
    SumsMove(e, s, st, CommittedFree(dk));
  }

  /**
   For every interleaving and every pattern of aborts, a row holds exactly the
   costs of the calls that committed a charge to it.
   */
  lemma {:induction false} RowsHoldCommittedCosts(e: Env, g: Ledger, steps: seq<Step>, mk: MonthKey, dk: DayKey)
    ensures var s := Exec(e, Start(g), steps);
            && UsedOf(s.ledger, mk) == UsedOf(g, mk) + Sum(s.txns, CommittedPaid(mk))
            && DailyUsed(s.ledger, dk) == DailyUsed(g, dk) + Sum(s.txns, CommittedFree(dk))
  {
    if steps == [] {
    } else {
      var s, st := Exec(e, Start(g), Init(steps)), Last(steps);
      RowsHoldCommittedCosts(e, g, Init(steps), mk, dk);
      if Enabled(e, s, st) {
        PaidConservedStep(e, s, st, mk);
        FreeConservedStep(e, s, st, dk);
      }
    }
  }

  function PurchasedOf(g: Ledger, mk: MonthKey): int { if mk in g.monthly then g.monthly[mk].purchased else 0 }

  /** Credits that the purchases of a run add up to for one row. */
  function BoughtFor(steps: seq<Step>, mk: MonthKey): nat {
    if steps == [] then 0
    else
      var st := Last(steps);
      BoughtFor(Init(steps), mk) + if st.Buy? && st.mk == mk then st.credits else 0
  }

  lemma PurchaseStep(e: Env, s: State, st: Step, mk: MonthKey)
    requires mk.apiKey != 0
    ensures PurchasedOf(Next(e, s, st).ledger, mk)
         == PurchasedOf(s.ledger, mk) + if st.Buy? && st.mk == mk then st.credits else 0
  {
  }

  /** No purchase is lost or counted twice: in every run a row holds its start plus the purchases made for it. */
  lemma {:induction false} RowsHoldPurchases(e: Env, g: Ledger, steps: seq<Step>, mk: MonthKey)
    requires mk.apiKey != 0
    ensures PurchasedOf(Exec(e, Start(g), steps).ledger, mk) == PurchasedOf(g, mk) + BoughtFor(steps, mk)
  {
    if steps == [] {
    } else {
      RowsHoldPurchases(e, g, Init(steps), mk);
      PurchaseStep(e, Exec(e, Start(g), Init(steps)), Last(steps), mk);
    }
  }

  // ----- the overshoot bounds are reached

  const JAN := Day(2026, 1, 1)

  /** n calls of one kind, the first k of them further on. */
  function Crowd(n: nat, k: nat, first: Pc, rest: Pc, c: Call): seq<Txn> {
    seq(n, i => Txn(c, if i < k then first else rest))
  }

  lemma {:induction false} EverybodyBusy(s: seq<Txn>, apiKey: nat)
    requires forall i :: 0 <= i < |s| ==> s[i].InFlight() && s[i].call.apiKey == apiKey
    ensures Sum(s, Busy(apiKey)) == |s|
  {
    if s == [] {
    } else {
      EverybodyBusy(Init(s), apiKey);
    }
  }

  lemma {:induction false} ExecAppend(e: Env, s: State, a: seq<Step>, b: seq<Step>)
    ensures Exec(e, s, a + b) == Exec(e, Exec(e, s, a), b)
  {
    if b == [] {
      assert a + b == a;
    } else {
      ExecAppend(e, s, a, Init(b));
      assert Init(a + b) == a + Init(b);
    }
  }

  lemma OneStep(e: Env, s: State, st: Step)
    ensures Exec(e, s, [st]) == Next(e, s, st)
  {
    assert Init([st]) == [];
  }

  lemma TwoSteps(e: Env, s: State, a: Step, b: Step)
    ensures Exec(e, s, [a, b]) == Next(e, Next(e, s, a), b)
  {
    ExecAppend(e, s, [a], [b]);
    OneStep(e, s, a);
    OneStep(e, Next(e, s, a), b);
    assert [a] + [b] == [a, b];
  }

  /** k calls begin. */
  lemma {:induction false} CrowdBegins(e: Env, g: Ledger, c: Call, k: nat) returns (steps: seq<Step>)
    requires c.Cost() <= e.cost(c.apiKey) && c.limit <= e.limit(c.apiKey) && k <= e.overlap(c.apiKey)
    ensures Exec(e, Start(g), steps) == State(g, Crowd(k, 0, Begun, Begun, c))
  {
    steps := [];
    if k == 0 {
      assert Crowd(0, 0, Begun, Begun, c) == [];
    } else {
      steps := CrowdBegins(e, g, c, k - 1);
      EverybodyBusy(Crowd(k - 1, 0, Begun, Begun, c), c.apiKey);
      OneMoreBegins(e, g, Crowd(k - 1, 0, Begun, Begun, c), c);
      ExecAppend(e, Start(g), steps, [Begin(c)]);
      assert Crowd(k - 1, 0, Begun, Begun, c) + [Txn(c, Begun)] == Crowd(k, 0, Begun, Begun, c);
      steps := steps + [Begin(c)];
    }
  }

  lemma OneMoreBegins(e: Env, g: Ledger, before: seq<Txn>, c: Call)
    requires Sum(before, Busy(c.apiKey)) < e.overlap(c.apiKey)
    requires c.Cost() <= e.cost(c.apiKey) && c.limit <= e.limit(c.apiKey)
    ensures Exec(e, State(g, before), [Begin(c)]) == State(g, before + [Txn(c, Begun)])
  {
    OneStep(e, State(g, before), Begin(c));
  }

  /**
   The calls of a crowd move on one after the other, call i by the steps
   `turn(i)`, which take the ledger from `at(i)` to `at(i + 1)`.
   */
  lemma {:induction false} CrowdTakesTurns(e: Env, g: Ledger, at: nat -> Ledger, n: nat, c: Call, from: Pc, to: Pc,
                                           turn: nat -> seq<Step>, before: seq<Step>, k: nat)
    returns (steps: seq<Step>)
    requires k <= n && Exec(e, Start(g), before) == State(at(0), Crowd(n, 0, to, from, c))
    requires forall i: nat :: i < n ==>
               Exec(e, State(at(i), Crowd(n, i, to, from, c)), turn(i))
               == State(at(i + 1), Crowd(n, i + 1, to, from, c))
    ensures Exec(e, Start(g), steps) == State(at(k), Crowd(n, k, to, from, c))
  {
    if k == 0 {
      steps := before;
    } else {
      steps := CrowdTakesTurns(e, g, at, n, c, from, to, turn, before, k - 1);
      ExecAppend(e, Start(g), steps, turn(k - 1));
      assert Exec(e, Exec(e, Start(g), steps), turn(k - 1)) == State(at(k), Crowd(n, k, to, from, c));
      steps := steps + turn(k - 1);
    }
  }

  /** All of a crowd read, one after the other; then they stand before the next phase. */
  lemma CrowdReads(e: Env, g: Ledger, h: Ledger, n: nat, c: Call, from: Pc, to: Pc, next: Pc, read: nat -> Step,
                   before: seq<Step>)
    returns (steps: seq<Step>)
    requires Exec(e, Start(g), before) == State(h, Crowd(n, 0, to, from, c))
    requires forall i: nat {:trigger read(i)} :: i < n ==>
               var s := State(h, Crowd(n, i, to, from, c)); Next(e, s, read(i)) == Move(s, i, to)
    ensures Exec(e, Start(g), steps) == State(h, Crowd(n, 0, next, to, c))
  {
    forall i: nat | i < n
      ensures Exec(e, State(h, Crowd(n, i, to, from, c)), [read(i)]) == State(h, Crowd(n, i + 1, to, from, c))
    {
      OneStep(e, State(h, Crowd(n, i, to, from, c)), read(i));
      assert Crowd(n, i, to, from, c)[i := Txn(c, to)] == Crowd(n, i + 1, to, from, c);
    }
    steps := CrowdTakesTurns(e, g, (i: nat) => h, n, c, from, to, (i: nat) => [read(i)], before, n);
    assert Crowd(n, n, to, from, c) == Crowd(n, 0, next, to, c);
  }

  /** A call that locks its row and commits. */
  lemma CommittingTurn(e: Env, g: Ledger, h: Ledger, c: Call, n: nat, i: nat, from: Pc, locked: Pc, to: Pc,
                       lock: Step, commit: Step)
    requires i < n
    requires var s := State(g, Crowd(n, i, to, from, c));
             && Next(e, s, lock) == Move(s, i, locked)
             && Next(e, Move(s, i, locked), commit) == Move(Move(s, i, locked), i, to).(ledger := h)
    ensures Exec(e, State(g, Crowd(n, i, to, from, c)), [lock, commit]) == State(h, Crowd(n, i + 1, to, from, c))
  {
    TwoSteps(e, State(g, Crowd(n, i, to, from, c)), lock, commit);
    CrowdMoves(n, i, from, locked, to, c);
  }

  lemma CrowdMoves(n: nat, i: nat, from: Pc, locked: Pc, to: Pc, c: Call)
    requires i < n
    ensures Crowd(n, i, to, from, c)[i := Txn(c, locked)][i := Txn(c, to)] == Crowd(n, i + 1, to, from, c)
  {
  }

  // ----- of the monthly row

  /** The row of January with `cost` purchased credits, i * cost of them used. */
  function Month(apiKey: nat, cost: nat, i: nat): Ledger {
    Ledger(map[MonthKey(apiKey, 2026, 1) := MonthRow(cost, i * cost)], map[])
  }

  function Dear(apiKey: nat, cost: nat): Call { Call(apiKey, cost, 0, JAN) }

  lemma MonthlyTurn(e: Env, apiKey: nat, cost: nat, n: nat, i: nat)
    requires apiKey != 0 && 1 <= cost && i < n
    ensures var (seen, done, c) := (PaidSeen(cost), Finished(Paid(0)), Dear(apiKey, cost));
            Exec(e, State(Month(apiKey, cost, i), Crowd(n, i, done, seen, c)), [LockMonthly(i), CommitMonthly(i)])
            == State(Month(apiKey, cost, i + 1), Crowd(n, i + 1, done, seen, c))
  {
    var c, g, h := Dear(apiKey, cost), Month(apiKey, cost, i), Month(apiKey, cost, i + 1);
    assert i * cost + cost == (i + 1) * cost;
    assert ChargeMonth(g, c.Month(), c.Cost()) == h;
    CommittingTurn(e, g, h, c, n, i, PaidSeen(cost), PaidLocked(cost), Finished(Paid(0)),
                   LockMonthly(i), CommitMonthly(i));
  }

  /** All calls of a crowd have read the row and seen the whole purchase. */
  lemma CrowdSeesMonth(e: Env, g: Ledger, c: Call, seen: Pc, done: Pc) returns (steps: seq<Step>)
    requires c.apiKey != 0 && 1 <= c.rawCost <= e.cost(c.apiKey) && c == Dear(c.apiKey, c.rawCost)
    requires g == Month(c.apiKey, c.rawCost, 0) && seen == PaidSeen(c.rawCost)
    ensures Exec(e, Start(g), steps) == State(g, Crowd(e.overlap(c.apiKey), 0, done, seen, c))
  {
    var n := e.overlap(c.apiKey);
    steps := CrowdBegins(e, g, c, n);
    assert Crowd(n, 0, Begun, Begun, c) == Crowd(n, 0, seen, Begun, c);
    steps := CrowdReads(e, g, g, n, c, Begun, seen, done, (i: nat) => ReadMonthly(i), steps);
  }

  /** For every key, overlap and cost some run overdraws the key's monthly row by exactly the bound. */
  lemma OvershootBoundIsTight(e: Env, apiKey: nat) returns (g: Ledger, steps: seq<Step>, mk: MonthKey)
    requires apiKey != 0 && 1 <= e.overlap(apiKey) && 1 <= e.cost(apiKey)
    ensures mk.apiKey == apiKey && PaidLeft(g, mk) >= 0 && g.daily == map[]
    ensures var h := Exec(e, Start(g), steps).ledger;
            && mk in h.monthly
            && h.monthly[mk].used == h.monthly[mk].purchased + (e.overlap(apiKey) - 1) * e.cost(apiKey)
  {
    var n, cost := e.overlap(apiKey), e.cost(apiKey);
    var c, seen, done := Dear(apiKey, cost), PaidSeen(cost), Finished(Paid(0));
    g, mk := Month(apiKey, cost, 0), MonthKey(apiKey, 2026, 1);
    steps := CrowdSeesMonth(e, g, c, seen, done);
    forall i: nat | i < n
      ensures Exec(e, State(Month(apiKey, cost, i), Crowd(n, i, done, seen, c)), [LockMonthly(i), CommitMonthly(i)])
           == State(Month(apiKey, cost, i + 1), Crowd(n, i + 1, done, seen, c))
    {
      MonthlyTurn(e, apiKey, cost, n, i);
    }
    steps := CrowdTakesTurns(e, g, (i: nat) => Month(apiKey, cost, i), n, c, seen, done,
                             (i: nat) => [LockMonthly(i), CommitMonthly(i)], steps, n);
    assert Exec(e, Start(g), steps).ledger == Month(apiKey, cost, n);
    assert n * cost == cost + (n - 1) * cost;
  }

  // ----- of the daily row

  /** The row of a day with room for one call of `cost` under `limit`, and i such calls charged. */
  function DayOf(apiKey: nat, limit: nat, cost: nat, i: nat): Ledger
    requires cost <= limit
  {
    Ledger(map[], map[DayKey(apiKey, JAN) := limit - cost + i * cost])
  }

  lemma DailyTurn(e: Env, apiKey: nat, limit: nat, cost: nat, n: nat, i: nat)
    requires apiKey != 0 && 1 <= cost <= limit && i < n
    ensures var (seen, done) := (FreeSeen(Some(limit - cost)), Finished(Free(0)));
            var c := Call(apiKey, cost, limit, JAN);
            Exec(e, State(DayOf(apiKey, limit, cost, i), Crowd(n, i, done, seen, c)), [LockDaily(i), CommitDaily(i)])
            == State(DayOf(apiKey, limit, cost, i + 1), Crowd(n, i + 1, done, seen, c))
  {
    var c := Call(apiKey, cost, limit, JAN);
    var g, h := DayOf(apiKey, limit, cost, i), DayOf(apiKey, limit, cost, i + 1);
    assert i * cost + cost == (i + 1) * cost;
    assert ChargeDay(g, c.DayRow(), c.Cost()) == h;
    CommittingTurn(e, g, h, c, n, i, FreeSeen(Some(limit - cost)), FreeLocked(Some(limit - cost)), Finished(Free(0)),
                   LockDaily(i), CommitDaily(i));
  }

  /** All calls of a crowd have read the row and found room. */
  lemma CrowdSeesDay(e: Env, g: Ledger, c: Call, seen: Pc, done: Pc) returns (steps: seq<Step>)
    requires c.apiKey != 0 && 1 <= c.rawCost <= c.limit
    requires c.Cost() <= e.cost(c.apiKey) && c.limit <= e.limit(c.apiKey)
    requires g == DayOf(c.apiKey, c.limit, c.rawCost, 0) && c.today == JAN
    requires seen == FreeSeen(Some(c.limit - c.rawCost))
    ensures Exec(e, Start(g), steps) == State(g, Crowd(e.overlap(c.apiKey), 0, done, seen, c))
  {
    var n := e.overlap(c.apiKey);
    steps := CrowdBegins(e, g, c, n);
    assert Crowd(n, 0, Begun, Begun, c) == Crowd(n, 0, FreeTurn, Begun, c);
    steps := CrowdReads(e, g, g, n, c, Begun, FreeTurn, seen, (i: nat) => ReadMonthly(i), steps);
    steps := CrowdReads(e, g, g, n, c, FreeTurn, seen, done, (i: nat) => ReadDaily(i), steps);
  }

  /** For every key, overlap, cost and limit some run takes the key's daily row to exactly its bound. */
  lemma FreeOvershootBoundIsTight(e: Env, apiKey: nat) returns (g: Ledger, steps: seq<Step>, dk: DayKey)
    requires apiKey != 0 && 1 <= e.overlap(apiKey) && 1 <= e.cost(apiKey) && 1 <= e.limit(apiKey)
    ensures dk.apiKey == apiKey && DailyUsed(g, dk) <= e.limit(apiKey)
    ensures DailyUsed(Exec(e, Start(g), steps).ledger, dk)
         == e.limit(apiKey) + (e.overlap(apiKey) - 1) * e.FreeCost(apiKey)
  {
    var n, cost, limit := e.overlap(apiKey), e.FreeCost(apiKey), e.limit(apiKey);
    var c := Call(apiKey, cost, limit, JAN);
    var seen, done := FreeSeen(Some(limit - cost)), Finished(Free(0));
    g, dk := DayOf(apiKey, limit, cost, 0), DayKey(apiKey, JAN);
    steps := CrowdSeesDay(e, g, c, seen, done);
    forall i: nat | i < n
      ensures Exec(e, State(DayOf(apiKey, limit, cost, i), Crowd(n, i, done, seen, c)), [LockDaily(i), CommitDaily(i)])
           == State(DayOf(apiKey, limit, cost, i + 1), Crowd(n, i + 1, done, seen, c))
    {
      DailyTurn(e, apiKey, limit, cost, n, i);
    }
    steps := CrowdTakesTurns(e, g, (i: nat) => DayOf(apiKey, limit, cost, i), n, c, seen, done,
                             (i: nat) => [LockDaily(i), CommitDaily(i)], steps, n);
    assert Exec(e, Start(g), steps).ledger == DayOf(apiKey, limit, cost, n);
    assert n * cost == cost + (n - 1) * cost;
  }

  /** No run overdraws a monthly or daily row of the key that started sound. */
  ghost predicate NeverOverdraws(e: Env, apiKey: nat) {
    forall g: Ledger, steps: seq<Step>, mk: MonthKey, dk: DayKey ::
      mk.apiKey == dk.apiKey == apiKey && NotOverdrawn(e, g, mk, dk) ==>
        NotOverdrawn(e, Exec(e, Start(g), steps).ledger, mk, dk)
  }

  /**
   Overdraft of a key is impossible exactly when its own calls never overlap,
   whatever is purchased meanwhile and whatever other keys do.
   */
  lemma NeverOverdrawsIff(e: Env, apiKey: nat)
    requires apiKey != 0 && 1 <= e.overlap(apiKey) && 1 <= e.cost(apiKey)
    ensures NeverOverdraws(e, apiKey) <==> e.overlap(apiKey) == 1
  {
    if e.overlap(apiKey) == 1 {
      forall g: Ledger, steps: seq<Step>, mk: MonthKey, dk: DayKey
        | mk.apiKey == dk.apiKey == apiKey && NotOverdrawn(e, g, mk, dk)
        ensures NotOverdrawn(e, Exec(e, Start(g), steps).ledger, mk, dk)
      {
        NoOverlapNoOverdraft(e, g, steps, mk, dk);
      }
    } else {
      var g, steps, mk := OvershootBoundIsTight(e, apiKey);
      Scale(1, e.overlap(apiKey) - 1, e.cost(apiKey));
      var dk := DayKey(apiKey, JAN);
      assert NotOverdrawn(e, g, mk, dk) && !NotOverdrawn(e, Exec(e, Start(g), steps).ledger, mk, dk);
    }
  }
}
