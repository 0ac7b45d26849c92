/**
 Serialisability of the interleaved ledger.  When the calls of a key do not
 overlap, its rows and answers are those of the atomic ledger in some order,
 with purchases at any time and whatever other keys do; with overlap they may
 not be.  Keys share no rows, so the orders of all keys, one after the other,
 are an order of the whole run.
 */
module QuotaSerial {
  import opened Prelude
  import opened QuotaLedger
  import opened QuotaInterleaved

  /** What an atomic ledger is asked to do, with the answer it gave. */
  datatype Entry = Used(call: Call, result: Result) | Bought(mk: MonthKey, credits: nat)

  function KeyOf(x: Entry): nat { if x.Used? then x.call.apiKey else x.mk.apiKey }

  function ApplyEntry(g: Ledger, x: Entry): Ledger {
    match x
    case Used(c, _) => Consume(g, c).0
    case Bought(mk, credits) => AddCredits(g, mk, credits)
  }

  function Replay(g: Ledger, log: seq<Entry>): Ledger {
    if log == [] then g else ApplyEntry(Replay(g, Init(log)), Last(log))
  }

  /** The atomic ledger answers the entry as recorded. */
  predicate Answers(g: Ledger, x: Entry) { x.Used? ==> x.result == Consume(g, x.call).1 }

  /** Each call in the log was answered as the atomic ledger would have answered it there. */
  predicate Honest(g: Ledger, log: seq<Entry>) {
    log == [] || (Honest(g, Init(log)) && Answers(Replay(g, Init(log)), Last(log)))
  }

  /**
   The order in which what happened to one key is replayed: `settled` in that
   order, and then the purchases in `late`, each made while a call of the key
   had read the monthly row already.  Such a purchase counts after that call.
   Operations of one key that did not overlap stand in the order of time;
   nothing is said of the order between different keys, which share no row.
   */
  datatype Order = Order(settled: seq<Entry>, late: seq<Entry>) {
    function Log(): seq<Entry> { settled + late }
  }

  predicate PastRead(t: Txn, apiKey: nat) { t.InFlight() && !t.pc.Begun? && t.call.apiKey == apiKey }

  predicate SomePastRead(s: State, apiKey: nat) { exists i :: 0 <= i < |s.txns| && PastRead(s.txns[i], apiKey) }

  /** The order once a call has ended: its entry, if it finished, and then the purchases that waited for it. */
  function Ended(o: Order, t: Txn): Order {
    Order(o.settled + (if t.pc.Finished? then [Used(t.call, t.pc.result)] else []) + o.late, [])
  }

  /** How a step extends the order of a key. */
  function Extend(o: Order, e: Env, s: State, st: Step, apiKey: nat): Order
    requires Enabled(e, s, st)
  {
    match Mover(st)
    case Some(i) =>
      var t := Effect(e, s, st).txns[i];
      if t.call.apiKey == apiKey && !t.InFlight() then Ended(o, t) else o
    case None =>
      if !st.Buy? || st.mk.apiKey != apiKey then o
      else if SomePastRead(s, apiKey) then o.(late := o.late + [Bought(st.mk, st.credits)])
      else o.(settled := o.settled + [Bought(st.mk, st.credits)])
  }

  function OrderOf(e: Env, g: Ledger, steps: seq<Step>, apiKey: nat): Order {
    if steps == [] then Order([], [])
    else
      var (s, o) := (Exec(e, Start(g), Init(steps)), OrderOf(e, g, Init(steps), apiKey));
      if Enabled(e, s, Last(steps)) then Extend(o, e, s, Last(steps), apiKey) else o
  }

  // ----- replaying

  predicate OnlyPurchases(log: seq<Entry>) { forall i :: 0 <= i < |log| ==> log[i].Bought? }

  lemma ReplayOne(g: Ledger, log: seq<Entry>, x: Entry)
    ensures Replay(g, log + [x]) == ApplyEntry(Replay(g, log), x)
    ensures Honest(g, log + [x]) <==> Honest(g, log) && Answers(Replay(g, log), x)
  {
    assert Init(log + [x]) == log;
  }

  lemma {:induction false} ReplayAppend(g: Ledger, a: seq<Entry>, b: seq<Entry>)
    ensures Replay(g, a + b) == Replay(Replay(g, a), b)
    ensures Honest(g, a + b) <==> Honest(g, a) && Honest(Replay(g, a), b)
  {
    if b == [] {
      assert a + b == a;
    } else {
      ReplayAppend(g, a, Init(b));
      assert Init(a + b) == a + Init(b);
    }
  }

  lemma {:induction false} PurchasesAreHonest(g: Ledger, log: seq<Entry>)
    requires OnlyPurchases(log)
    ensures Honest(g, log)
  {
    if log == [] {
    } else {
      PurchasesAreHonest(g, Init(log));
      assert log[|log| - 1].Bought?;
    }
  }

  /** The rows of one key are the same in both ledgers. */
  ghost predicate SameRows(g: Ledger, h: Ledger, apiKey: nat) {
    && (forall mk: MonthKey :: mk.apiKey == apiKey ==> Get(g.monthly, mk) == Get(h.monthly, mk))
    && (forall dk: DayKey :: dk.apiKey == apiKey ==> Get(g.daily, dk) == Get(h.daily, dk))
  }

  lemma SameRowsTrans(a: Ledger, b: Ledger, c: Ledger, apiKey: nat)
    requires SameRows(a, b, apiKey) && SameRows(b, c, apiKey)
    ensures SameRows(a, c, apiKey) && SameRows(c, a, apiKey)
  {
  }

  /** Purchases touch no daily row and keep monthly rows. */
  lemma {:induction false} PurchasesKeep(g: Ledger, log: seq<Entry>)
    requires OnlyPurchases(log)
    ensures Replay(g, log).daily == g.daily
    ensures forall mk :: mk in g.monthly ==> mk in Replay(g, log).monthly
  {
    if log == [] {
    } else {
      PurchasesKeep(g, Init(log));
      assert log[|log| - 1].Bought?;
    }
  }

  lemma {:induction false} ChargeCommutes(g: Ledger, c: Call, log: seq<Entry>)
    requires OnlyPurchases(log) && c.Month() in g.monthly
    ensures c.Month() in Replay(g, log).monthly
    ensures Replay(ChargeMonth(g, c.Month(), c.Cost()), log) == ChargeMonth(Replay(g, log), c.Month(), c.Cost())
  {
    if log == [] {
    } else {
      ChargeCommutes(g, c, Init(log));
      assert log[|log| - 1].Bought?;
      SwapCharge(Replay(g, Init(log)), c.Month(), c.Cost(), Last(log).mk, Last(log).credits);
    }
  }

  lemma SwapCharge(g: Ledger, mk: MonthKey, cost: int, bought: MonthKey, credits: nat)
    requires mk in g.monthly
    ensures mk in AddCredits(g, bought, credits).monthly
    ensures AddCredits(ChargeMonth(g, mk, cost), bought, credits)
         == ChargeMonth(AddCredits(g, bought, credits), mk, cost)
  {
    var a := AddCredits(ChargeMonth(g, mk, cost), bought, credits);
    var b := ChargeMonth(AddCredits(g, bought, credits), mk, cost);
    assert a.monthly.Keys == b.monthly.Keys;
    assert forall k :: k in a.monthly ==> a.monthly[k] == b.monthly[k];
  }

  /** Purchases can be replayed whatever the daily rows are. */
  lemma {:induction false} DailyRowsAreApart(g: Ledger, daily: map<DayKey, nat>, log: seq<Entry>)
    requires OnlyPurchases(log)
    ensures Replay(g.(daily := daily), log) == Replay(g, log).(daily := daily)
  {
    if log == [] {
    } else {
      DailyRowsAreApart(g, daily, Init(log));
      assert log[|log| - 1].Bought?;
    }
  }

  lemma DailyChargeCommutes(g: Ledger, c: Call, log: seq<Entry>)
    requires OnlyPurchases(log)
    ensures Replay(ChargeDay(g, c.DayRow(), c.Cost()), log) == ChargeDay(Replay(g, log), c.DayRow(), c.Cost())
  {
    PurchasesKeep(g, log);
    DailyRowsAreApart(g, ChargeDay(g, c.DayRow(), c.Cost()).daily, log);
  }

  // ----- what a transaction remembers

  /** What a transaction remembers is what the rows say. */
  predicate Current(g: Ledger, t: Txn) {
    var c := t.call;
    match t.pc
    case PaidSeen(remaining) => PaidCovers(g, c) && remaining == PaidLeft(g, c.Month())
    case PaidLocked(remaining) => PaidCovers(g, c) && remaining == PaidLeft(g, c.Month())
    case FreeTurn => !PaidCovers(g, c)
    case FreeSeen(row) => FreeDecided(g, c) && row == Get(g.daily, c.DayRow())
    case FreeLocked(row) => FreeDecided(g, c) && row == Get(g.daily, c.DayRow())
    case _ => true
  }

  predicate FreeDecided(g: Ledger, c: Call) {
    !PaidCovers(g, c) && 0 < c.limit && c.apiKey != 0 && DailyUsed(g, c.DayRow()) + c.Cost() <= c.limit
  }

  lemma CurrentOnSameRows(g: Ledger, h: Ledger, t: Txn)
    requires SameRows(g, h, t.call.apiKey) && Current(g, t)
    ensures Current(h, t)
  {
    assert Get(g.monthly, t.call.Month()) == Get(h.monthly, t.call.Month());
    assert Get(g.daily, t.call.DayRow()) == Get(h.daily, t.call.DayRow());
  }

  /** At most one call of the key is in flight; calls without a key are not counted. */
  predicate OneAtATime(s: State, apiKey: nat) { apiKey != 0 ==> Sum(s.txns, Busy(apiKey)) <= 1 }

  lemma OnlyOneInFlight(s: State, apiKey: nat, i: nat, j: nat)
    requires apiKey != 0 && OneAtATime(s, apiKey) && At(s, i) && At(s, j) && i != j
    requires s.txns[i].InFlight() && s.txns[i].call.apiKey == apiKey == s.txns[j].call.apiKey
    ensures !s.txns[j].InFlight()
  {
    var out := Txn(s.txns[i].call, Aborted);
    SumUpdate(s.txns, Busy(apiKey), i, out);
    SumNonnegative(s.txns[i := out], Busy(apiKey));
    assert Busy(apiKey)(s.txns[i := out][j]) <= 0;
  }

  /** The calls of the key remember what the rows of this ledger say. */
  predicate AllCurrent(g: Ledger, s: State, apiKey: nat) {
    forall i :: 0 <= i < |s.txns| && s.txns[i].call.apiKey == apiKey ==> Current(g, s.txns[i])
  }

  /**
   What every run keeps for a key without overlap, with the settled part of
   its order as the ledger its call in flight has decided on.
   */
  ghost predicate Serial(g: Ledger, s: State, o: Order, apiKey: nat) {
    && OneAtATime(s, apiKey)
    && OnlyPurchases(o.late) && (o.late == [] || (apiKey != 0 && SomePastRead(s, apiKey)))
    && Honest(g, o.settled)
    && SameRows(s.ledger, Replay(Replay(g, o.settled), o.late), apiKey)
    && AllCurrent(Replay(g, o.settled), s, apiKey)
  }

  // ----- steps of other keys

  /** Whose rows a step may touch. */
  function Owner(s: State, st: Step): nat
    requires Mover(st).Some? ==> At(s, Mover(st).value)
  {
    match st
    case Begin(c) => c.apiKey
    case Buy(mk, _) => mk.apiKey
    case _ => s.txns[Mover(st).value].call.apiKey
  }

  lemma OneAtATimeStep(e: Env, s: State, st: Step, apiKey: nat)
    requires apiKey == 0 || e.overlap(apiKey) <= 1
    requires OneAtATime(s, apiKey) && (apiKey != 0 ==> Sum(s.txns, Busy(apiKey)) <= e.overlap(apiKey))
    ensures OneAtATime(Next(e, s, st), apiKey)
  {
    if apiKey != 0 {
      BusyStep(e, s, st, apiKey);
    }
  }

  lemma OthersLeaveRows(e: Env, s: State, st: Step, apiKey: nat)
    requires Enabled(e, s, st) && Owner(s, st) != apiKey
    ensures SameRows(Effect(e, s, st).ledger, s.ledger, apiKey)
  {
  }

  lemma MoverKeepsCall(e: Env, s: State, st: Step, i: nat)
    requires Enabled(e, s, st) && Mover(st) == Some(i)
    ensures At(s, i) && s.txns[i].InFlight()
    ensures Effect(e, s, st).txns == s.txns[i := Effect(e, s, st).txns[i]]
    ensures Effect(e, s, st).txns[i].call == s.txns[i].call
  {
  }

  lemma PastReadStays(e: Env, s: State, st: Step, apiKey: nat)
    requires Enabled(e, s, st) && SomePastRead(s, apiKey)
    requires Owner(s, st) != apiKey || (Mover(st).Some? ==> Effect(e, s, st).txns[Mover(st).value].InFlight())
    ensures SomePastRead(Effect(e, s, st), apiKey)
  {
    var h := Effect(e, s, st);
    var j :| 0 <= j < |s.txns| && PastRead(s.txns[j], apiKey);
    assert PastRead(h.txns[j], apiKey);
  }

  lemma StrangerStep(e: Env, g: Ledger, s: State, st: Step, o: Order, apiKey: nat)
    requires Serial(g, s, o, apiKey) && Enabled(e, s, st) && Owner(s, st) != apiKey
    requires OneAtATime(Effect(e, s, st), apiKey)
    ensures Extend(o, e, s, st, apiKey) == o && Serial(g, Effect(e, s, st), o, apiKey)
  {
    var h, base := Effect(e, s, st), Replay(g, o.settled);
    OthersLeaveRows(e, s, st, apiKey);
    SameRowsTrans(h.ledger, s.ledger, Replay(base, o.late), apiKey);
    if Mover(st).Some? {
      MoverKeepsCall(e, s, st, Mover(st).value);
    }
    if o.late != [] {
      PastReadStays(e, s, st, apiKey);
    }
  }

  // ----- steps of the key

  /** A call that has not read yet meets no late purchase. */
  lemma NothingLateBeforeRead(g: Ledger, s: State, o: Order, apiKey: nat, i: nat)
    requires Serial(g, s, o, apiKey) && At(s, i) && s.txns[i].pc.Begun? && s.txns[i].call.apiKey == apiKey
    ensures o.late == []
  {
    if o.late != [] {
      var j :| 0 <= j < |s.txns| && PastRead(s.txns[j], apiKey);
      OnlyOneInFlight(s, apiKey, i, j);
    }
  }

  /** The moving transaction remembers what the rows it decided on say. */
  lemma MoverIsCurrent(e: Env, g: Ledger, s: State, st: Step, o: Order, apiKey: nat, i: nat)
    requires Serial(g, s, o, apiKey) && Enabled(e, s, st) && Mover(st) == Some(i) && s.txns[i].call.apiKey == apiKey
    ensures Current(Replay(g, o.settled), Effect(e, s, st).txns[i])
  {
    var base, t := Replay(g, o.settled), Effect(e, s, st).txns[i];
    assert Current(base, s.txns[i]);
    if st.ReadMonthly? {
      NothingLateBeforeRead(g, s, o, apiKey, i);
      CurrentOnSameRows(s.ledger, base, t);
    } else if st.ReadDaily? {
      PurchasesKeep(base, o.late);
      assert Get(s.ledger.daily, t.call.DayRow()) == Get(base.daily, t.call.DayRow());
    }
  }

  lemma ChargeSameRows(g: Ledger, h: Ledger, c: Call)
    requires SameRows(g, h, c.apiKey)
    ensures c.Month() in g.monthly <==> c.Month() in h.monthly
    ensures c.Month() in g.monthly ==>
              SameRows(ChargeMonth(g, c.Month(), c.Cost()), ChargeMonth(h, c.Month(), c.Cost()), c.apiKey)
    ensures SameRows(ChargeDay(g, c.DayRow(), c.Cost()), ChargeDay(h, c.DayRow(), c.Cost()), c.apiKey)
  {
    assert Get(g.monthly, c.Month()) == Get(h.monthly, c.Month());
    assert Get(g.daily, c.DayRow()) == Get(h.daily, c.DayRow());
  }

  /** Whoever finishes gets the atomic answer on the settled ledger; its charge commutes with late purchases. */
  lemma FinishesAtomically(e: Env, g: Ledger, s: State, st: Step, o: Order, apiKey: nat, i: nat)
    requires Serial(g, s, o, apiKey) && Enabled(e, s, st) && Mover(st) == Some(i) && s.txns[i].call.apiKey == apiKey
    requires Effect(e, s, st).txns[i].pc.Finished?
    ensures var (base, c) := (Replay(g, o.settled), s.txns[i].call);
            && Effect(e, s, st).txns[i].pc.result == Consume(base, c).1
            && SameRows(Effect(e, s, st).ledger, Replay(Consume(base, c).0, o.late), apiKey)
  {
    var base, c := Replay(g, o.settled), s.txns[i].call;
    assert Current(base, s.txns[i]);
    PurchasesKeep(base, o.late);
    if st.CommitMonthly? {
      ChargeSameRows(s.ledger, Replay(base, o.late), c);
      ChargeCommutes(base, c, o.late);
    } else if st.CommitDaily? {
      ChargeSameRows(s.ledger, Replay(base, o.late), c);
      DailyChargeCommutes(base, c, o.late);
    } else {
      assert Get(s.ledger.daily, c.DayRow()) == Get(base.daily, c.DayRow());
    }
  }

  lemma UnfinishedKeepsLedger(e: Env, s: State, st: Step, i: nat)
    requires Enabled(e, s, st) && Mover(st) == Some(i) && !Effect(e, s, st).txns[i].pc.Finished?
    ensures Effect(e, s, st).ledger == s.ledger
  {
  }

  lemma KeylessLeaveNothing(g: Ledger, c: Call)
    requires c.apiKey == 0
    ensures Consume(g, c).0 == g
  {
  }

  /** The settled ledger once a call has ended. */
  lemma EndedIsReplayed(e: Env, g: Ledger, s: State, st: Step, o: Order, apiKey: nat, i: nat, t: Txn)
    requires Serial(g, s, o, apiKey) && Enabled(e, s, st) && Mover(st) == Some(i) && s.txns[i].call.apiKey == apiKey
    requires t == Effect(e, s, st).txns[i] && !t.InFlight() && t.call == s.txns[i].call
    ensures Honest(g, Ended(o, t).settled)
    ensures SameRows(Effect(e, s, st).ledger, Replay(g, Ended(o, t).settled), apiKey)
    ensures apiKey == 0 ==> Replay(g, Ended(o, t).settled) == Replay(g, o.settled)
  {
    var first := o.settled + (if t.pc.Finished? then [Used(t.call, t.pc.result)] else []);
    if t.pc.Finished? {
      FinishesAtomically(e, g, s, st, o, apiKey, i);
      ReplayOne(g, o.settled, Used(t.call, t.pc.result));
    } else {
      UnfinishedKeepsLedger(e, s, st, i);
      assert first == o.settled;
    }
    ReplayAppend(g, first, o.late);
    PurchasesAreHonest(Replay(g, first), o.late);
    if apiKey == 0 {
      KeylessLeaveNothing(Replay(g, o.settled), t.call);
    }
  }

  /** A call of the key ends: its entry is settled, if it finished, and its late purchases after it. */
  lemma EndingStep(e: Env, g: Ledger, s: State, st: Step, o: Order, apiKey: nat, i: nat)
    requires Serial(g, s, o, apiKey) && Enabled(e, s, st) && Mover(st) == Some(i) && s.txns[i].call.apiKey == apiKey
    requires OneAtATime(Effect(e, s, st), apiKey) && !Effect(e, s, st).txns[i].InFlight()
    ensures Serial(g, Effect(e, s, st), Extend(o, e, s, st, apiKey), apiKey)
  {
    var h, t := Effect(e, s, st), Effect(e, s, st).txns[i];
    var after := Ended(o, t);
    MoverKeepsCall(e, s, st, i);
    EndedIsReplayed(e, g, s, st, o, apiKey, i, t);
    forall j: nat | j < |h.txns| && h.txns[j].call.apiKey == apiKey
      ensures Current(Replay(g, after.settled), h.txns[j])
    {
      if j != i && apiKey != 0 {
        OnlyOneInFlight(s, apiKey, i, j);
      }
    }
  }

  /** A call of the key goes on without ending. */
  lemma MovingStep(e: Env, g: Ledger, s: State, st: Step, o: Order, apiKey: nat, i: nat)
    requires Serial(g, s, o, apiKey) && Enabled(e, s, st) && Mover(st) == Some(i) && s.txns[i].call.apiKey == apiKey
    requires OneAtATime(Effect(e, s, st), apiKey) && Effect(e, s, st).txns[i].InFlight()
    ensures Serial(g, Effect(e, s, st), Extend(o, e, s, st, apiKey), apiKey)
  {
    MoverKeepsCall(e, s, st, i);
    UnfinishedKeepsLedger(e, s, st, i);
    MoverIsCurrent(e, g, s, st, o, apiKey, i);
    if o.late != [] {
      PastReadStays(e, s, st, apiKey);
    }
  }

  lemma BeginStep(e: Env, g: Ledger, s: State, c: Call, o: Order)
    requires Serial(g, s, o, c.apiKey) && Enabled(e, s, Begin(c)) && OneAtATime(Effect(e, s, Begin(c)), c.apiKey)
    ensures Serial(g, Effect(e, s, Begin(c)), o, c.apiKey)
  {
    if o.late != [] {
      PastReadStays(e, s, Begin(c), c.apiKey);
    }
  }

  lemma PurchaseSameRows(g: Ledger, h: Ledger, mk: MonthKey, credits: nat)
    requires SameRows(g, h, mk.apiKey)
    ensures SameRows(AddCredits(g, mk, credits), AddCredits(h, mk, credits), mk.apiKey)
  {
    assert Get(g.monthly, mk) == Get(h.monthly, mk);
  }

  /** A purchase while a call of the key is past its read waits for that call. */
  lemma LatePurchaseStep(e: Env, g: Ledger, s: State, mk: MonthKey, credits: nat, o: Order)
    requires Serial(g, s, o, mk.apiKey) && mk.apiKey != 0 && SomePastRead(s, mk.apiKey)
    ensures Serial(g, Effect(e, s, Buy(mk, credits)), o.(late := o.late + [Bought(mk, credits)]), mk.apiKey)
  {
    PurchaseSameRows(s.ledger, Replay(Replay(g, o.settled), o.late), mk, credits);
    ReplayOne(Replay(g, o.settled), o.late, Bought(mk, credits));
  }

  /** Any other purchase is settled at once; calls that have not read yet will see it. */
  lemma PromptPurchaseStep(e: Env, g: Ledger, s: State, mk: MonthKey, credits: nat, o: Order)
    requires Serial(g, s, o, mk.apiKey) && mk.apiKey != 0 && !SomePastRead(s, mk.apiKey)
    ensures Serial(g, Effect(e, s, Buy(mk, credits)), o.(settled := o.settled + [Bought(mk, credits)]), mk.apiKey)
  {
    var base := Replay(g, o.settled);
    PurchaseSameRows(s.ledger, base, mk, credits);
    ReplayOne(g, o.settled, Bought(mk, credits));
    forall j: nat | j < |s.txns| && s.txns[j].call.apiKey == mk.apiKey
      ensures Current(AddCredits(base, mk, credits), s.txns[j])
    {
      assert !PastRead(s.txns[j], mk.apiKey);
    }
  }

  lemma SerialStep(e: Env, g: Ledger, s: State, st: Step, o: Order, apiKey: nat)
    requires Serial(g, s, o, apiKey) && Enabled(e, s, st) && OneAtATime(Effect(e, s, st), apiKey)
    ensures Serial(g, Effect(e, s, st), Extend(o, e, s, st, apiKey), apiKey)
  {
    if Owner(s, st) != apiKey {
      StrangerStep(e, g, s, st, o, apiKey);
    } else {
      match Mover(st)
      case Some(i) =>
        if Effect(e, s, st).txns[i].InFlight() {
          MovingStep(e, g, s, st, o, apiKey, i);
        } else {
          EndingStep(e, g, s, st, o, apiKey, i);
        }
      case None =>
        if st.Begin? {
          BeginStep(e, g, s, st.call, o);
        } else if SomePastRead(s, apiKey) {
          LatePurchaseStep(e, g, s, st.mk, st.credits, o);
        } else {
          PromptPurchaseStep(e, g, s, st.mk, st.credits, o);
        }
    }
  }

  lemma {:induction false} StaysSerial(e: Env, g: Ledger, steps: seq<Step>, apiKey: nat)
    requires apiKey == 0 || e.overlap(apiKey) <= 1
    ensures Serial(g, Exec(e, Start(g), steps), OrderOf(e, g, steps, apiKey), apiKey)
    ensures apiKey != 0 ==> Sum(Exec(e, Start(g), steps).txns, Busy(apiKey)) <= e.overlap(apiKey)
  {
    if steps == [] {
    } else {
      var s, o, st := Exec(e, Start(g), Init(steps)), OrderOf(e, g, Init(steps), apiKey), Last(steps);
      StaysSerial(e, g, Init(steps), apiKey);
      OneAtATimeStep(e, s, st, apiKey);
      if apiKey != 0 {
        BusyStep(e, s, st, apiKey);
      }
      if Enabled(e, s, st) {
        SerialStep(e, g, s, st, o, apiKey);
      }
    }
  }

  // ----- the order leaves nothing out

  function Is(x: Entry): Entry -> int { (y: Entry) => if y == x then 1 else 0 }

  function Occurs(log: seq<Entry>, x: Entry): int { Sum(log, Is(x)) }

  /** The transaction finished with this call and this answer. */
  function Answered(x: Entry): Txn -> int {
    (t: Txn) => if t.pc.Finished? && Used(t.call, t.pc.result) == x then 1 else 0
  }

  /** How often a run of steps makes this purchase. */
  function TimesBought(e: Env, g: Ledger, steps: seq<Step>, x: Entry): nat {
    if steps == [] then 0
    else
      var st := Last(steps);
      TimesBought(e, g, Init(steps), x)
      + if st.Buy? && Enabled(e, Exec(e, Start(g), Init(steps)), st) && Bought(st.mk, st.credits) == x then 1 else 0
  }

  /** How often a run of steps gives this answer to this call, or makes this purchase. */
  function Happened(e: Env, g: Ledger, steps: seq<Step>, x: Entry): int {
    Sum(Exec(e, Start(g), steps).txns, Answered(x)) + TimesBought(e, g, steps, x)
  }

  lemma {:induction false} OccursConcat(a: seq<Entry>, b: seq<Entry>, x: Entry)
    ensures Occurs(a + b, x) == Occurs(a, x) + Occurs(b, x)
  {
    if b == [] {
      assert a + b == a;
    } else {
      OccursConcat(a, Init(b), x);
      assert Init(a + b) == a + Init(b);
    }
  }

  lemma OccursOnce(y: Entry, x: Entry)
    ensures Occurs([y], x) == if y == x then 1 else 0
  {
    SumAppend([], Is(x), y);
    assert [] + [y] == [y];
  }

  lemma EndedCounts(o: Order, t: Txn, x: Entry)
    ensures Occurs(Ended(o, t).Log(), x)
         == Occurs(o.Log(), x) + if t.pc.Finished? && Used(t.call, t.pc.result) == x then 1 else 0
  {
    var mine := if t.pc.Finished? then [Used(t.call, t.pc.result)] else [];
    if t.pc.Finished? {
      OccursOnce(Used(t.call, t.pc.result), x);
    }
    OccursConcat(o.settled, mine, x);
    OccursConcat(o.settled + mine, o.late, x);
    OccursConcat(o.settled, o.late, x);
    assert o.settled + mine + o.late + [] == o.settled + mine + o.late;
  }

  lemma PurchaseCounts(o: Order, y: Entry, x: Entry)
    ensures var more := Occurs(o.Log(), x) + if y == x then 1 else 0;
            && Occurs(o.(settled := o.settled + [y]).Log(), x) == more
            && Occurs(o.(late := o.late + [y]).Log(), x) == more
  {
    OccursOnce(y, x);
    OccursConcat(o.settled, o.late, x);
    OccursConcat(o.settled, [y], x);
    OccursConcat(o.settled + [y], o.late, x);
    OccursConcat(o.late, [y], x);
    OccursConcat(o.settled, o.late + [y], x);
  }

  /**
   The order of a key is one of exactly what happened to it: each answered
   call and each purchase of the key stands in it as often as it occurred,
   and nothing else does.
   */
  lemma {:induction false} OrderIsComplete(e: Env, g: Ledger, steps: seq<Step>, apiKey: nat, x: Entry)
    ensures Occurs(OrderOf(e, g, steps, apiKey).Log(), x)
         == if KeyOf(x) == apiKey then Happened(e, g, steps, x) else 0
  {
    if steps == [] {
    } else {
      var s, o, st := Exec(e, Start(g), Init(steps)), OrderOf(e, g, Init(steps), apiKey), Last(steps);
      OrderIsComplete(e, g, Init(steps), apiKey, x);
      if Enabled(e, s, st) {
        HappenedStep(e, g, steps, x);
        ExtendCounts(o, e, s, st, apiKey, x);
      }
    }
  }

  /** What a step adds to the answers and purchases that happened. */
  function Adds(e: Env, s: State, st: Step, x: Entry): int
    requires Enabled(e, s, st)
  {
    match Mover(st)
    case Some(i) => Answered(x)(Effect(e, s, st).txns[i]) - Answered(x)(s.txns[i])
    case None => if st.Buy? && Bought(st.mk, st.credits) == x then 1 else 0
  }

  lemma HappenedStep(e: Env, g: Ledger, steps: seq<Step>, x: Entry)
    requires steps != [] && Enabled(e, Exec(e, Start(g), Init(steps)), Last(steps))
    ensures Happened(e, g, steps, x)
         == Happened(e, g, Init(steps), x) + Adds(e, Exec(e, Start(g), Init(steps)), Last(steps), x)
  {
    SumsMove(e, Exec(e, Start(g), Init(steps)), Last(steps), Answered(x));
  }

  lemma ExtendCounts(o: Order, e: Env, s: State, st: Step, apiKey: nat, x: Entry)
    requires Enabled(e, s, st)
    ensures Occurs(Extend(o, e, s, st, apiKey).Log(), x)
         == Occurs(o.Log(), x) + if KeyOf(x) == apiKey then Adds(e, s, st, x) else 0
  {
    match Mover(st)
    case Some(i) =>
      var t := Effect(e, s, st).txns[i];
      MoverKeepsCall(e, s, st, i);
      EndedCounts(o, t, x);
      assert Adds(e, s, st, x) == Answered(x)(t);
    case None =>
      if st.Buy? {
        PurchaseCounts(o, Bought(st.mk, st.credits), x);
      }
  }

  // ----- serialisability of a key

  /**
   An order of exactly what happened to a key in a run, in which the atomic
   ledger ends with the same rows of the key and gives the same answers.
   */
  ghost predicate SerialOrder(e: Env, g: Ledger, steps: seq<Step>, apiKey: nat, log: seq<Entry>) {
    && SameRows(Exec(e, Start(g), steps).ledger, Replay(g, log), apiKey)
    && Honest(g, log)
    && forall x: Entry :: Occurs(log, x) == if KeyOf(x) == apiKey then Happened(e, g, steps, x) else 0
  }

  /**
   A key whose own calls do not overlap is serialisable in every run, with
   purchases at any time and whatever other keys do; so are the calls without
   a key, however they overlap.
   */
  lemma SerialKeyIsAtomic(e: Env, g: Ledger, steps: seq<Step>, apiKey: nat)
    requires apiKey == 0 || e.overlap(apiKey) <= 1
    ensures SerialOrder(e, g, steps, apiKey, OrderOf(e, g, steps, apiKey).Log())
  {
    var o := OrderOf(e, g, steps, apiKey);
    StaysSerial(e, g, steps, apiKey);
    ReplayAppend(g, o.settled, o.late);
    PurchasesAreHonest(Replay(g, o.settled), o.late);
    forall x: Entry ensures Occurs(o.Log(), x) == if KeyOf(x) == apiKey then Happened(e, g, steps, x) else 0 {
      OrderIsComplete(e, g, steps, apiKey, x);
    }
  }

  lemma {:induction false} AtomicNeverOverdraws(g: Ledger, log: seq<Entry>, mk: MonthKey)
    requires PaidLeft(g, mk) >= 0
    ensures PaidLeft(Replay(g, log), mk) >= 0
  {
    if log == [] {
    } else {
      AtomicNeverOverdraws(g, Init(log), mk);
    }
  }

  ghost predicate HasSerialOrder(e: Env, g: Ledger, steps: seq<Step>, apiKey: nat) {
    exists log: seq<Entry> :: SerialOrder(e, g, steps, apiKey, log)
  }

  ghost predicate Serialisable(e: Env, apiKey: nat) {
    forall g: Ledger, steps: seq<Step> :: HasSerialOrder(e, g, steps, apiKey)
  }

  /** A key is serialisable in every run exactly when its own calls do not overlap; the overdrawn runs are not. */
  lemma SerialisableIff(e: Env, apiKey: nat)
    requires apiKey != 0 && 1 <= e.overlap(apiKey) && 1 <= e.cost(apiKey)
    ensures Serialisable(e, apiKey) <==> e.overlap(apiKey) == 1
  {
    if e.overlap(apiKey) == 1 {
      forall g: Ledger, steps: seq<Step> ensures HasSerialOrder(e, g, steps, apiKey) {
        SerialKeyIsAtomic(e, g, steps, apiKey);
      }
    } else {
      var g, steps, mk := OvershootBoundIsTight(e, apiKey);
      Scale(1, e.overlap(apiKey) - 1, e.cost(apiKey));
      var h := Exec(e, Start(g), steps).ledger;
      assert PaidLeft(h, mk) < 0;
      forall log: seq<Entry> ensures !SerialOrder(e, g, steps, apiKey, log) {
        AtomicNeverOverdraws(g, log, mk);
        assert Get(h.monthly, mk) != Get(Replay(g, log).monthly, mk);
      }
      assert !HasSerialOrder(e, g, steps, apiKey);
    }
  }

  // ----- serialisability of a whole run

  function StepKey(st: Step): Option<nat> {
    match st
    case Begin(c) => Some(c.apiKey)
    case Buy(mk, _) => Some(mk.apiKey)
    case _ => None
  }

  /** The keys a run of steps may be about, each once. */
  function KeysOf(steps: seq<Step>): seq<nat> {
    if steps == [] then []
    else
      var keys, k := KeysOf(Init(steps)), StepKey(Last(steps));
      if k.Some? && k.value !in keys then keys + [k.value] else keys
  }

  /** The orders of these keys, one after the other. */
  function OrdersOf(e: Env, g: Ledger, steps: seq<Step>, keys: seq<nat>): seq<Entry> {
    if keys == [] then []
    else OrdersOf(e, g, steps, Init(keys)) + OrderOf(e, g, steps, Last(keys)).Log()
  }

  predicate Distinct(keys: seq<nat>) { forall i, j :: 0 <= i < j < |keys| ==> keys[i] != keys[j] }

  lemma {:induction false} KeysAreDistinct(steps: seq<Step>)
    ensures Distinct(KeysOf(steps))
  {
    if steps == [] {
    } else {
      KeysAreDistinct(Init(steps));
    }
  }

  lemma {:induction false} CallersAreKnown(e: Env, g: Ledger, steps: seq<Step>, i: nat)
    requires i < |Exec(e, Start(g), steps).txns|
    ensures Exec(e, Start(g), steps).txns[i].call.apiKey in KeysOf(steps)
  {
    var s, st := Exec(e, Start(g), Init(steps)), Last(steps);
    if i < |s.txns| {
      CallersAreKnown(e, g, Init(steps), i);
      if Enabled(e, s, st) && Mover(st).Some? {
        MoverKeepsCall(e, s, st, Mover(st).value);
      }
    }
  }

  lemma {:induction false} UnknownKeyHasNoOrder(e: Env, g: Ledger, steps: seq<Step>, apiKey: nat)
    requires apiKey !in KeysOf(steps)
    ensures OrderOf(e, g, steps, apiKey) == Order([], [])
  {
    if steps == [] {
    } else {
      var s, st := Exec(e, Start(g), Init(steps)), Last(steps);
      UnknownKeyHasNoOrder(e, g, Init(steps), apiKey);
      if Enabled(e, s, st) && Mover(st).Some? {
        MoverKeepsCall(e, s, st, Mover(st).value);
        CallersAreKnown(e, g, Init(steps), Mover(st).value);
      }
    }
  }

  predicate OnlyOf(log: seq<Entry>, apiKey: nat) { forall i :: 0 <= i < |log| ==> KeyOf(log[i]) == apiKey }

  lemma {:induction false} OrderIsOfItsKey(e: Env, g: Ledger, steps: seq<Step>, apiKey: nat)
    ensures OnlyOf(OrderOf(e, g, steps, apiKey).Log(), apiKey)
  {
    if steps == [] {
    } else {
      OrderIsOfItsKey(e, g, Init(steps), apiKey);
      var o := OrderOf(e, g, Init(steps), apiKey);
      assert OnlyOf(o.settled, apiKey) by {
        assert forall i :: 0 <= i < |o.settled| ==> o.Log()[i] == o.settled[i];
      }
      assert OnlyOf(o.late, apiKey) by {
        assert forall i :: 0 <= i < |o.late| ==> o.Log()[|o.settled| + i] == o.late[i];
      }
    }
  }

  lemma EntrySameRows(g: Ledger, h: Ledger, x: Entry)
    requires SameRows(g, h, KeyOf(x))
    ensures SameRows(ApplyEntry(g, x), ApplyEntry(h, x), KeyOf(x))
    ensures Answers(g, x) <==> Answers(h, x)
  {
    match x
    case Used(c, _) =>
      ChargeSameRows(g, h, c);
      assert Get(g.monthly, c.Month()) == Get(h.monthly, c.Month());
      assert Get(g.daily, c.DayRow()) == Get(h.daily, c.DayRow());
    case Bought(mk, credits) => PurchaseSameRows(g, h, mk, credits);
  }

  lemma EntryKeepsOtherRows(g: Ledger, x: Entry, apiKey: nat)
    requires KeyOf(x) != apiKey
    ensures SameRows(ApplyEntry(g, x), g, apiKey)
  {
  }

  /** A log of one key runs alike on ledgers that agree on the key, and leaves other keys alone. */
  lemma {:induction false} ReplaySameRows(g: Ledger, h: Ledger, log: seq<Entry>, apiKey: nat)
    requires OnlyOf(log, apiKey) && SameRows(g, h, apiKey)
    ensures SameRows(Replay(g, log), Replay(h, log), apiKey)
    ensures Honest(g, log) <==> Honest(h, log)
    ensures forall k :: k != apiKey ==> SameRows(Replay(g, log), g, k)
  {
    if log == [] {
    } else {
      var x := log[|log| - 1];
      ReplaySameRows(g, h, Init(log), apiKey);
      EntrySameRows(Replay(g, Init(log)), Replay(h, Init(log)), x);
      forall k | k != apiKey ensures SameRows(Replay(g, log), g, k) {
        EntryKeepsOtherRows(Replay(g, Init(log)), x, k);
        SameRowsTrans(Replay(g, log), Replay(g, Init(log)), g, k);
      }
    }
  }

  /** The orders of distinct keys, one after the other, do for each key what its own order does. */
  lemma {:induction false} OrdersCompose(e: Env, g: Ledger, steps: seq<Step>, keys: seq<nat>)
    requires Distinct(keys) && forall k :: k != 0 ==> e.overlap(k) <= 1
    ensures var (log, h) := (OrdersOf(e, g, steps, keys), Exec(e, Start(g), steps).ledger);
            && Honest(g, log)
            && (forall k :: SameRows(Replay(g, log), if k in keys then h else g, k))
            && (forall x :: Occurs(log, x) == if KeyOf(x) in keys then Happened(e, g, steps, x) else 0)
  {
    if keys == [] {
    } else {
      var k, front, h := Last(keys), OrdersOf(e, g, steps, Init(keys)), Exec(e, Start(g), steps).ledger;
      var own, mid := OrderOf(e, g, steps, k).Log(), Replay(g, front);
      assert keys == Init(keys) + [k] && k !in Init(keys);
      OrdersCompose(e, g, steps, Init(keys));
      SerialKeyIsAtomic(e, g, steps, k);
      OrderIsOfItsKey(e, g, steps, k);
      ReplaySameRows(mid, g, own, k);
      ReplayAppend(g, front, own);
      forall q ensures SameRows(Replay(mid, own), if q in keys then h else g, q) {
        if q == k {
          SameRowsTrans(Replay(mid, own), Replay(g, own), h, q);
        } else {
          SameRowsTrans(Replay(mid, own), mid, if q in keys then h else g, q);
        }
      }
      forall x ensures Occurs(front + own, x) == if KeyOf(x) in keys then Happened(e, g, steps, x) else 0 {
        OccursConcat(front, own, x);
      }
    }
  }

  lemma SameLedger(g: Ledger, h: Ledger)
    requires forall k :: SameRows(g, h, k)
    ensures g == h
  {
    forall mk: MonthKey ensures Get(g.monthly, mk) == Get(h.monthly, mk) {
      assert SameRows(g, h, mk.apiKey);
    }
    forall dk: DayKey ensures Get(g.daily, dk) == Get(h.daily, dk) {
      assert SameRows(g, h, dk.apiKey);
    }
    SameMap(g.monthly, h.monthly);
    SameMap(g.daily, h.daily);
  }

  lemma SameMap<K, V>(a: map<K, V>, b: map<K, V>)
    requires forall k :: Get(a, k) == Get(b, k)
    ensures a == b
  {
    assert forall k :: k in a ==> Get(a, k) == Some(a[k]);
    assert forall k :: k in b ==> Get(b, k) == Some(b[k]);
  }

  /** An order of exactly what happened in the whole run, in which the atomic ledger does the same. */
  ghost predicate WholeOrder(e: Env, g: Ledger, steps: seq<Step>, log: seq<Entry>) {
    && Exec(e, Start(g), steps).ledger == Replay(g, log)
    && Honest(g, log)
    && forall x: Entry :: Occurs(log, x) == Happened(e, g, steps, x)
  }

  /**
   When the calls of no key overlap, every interleaving of the keys, with
   purchases at any time and calls without a key overlapping freely, is
   serialisable as a whole.
   */
  lemma SerialKeysAreAtomic(e: Env, g: Ledger, steps: seq<Step>)
    requires forall k :: k != 0 ==> e.overlap(k) <= 1
    ensures WholeOrder(e, g, steps, OrdersOf(e, g, steps, KeysOf(steps)))
  {
    var keys, h := KeysOf(steps), Exec(e, Start(g), steps).ledger;
    var log := OrdersOf(e, g, steps, keys);
    KeysAreDistinct(steps);
    OrdersCompose(e, g, steps, keys);
    forall k ensures SameRows(h, Replay(g, log), k) {
      if k !in keys {
        UnknownKeyHasNoOrder(e, g, steps, k);
        SerialKeyIsAtomic(e, g, steps, k);
        SameRowsTrans(h, g, Replay(g, log), k);
      }
    }
    SameLedger(h, Replay(g, log));
    forall x: Entry ensures Occurs(log, x) == Happened(e, g, steps, x) {
      if KeyOf(x) !in keys {
        UnknownKeyHasNoOrder(e, g, steps, KeyOf(x));
        OrderIsComplete(e, g, steps, KeyOf(x), x);
      }
    }
  }
}
