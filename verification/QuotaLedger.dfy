/**
 The quota ledger of src/services/quotaService.ts with each transaction as one
 atomic step: paid monthly credits first, then the tier's daily quota of the
 endpoint.  Rows belong to an API key; key 0 stands for a request without one.
 */
module QuotaLedger {
  import opened Prelude
  import PathTemplates

  datatype Day = Day(year: int, month: int, day: int)

  datatype MonthKey = MonthKey(apiKey: nat, year: int, month: int)

  datatype DayKey = DayKey(apiKey: nat, day: Day)

  datatype MonthRow = MonthRow(purchased: int, used: int)

  /** The two tables; used credits of a day start at zero and are only ever added to. */
  datatype Ledger = Ledger(monthly: map<MonthKey, MonthRow>, daily: map<DayKey, nat>)

  datatype Result = Paid(remainingPaid: int) | Free(remainingFree: int) | Unmetered | Denied

  /** One call: who, at which cost, under which daily limit of the endpoint, and when. */
  datatype Call = Call(apiKey: nat, rawCost: nat, limit: int, today: Day) {
    /** A missing or zero cost counts as one. */
    function Cost(): nat { if rawCost == 0 then 1 else rawCost }

    function Month(): MonthKey { MonthKey(apiKey, today.year, today.month) }

    function DayRow(): DayKey { DayKey(apiKey, today) }
  }

  function PaidLeft(g: Ledger, mk: MonthKey): int {
    if mk in g.monthly then g.monthly[mk].purchased - g.monthly[mk].used else 0
  }

  function DailyUsed(g: Ledger, dk: DayKey): nat {
    if dk in g.daily then g.daily[dk] else 0
  }

  predicate PaidCovers(g: Ledger, c: Call) {
    c.apiKey != 0 && c.Month() in g.monthly && PaidLeft(g, c.Month()) >= c.Cost()
  }

  function ChargeMonth(g: Ledger, mk: MonthKey, cost: int): Ledger
    requires mk in g.monthly
  {
    var row := g.monthly[mk];
    g.(monthly := g.monthly[mk := MonthRow(row.purchased, row.used + cost)])
  }

  function ChargeDay(g: Ledger, dk: DayKey, cost: nat): Ledger {
    g.(daily := g.daily[dk := DailyUsed(g, dk) + cost])
  }

  function Consume(g: Ledger, c: Call): (Ledger, Result) {
    if PaidCovers(g, c) then
      (ChargeMonth(g, c.Month(), c.Cost()), Paid(PaidLeft(g, c.Month()) - c.Cost()))
    else if c.limit <= 0 then (g, Unmetered)
    else if c.apiKey == 0 then (g, Denied)
    else if DailyUsed(g, c.DayRow()) + c.Cost() <= c.limit then
      (ChargeDay(g, c.DayRow(), c.Cost()), Free(c.limit - (DailyUsed(g, c.DayRow()) + c.Cost())))
    else (g, Denied)
  }

  function AddCredits(g: Ledger, mk: MonthKey, credits: int): Ledger {
    var row := if mk in g.monthly then g.monthly[mk] else MonthRow(0, 0);
    g.(monthly := g.monthly[mk := MonthRow(row.purchased + credits, row.used)])
  }

  /** One row's purchase grew by `credits`, a row that was not there counting as nothing; all else is as it was. */
  predicate Grows(g: Ledger, h: Ledger, mk: MonthKey, credits: int) {
    && h.daily == g.daily && h.monthly.Keys == g.monthly.Keys + {mk}
    && (forall k :: k in g.monthly && k != mk ==> h.monthly[k] == g.monthly[k])
    && h.monthly[mk].purchased == (if mk in g.monthly then g.monthly[mk].purchased else 0) + credits
    && h.monthly[mk].used == (if mk in g.monthly then g.monthly[mk].used else 0)
  }

  /** A purchase adds exactly what was bought, on a fresh row and on a used one. */
  lemma PurchaseAddsExactly(g: Ledger, mk: MonthKey, credits: int)
    ensures Grows(g, AddCredits(g, mk, credits), mk, credits)
    ensures PaidLeft(AddCredits(g, mk, credits), mk) == PaidLeft(g, mk) + credits
  {
  }

  // ----- one call

  /** What a call takes: its cost, or one if none is given. */
  function Takes(c: Call): nat { Max(1, c.rawCost) }

  /**
   Every call, at any cost: it is paid exactly when its key's month covers it,
   else free exactly when the endpoint has a limit with room for it; it takes
   its cost from that one row, which it reports, and from no other.
   */
  lemma CallTakesItsCost(g: Ledger, c: Call)
    ensures var mk, dk := MonthKey(c.apiKey, c.today.year, c.today.month), DayKey(c.apiKey, c.today);
            var (h, r) := Consume(g, c);
            && (r.Paid? <==> c.apiKey != 0 && mk in g.monthly && Takes(c) <= PaidLeft(g, mk))
            && (r.Unmetered? <==> !r.Paid? && c.limit <= 0)
            && (r.Free? <==> !r.Paid? && 0 < c.limit && c.apiKey != 0 && DailyUsed(g, dk) + Takes(c) <= c.limit)
            && (r.Paid? ==> r.remainingPaid == PaidLeft(h, mk) == PaidLeft(g, mk) - Takes(c))
            && (r.Free? ==> r.remainingFree == c.limit - DailyUsed(h, dk))
            && DailyUsed(h, dk) == DailyUsed(g, dk) + (if r.Free? then Takes(c) else 0)
            && h.daily - {dk} == g.daily - {dk} && h.monthly - {mk} == g.monthly - {mk}
            && (if r.Paid? then mk in h.monthly && h.monthly[mk].purchased == g.monthly[mk].purchased
                else h.monthly == g.monthly)
            && (!r.Free? ==> h.daily == g.daily)
  {
  }

  // ----- n unit calls by one key on one endpoint in one day

  function Repeat(g: Ledger, c: Call, n: nat): Ledger {
    if n == 0 then g else Consume(Repeat(g, c, n - 1), c).0
  }

  /**
   Closed form: with P paid credits and F free calls left, n unit calls use
   min(n, P) paid credits and min(max(n - P, 0), F) free ones, the next call is
   paid, free or denied accordingly, and no other row changes.
   */
  lemma UnitCallsClosedForm(g: Ledger, c: Call, n: nat)
    requires c.apiKey != 0 && c.Cost() == 1 && 0 < c.limit
    ensures Describes(g, c, n, Repeat(g, c, n))
    ensures var (p, f) := (PaidCalls(g, c), FreeCalls(g, c));
            Consume(Repeat(g, c, n), c).1 ==
              if n < p then Paid(p - n - 1) else if n < p + f then Free(p + f - n - 1) else Denied
  {
    UnitCallsLeave(g, c, n);
    NextUnitReply(g, c, n, Repeat(g, c, n));
  }

  lemma {:induction false} UnitCallsLeave(g: Ledger, c: Call, n: nat)
    requires c.apiKey != 0 && c.Cost() == 1 && 0 < c.limit
    ensures Describes(g, c, n, Repeat(g, c, n))
  {
    if n == 0 {
    } else {
      UnitCallsLeave(g, c, n - 1);
      OneMoreUnitCall(g, c, n - 1, Repeat(g, c, n - 1));
    }
  }

  /** Unit calls the paid credits, and then the rest of the day's quota, still cover. */
  function PaidCalls(g: Ledger, c: Call): nat { Max(0, PaidLeft(g, c.Month())) }

  function FreeCalls(g: Ledger, c: Call): nat { Max(0, c.limit - DailyUsed(g, c.DayRow())) }

  /** `h` is `g` after min(n, P) paid and min(max(n - P, 0), F) free unit charges and nothing else. */
  predicate Describes(g: Ledger, c: Call, n: nat, h: Ledger) {
    var p, f := PaidCalls(g, c), FreeCalls(g, c);
    && h.monthly == (if c.Month() in g.monthly then ChargeMonth(g, c.Month(), Min(n, p)).monthly else g.monthly)
    && DailyUsed(h, c.DayRow()) == DailyUsed(g, c.DayRow()) + Min(Max(n - p, 0), f)
    && h.daily - {c.DayRow()} == g.daily - {c.DayRow()}
  }

  lemma OneMoreUnitCall(g: Ledger, c: Call, n: nat, h: Ledger)
    requires c.apiKey != 0 && c.Cost() == 1 && 0 < c.limit && Describes(g, c, n, h)
    ensures Describes(g, c, n + 1, Consume(h, c).0)
  {
  }

  lemma NextUnitReply(g: Ledger, c: Call, n: nat, h: Ledger)
    requires c.apiKey != 0 && c.Cost() == 1 && 0 < c.limit && Describes(g, c, n, h)
    ensures var (p, f) := (PaidCalls(g, c), FreeCalls(g, c));
            Consume(h, c).1 ==
              if n < p then Paid(p - n - 1) else if n < p + f then Free(p + f - n - 1) else Denied
  {
  }

  // ----- any calls, in any order, by anyone

  function Run(g: Ledger, cs: seq<Call>): Ledger {
    if cs == [] then g else Consume(Run(g, Init(cs)), Last(cs)).0
  }

  function PaidCharge(g: Ledger, c: Call, mk: MonthKey): nat {
    if Consume(g, c).1.Paid? && c.Month() == mk then c.Cost() else 0
  }

  function FreeCharge(g: Ledger, c: Call, dk: DayKey): nat {
    if Consume(g, c).1.Free? && c.DayRow() == dk then c.Cost() else 0
  }

  /** Credits the replies of a run report as paid from one monthly row. */
  function PaidSpent(g: Ledger, cs: seq<Call>, mk: MonthKey): nat {
    if cs == [] then 0 else PaidSpent(g, Init(cs), mk) + PaidCharge(Run(g, Init(cs)), Last(cs), mk)
  }

  /** Credits the replies of a run report as free from one daily row. */
  function FreeSpent(g: Ledger, cs: seq<Call>, dk: DayKey): nat {
    if cs == [] then 0 else FreeSpent(g, Init(cs), dk) + FreeCharge(Run(g, Init(cs)), Last(cs), dk)
  }

  lemma RowsRecordReply(g: Ledger, c: Call)
    ensures var h := Consume(g, c).0;
            && h.monthly.Keys == g.monthly.Keys
            && (forall mk :: mk in g.monthly ==>
                  h.monthly[mk] == MonthRow(g.monthly[mk].purchased, g.monthly[mk].used + PaidCharge(g, c, mk)))
            && (forall dk :: DailyUsed(h, dk) == DailyUsed(g, dk) + FreeCharge(g, c, dk))
  {
  }

  /** Conservation: every row holds exactly what the replies said was taken from it. */
  lemma {:induction false} RowsRecordReplies(g: Ledger, cs: seq<Call>)
    ensures Run(g, cs).monthly.Keys == g.monthly.Keys
    ensures forall mk :: mk in g.monthly ==>
              Run(g, cs).monthly[mk] == MonthRow(g.monthly[mk].purchased, g.monthly[mk].used + PaidSpent(g, cs, mk))
    ensures forall dk :: DailyUsed(Run(g, cs), dk) == DailyUsed(g, dk) + FreeSpent(g, cs, dk)
  {
    if cs == [] {
    } else {
      RowsRecordReplies(g, Init(cs));
      RowsRecordReply(Run(g, Init(cs)), Last(cs));
    }
  }

  /** Atomic calls never overdraw what was purchased. */
  lemma {:induction false} PaidNotOverdrawn(g: Ledger, cs: seq<Call>, mk: MonthKey)
    requires PaidLeft(g, mk) >= 0
    ensures PaidLeft(Run(g, cs), mk) >= 0
  {
    if cs == [] {
    } else {
      PaidNotOverdrawn(g, Init(cs), mk);
    }
  }

  /** Nor does the row of a day, shared by all endpoints, pass the largest limit in use. */
  lemma {:induction false} DayNotOverdrawn(g: Ledger, cs: seq<Call>, dk: DayKey, cap: int)
    requires DailyUsed(g, dk) <= cap
    requires forall c :: c in cs && c.DayRow() == dk ==> c.limit <= cap
    ensures DailyUsed(Run(g, cs), dk) <= cap
  {
    if cs == [] {
    } else {
      DayNotOverdrawn(g, Init(cs), dk, cap);
    }
  }

  /** Free credits of one key over a set of days. */
  function FreeSpentOn(g: Ledger, cs: seq<Call>, apiKey: nat, days: set<Day>): nat {
    if cs == [] then 0
    else
      var c := Last(cs);
      FreeSpentOn(g, Init(cs), apiKey, days)
      + if c.apiKey == apiKey && c.today in days then FreeCharge(Run(g, Init(cs)), c, c.DayRow()) else 0
  }

  lemma {:induction false} OneDayMore(g: Ledger, cs: seq<Call>, apiKey: nat, days: set<Day>, d: Day)
    requires d in days
    ensures FreeSpentOn(g, cs, apiKey, days)
         == FreeSpentOn(g, cs, apiKey, days - {d}) + FreeSpent(g, cs, DayKey(apiKey, d))
  {
    if cs == [] {
    } else {
      OneDayMore(g, Init(cs), apiKey, days, d);
    }
  }

  lemma {:induction false} NoDaysNoUse(g: Ledger, cs: seq<Call>, apiKey: nat)
    ensures FreeSpentOn(g, cs, apiKey, {}) == 0
  {
    if cs == [] {
    } else {
      NoDaysNoUse(g, Init(cs), apiKey);
    }
  }

  lemma OneMore(n: nat, cap: nat)
    ensures n * cap + cap == (n + 1) * cap
  {
  }

  /** Over D days a key draws at most D times the largest daily limit, whatever it calls. */
  lemma {:induction false} FreeUseOverDays(g: Ledger, cs: seq<Call>, apiKey: nat, days: set<Day>, cap: nat)
    requires forall d :: d in days ==> DailyUsed(g, DayKey(apiKey, d)) == 0
    requires forall c :: c in cs && c.apiKey == apiKey ==> c.limit <= cap
    ensures FreeSpentOn(g, cs, apiKey, days) <= |days| * cap
  {
    if days == {} {
      NoDaysNoUse(g, cs, apiKey);
    } else {
      var d :| d in days;
      OneDayMore(g, cs, apiKey, days, d);
      FreeUseOverDays(g, cs, apiKey, days - {d}, cap);
      DayNotOverdrawn(g, cs, DayKey(apiKey, d), cap);
      RowsRecordReplies(g, cs);
      OneMore(|days - {d}|, cap);
    }
  }

  // ----- the service

  /** A row of tier_endpoint_configs; there is at most one per tier and endpoint. */
  datatype TierQuota = TierQuota(tierId: nat, endpointId: nat, quota: Option<int>) {
    /** A missing quota counts as zero. */
    function Amount(): int { if quota.Some? then quota.value else 0 }
  }

  /** The configuration tables the daily limit is read from. */
  datatype Config = Config(endpoints: seq<PathTemplates.Endpoint>, tiers: map<string, nat>, quotas: seq<TierQuota>)

  /** The quota configured for a tier and an endpoint; zero when there is no row. */
  function QuotaOf(rows: seq<TierQuota>, tierId: nat, endpointId: nat): int {
    if rows == [] then 0
    else if Last(rows).tierId == tierId && Last(rows).endpointId == endpointId then Last(rows).Amount()
    else QuotaOf(Init(rows), tierId, endpointId)
  }

  function InTier(tierId: nat): TierQuota -> int {
    (row: TierQuota) => if row.tierId == tierId then row.Amount() else 0
  }

  /** A request without a tier counts as free. */
  function TierName(tier: Option<string>): string {
    if tier.Some? && tier.value != "" then tier.value else "free"
  }

  /** The quotas of the tier named free, over all endpoints. */
  function FreeQuotaSum(cfg: Config): int {
    if "free" in cfg.tiers then Sum(cfg.quotas, InTier(cfg.tiers["free"])) else 0
  }

  /** The quota configured for the endpoint in the tier; zero when any part is missing. */
  function DailyLimit(cfg: Config, path: string, verb: string, tier: Option<string>): int {
    match PathTemplates.Lookup(cfg.endpoints, path, verb)
    case None => 0
    case Some(ep) =>
      if TierName(tier) in cfg.tiers then QuotaOf(cfg.quotas, cfg.tiers[TierName(tier)], ep.id) else 0
  }

  /** A call as the service makes it out from the tables. */
  function CallFor(cfg: Config, apiKey: nat, path: string, verb: string, rawCost: nat, tier: Option<string>, today: Day)
    : Call
  {
    Call(apiKey, rawCost, DailyLimit(cfg, path, verb, tier), today)
  }

  /** The unique index on tier and endpoint. */
  predicate UniqueQuotas(rows: seq<TierQuota>) {
    forall a, b :: a in rows && b in rows && a.tierId == b.tierId && a.endpointId == b.endpointId ==> a == b
  }

  /** The row is the one of this tier and the endpoint the request goes to. */
  predicate RowOf(cfg: Config, path: string, verb: string, tierName: string, row: TierQuota) {
    && row in cfg.quotas
    && tierName in cfg.tiers && cfg.tiers[tierName] == row.tierId
    && PathTemplates.Lookup(cfg.endpoints, path, verb).Some?
    && PathTemplates.Lookup(cfg.endpoints, path, verb).value.id == row.endpointId
  }

  lemma {:induction false} QuotaIsTheRows(rows: seq<TierQuota>, row: TierQuota)
    requires UniqueQuotas(rows) && row in rows
    ensures QuotaOf(rows, row.tierId, row.endpointId) == match row.quota case Some(q) => q case None => 0
  {
    if Last(rows) != row {
      assert row in Init(rows) && Last(rows) in rows;
      QuotaIsTheRows(Init(rows), row);
    }
  }

  lemma {:induction false} NoRowNoQuota(rows: seq<TierQuota>, tierId: nat, endpointId: nat)
    requires forall row :: row in rows ==> row.tierId != tierId || row.endpointId != endpointId
    ensures QuotaOf(rows, tierId, endpointId) == 0
  {
    if rows == [] {
    } else {
      assert Last(rows) in rows;
      NoRowNoQuota(Init(rows), tierId, endpointId);
    }
  }

  /**
   Where the limit of a call comes from: the amount in the row of the caller's
   tier and the endpoint, zero without such a row; a missing or empty tier is
   the one named free.
   */
  lemma LimitIsTheTiersRow(cfg: Config, path: string, verb: string, tier: Option<string>, row: TierQuota)
    requires UniqueQuotas(cfg.quotas)
    ensures tier.Some? && tier.value != "" && RowOf(cfg, path, verb, tier.value, row) ==>
              DailyLimit(cfg, path, verb, tier) == match row.quota case Some(q) => q case None => 0
    ensures tier.Some? && tier.value != "" && (forall other :: !RowOf(cfg, path, verb, tier.value, other)) ==>
              DailyLimit(cfg, path, verb, tier) == 0
    ensures DailyLimit(cfg, path, verb, None) == DailyLimit(cfg, path, verb, Some("free"))
    ensures DailyLimit(cfg, path, verb, Some("")) == DailyLimit(cfg, path, verb, Some("free"))
  {
    if tier.Some? && tier.value != "" {
      var name := tier.value;
      if RowOf(cfg, path, verb, name, row) {
        QuotaIsTheRows(cfg.quotas, row);
      }
      if forall other :: !RowOf(cfg, path, verb, name, other) {
        match PathTemplates.Lookup(cfg.endpoints, path, verb)
        case None =>
        case Some(ep) =>
          if name in cfg.tiers {
            forall other | other in cfg.quotas ensures other.tierId != cfg.tiers[name] || other.endpointId != ep.id {
              assert !RowOf(cfg, path, verb, name, other);
            }
            NoRowNoQuota(cfg.quotas, cfg.tiers[name], ep.id);
          }
      }
    }
  }

  /**
   The closed form from the tables: on an endpoint whose row in the key's own
   tier grants q > 0, unit call number n of a day is paid, free or denied as
   the paid credits P and then what is left of q allow.
   */
  lemma UnitCallsFromTables(g: Ledger, cfg: Config, apiKey: nat, path: string, verb: string, tier: string,
                            row: TierQuota, q: int, today: Day, n: nat)
    requires UniqueQuotas(cfg.quotas) && tier != "" && RowOf(cfg, path, verb, tier, row)
    requires row.quota == Some(q) && 0 < q && apiKey != 0
    ensures var c := CallFor(cfg, apiKey, path, verb, 1, Some(tier), today);
            var p := Max(0, PaidLeft(g, MonthKey(apiKey, today.year, today.month)));
            var f := Max(0, q - DailyUsed(g, DayKey(apiKey, today)));
            Consume(Repeat(g, c, n), c).1 ==
              if n < p then Paid(p - n - 1) else if n < p + f then Free(p + f - n - 1) else Denied
  {
    LimitIsTheTiersRow(cfg, path, verb, Some(tier), row);
    UnitCallsClosedForm(g, CallFor(cfg, apiKey, path, verb, 1, Some(tier), today), n);
  }

  /** What the report's free sum adds up: the rows of the tier named free and no others. */
  lemma FreeSumIsOfTheFreeTier(cfg: Config, row: TierQuota)
    ensures "free" !in cfg.tiers || cfg.quotas == [] ==> FreeQuotaSum(cfg) == 0
    ensures "free" in cfg.tiers ==>
              FreeQuotaSum(cfg.(quotas := cfg.quotas + [row])) - FreeQuotaSum(cfg)
              == if row.tierId == cfg.tiers["free"] && row.quota.Some? then row.quota.value else 0
  {
    if "free" in cfg.tiers {
      SumAppend(cfg.quotas, InTier(cfg.tiers["free"]), row);
    }
  }

  class QuotaService {
    var monthly: map<MonthKey, MonthRow>
    var daily: map<DayKey, nat>

    function View(): Ledger
      reads this
    {
      Ledger(monthly, daily)
    }

    constructor ()
      ensures View() == Ledger(map[], map[])
    {
      monthly, daily := map[], map[];
    }

    /** `aborts` tells whether the database gave the transaction up. */
    method ConsumeCredit(cfg: Config, apiKey: nat, path: string, verb: string, rawCost: nat, tier: Option<string>,
                         today: Day, aborts: bool)
      returns (r: Result)
      modifies this
      ensures var c := CallFor(cfg, apiKey, path, verb, rawCost, tier, today);
              (View(), r) == if aborts then (old(View()), Denied) else Consume(old(View()), c)
    {
      if aborts {
        return Denied;
      }
      var cost := if rawCost == 0 then 1 else rawCost;
      var mk := MonthKey(apiKey, today.year, today.month);
      if apiKey != 0 && mk in monthly {
        var row := monthly[mk];
        var remaining := row.purchased - row.used;
        if remaining >= cost {
          monthly := monthly[mk := MonthRow(row.purchased, row.used + cost)];
          return Paid(remaining - cost);
        }
      }
      var ep := PathTemplates.GetEndpointByPathMethod(cfg.endpoints, path, verb);
      var limit := 0;
      if ep.Some? && TierName(tier) in cfg.tiers {
        limit := QuotaOf(cfg.quotas, cfg.tiers[TierName(tier)], ep.value.id);
      }
      if limit <= 0 {
        return Unmetered;
      }
      if apiKey == 0 {
        return Denied;
      }
      var dk := DayKey(apiKey, today);
      if dk in daily {
        if daily[dk] + cost <= limit {
          daily := daily[dk := daily[dk] + cost];
          return Free(limit - daily[dk]);
        }
        return Denied;
      }
      if cost <= limit {
        daily := daily[dk := cost];
        return Free(limit - cost);
      }
      return Denied;
    }

    /** Refuses a request without a key; otherwise the monthly row grows or is created. */
    method AddMonthlyCredits(apiKey: nat, credits: int, today: Day) returns (ok: bool)
      modifies this
      ensures ok <==> apiKey != 0
      ensures View() == if ok then AddCredits(old(View()), MonthKey(apiKey, today.year, today.month), credits)
                        else old(View())
      ensures ok ==> Grows(old(View()), View(), MonthKey(apiKey, today.year, today.month), credits)
    {
      if apiKey == 0 {
        return false;
      }
      var mk := MonthKey(apiKey, today.year, today.month);
      if mk in monthly {
        monthly := monthly[mk := MonthRow(monthly[mk].purchased + credits, monthly[mk].used)];
      } else {
        monthly := monthly[mk := MonthRow(credits, 0)];
      }
      return true;
    }

    /** What the key may still use this month and today, whatever its tier, as the report puts it. */
    method GetUsage(cfg: Config, apiKey: nat, today: Day) returns (remainingPaid: int, remainingFree: int)
      ensures (remainingPaid, remainingFree) == Reported(View(), cfg, apiKey, today)
    {
      var mk, dk := MonthKey(apiKey, today.year, today.month), DayKey(apiKey, today);
      remainingPaid := 0;
      if mk in monthly {
        remainingPaid := Max(0, monthly[mk].purchased - monthly[mk].used);
      }
      var usedDaily := if dk in daily then daily[dk] else 0;
      remainingFree := Max(0, FreeQuotaSum(cfg) - usedDaily);
    }
  }

  /** The two figures of the usage report. */
  function Reported(g: Ledger, cfg: Config, apiKey: nat, today: Day): (int, int) {
    (Max(0, PaidLeft(g, MonthKey(apiKey, today.year, today.month))),
     Max(0, FreeQuotaSum(cfg) - DailyUsed(g, DayKey(apiKey, today))))
  }

  /** On an endpoint without a quota the paid credits go first and nothing is ever denied. */
  lemma {:induction false} UnmeteredCallsClosedForm(g: Ledger, c: Call, n: nat)
    requires c.apiKey != 0 && c.Cost() == 1 && c.limit <= 0
    ensures PaidLeft(Repeat(g, c, n), c.Month()) == PaidLeft(g, c.Month()) - Min(n, PaidCalls(g, c))
    ensures c.Month() in Repeat(g, c, n).monthly <==> c.Month() in g.monthly
    ensures Repeat(g, c, n).daily == g.daily
    ensures Consume(Repeat(g, c, n), c).1 == if n < PaidCalls(g, c) then Paid(PaidCalls(g, c) - n - 1) else Unmetered
  {
    if n == 0 {
    } else {
      UnmeteredCallsClosedForm(g, c, n - 1);
    }
  }

  /** The reply to unit call number n, on any endpoint. */
  lemma UnitReply(g: Ledger, c: Call, n: nat)
    requires c.apiKey != 0 && c.Cost() == 1
    ensures var (p, f) := (PaidCalls(g, c), FreeCalls(g, c));
            Consume(Repeat(g, c, n), c).1 ==
              if n < p then Paid(p - n - 1)
              else if c.limit <= 0 then Unmetered
              else if n < p + f then Free(p + f - n - 1)
              else Denied
  {
    if c.limit <= 0 {
      UnmeteredCallsClosedForm(g, c, n);
    } else {
      UnitCallsClosedForm(g, c, n);
    }
  }

  lemma NoDenialIff(g: Ledger, c: Call, n: nat)
    requires c.apiKey != 0 && c.Cost() == 1
    ensures NoDenialWithin(g, c, n) <==> c.limit <= 0 || n <= PaidCalls(g, c) + FreeCalls(g, c)
  {
    var first := PaidCalls(g, c) + FreeCalls(g, c);
    UnitReply(g, c, first);
    forall k: nat ensures Consume(Repeat(g, c, k), c).1 == Denied <==> 0 < c.limit && first <= k {
      UnitReply(g, c, k);
    }
  }

  ghost predicate NoDenialWithin(g: Ledger, c: Call, n: int) {
    forall k: nat {:trigger Repeat(g, c, k)} :: k < n ==> Consume(Repeat(g, c, k), c).1 != Denied
  }

  /**
   The reported usage against what happens, for a key of any tier on any
   endpoint.  The paid figure is exact.  The free figure adds up the quotas of
   the free tier, so it promises too much exactly when the endpoint's own
   limit is below that sum and not all of the sum is used, and too little
   exactly when the limit exceeds both the sum and what is used.
   */
  lemma ReportedUsageIsHonestIff(g: Ledger, cfg: Config, path: string, verb: string, tier: Option<string>, c: Call)
    requires c.apiKey != 0 && c.Cost() == 1 && c.limit == DailyLimit(cfg, path, verb, tier)
    ensures var (paid, free) := Reported(g, cfg, c.apiKey, c.today);
            var (sum, used) := (FreeQuotaSum(cfg), DailyUsed(g, c.DayRow()));
            && (forall n: nat {:trigger Repeat(g, c, n)} :: Consume(Repeat(g, c, n), c).1.Paid? <==> n < paid)
            && (NoDenialWithin(g, c, paid + free) <==> c.limit <= 0 || sum <= c.limit || sum <= used)
            && (NoDenialWithin(g, c, paid + free + 1) <==> c.limit <= 0 || (sum < c.limit && used < c.limit))
  {
    var (paid, free) := Reported(g, cfg, c.apiKey, c.today);
    forall n: nat ensures Consume(Repeat(g, c, n), c).1.Paid? <==> n < paid {
      UnitReply(g, c, n);
    }
    NoDenialIff(g, c, paid + free);
    NoDenialIff(g, c, paid + free + 1);
  }

  /**
   A purchase can be spent in full, on a fresh row and on a used one: the next
   calls are paid up to what was left plus what was bought, and draw no free
   quota meanwhile.
   */
  lemma PurchasedCreditsAreSpendable(g: Ledger, c: Call, credits: nat)
    requires c.apiKey != 0 && c.Cost() == 1
    ensures var (h, n) := (AddCredits(g, c.Month(), credits), PaidLeft(g, c.Month()) + credits);
            && (forall k: nat {:trigger Repeat(h, c, k)} :: Consume(Repeat(h, c, k), c).1.Paid? <==> k < n)
            && (0 <= n ==> PaidLeft(Repeat(h, c, n), c.Month()) == 0
                           && DailyUsed(Repeat(h, c, n), c.DayRow()) == DailyUsed(g, c.DayRow()))
  {
    var h, n := AddCredits(g, c.Month(), credits), PaidLeft(g, c.Month()) + credits;
    PurchaseAddsExactly(g, c.Month(), credits);
    forall k: nat ensures Consume(Repeat(h, c, k), c).1.Paid? <==> k < n {
      UnitReply(h, c, k);
    }
    if 0 <= n {
      if c.limit <= 0 {
        UnmeteredCallsClosedForm(h, c, n);
      } else {
        UnitCallsClosedForm(h, c, n);
      }
    }
  }
}
