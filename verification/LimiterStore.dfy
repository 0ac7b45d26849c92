/**
 Both stores of the rate limiter under interleaved requests on many keys: the
 hashes the Lua script keeps in Redis, which vanish an hour after their last
 write, and the in-process map, which keeps a bucket for ever together with
 the limits it was created with.
 */
module LimiterStore {
  import opened Prelude
  import opened TokenBucket

  /** One row of the limits table: requests per minute and bucket size. */
  datatype Limits = Limits(rpm: nat, burst: nat) {
    function Params(): Params { TokenBucket.Params(burst as real, rpm as real / 60.0) }
  }

  const TIER_LIMITS: map<string, Limits> := map[
    "anonymous" := Limits(10, 20),
    "free" := Limits(100, 150),
    "developer" := Limits(1000, 1500),
    "pro" := Limits(10000, 15000)
  ]

  function LimitsForTier(tier: string): Limits {
    if tier in TIER_LIMITS then TIER_LIMITS[tier] else Limits(100, 150)
  }

  /** Seconds the script sets as the expiry of a key. */
  const TTL := 3600.0

  /** What the middleware asks for each request it meters. */
  const REQUESTED := 1.0

  datatype Request = Request(key: string, limits: Limits, now: real)

  // ----- Redis, keys never expiring

  type Store = map<string, Bucket>

  function Step(s: Store, r: Request): (Store, Verdict) {
    var (v, b) := Eval(r.limits.Params(), Get(s, r.key), r.now, REQUESTED);
    (s[r.key := b], v)
  }

  function Run(rs: seq<Request>): Store {
    if rs == [] then map[] else Step(Run(Init(rs)), Last(rs)).0
  }

  /** The reply to request `i` of a run. */
  function Reply(rs: seq<Request>, i: nat): Verdict
    requires i < |rs|
  {
    Step(Run(rs[..i]), rs[i]).1
  }

  // ----- every key is a single-key run of its own

  function Times(rs: seq<Request>, key: string): seq<real> {
    if rs == [] then [] else Times(Init(rs), key) + if Last(rs).key == key then [Last(rs).now] else []
  }

  predicate FixedTier(rs: seq<Request>, key: string, l: Limits) {
    forall i :: 0 <= i < |rs| && rs[i].key == key ==> rs[i].limits == l
  }

  /**
   Isolation: whatever other keys do in between, a key holds exactly what its
   own requests, taken alone, leave in a single bucket.
   */
  lemma {:induction false} KeyIsItsOwnRun(rs: seq<Request>, key: string, l: Limits)
    requires FixedTier(rs, key, l)
    ensures Get(Run(rs), key) == StateAfter(l.Params(), Times(rs, key))
  {
    if rs == [] {
    } else {
      KeyIsItsOwnRun(Init(rs), key, l);
      var r := Last(rs);
      if r.key == key {
        assert rs[|rs| - 1].limits == l;
        EvalExtendsRun(l.Params(), Times(Init(rs), key), r.now);
        assert Run(rs) == Run(Init(rs))[key := Eval(l.Params(), Get(Run(Init(rs)), key), r.now, REQUESTED).1];
      } else {
        assert Times(rs, key) == Times(Init(rs), key);
      }
    }
  }

  /**
   The closed form survives interleaving: request `i` is let through exactly
   when every window of its own key's requests that ends at it has room.
   */
  lemma InterleavedAdmission(rs: seq<Request>, i: nat, l: Limits)
    requires i < |rs| && FixedTier(rs, rs[i].key, l)
    ensures var t := Times(rs[..i], rs[i].key) + [rs[i].now];
            Reply(rs, i).allowed <==> WindowsHaveRoom(l.Params(), t, |t| - 1)
  {
    var before := Times(rs[..i], rs[i].key);
    KeyIsItsOwnRun(rs[..i], rs[i].key, l);
    EvalExtendsRun(l.Params(), before, rs[i].now);
    AllowedIffEveryWindowHasRoom(l.Params(), before + [rs[i].now], |before|);
  }

  // ----- Redis, keys expiring

  /**
   `dropped` says whether the key had vanished when the script read it.  Redis
   may drop a key only when its expiry has passed since the last write.
   */
  function StepTtl(s: Store, r: Request, dropped: bool): (Store, Verdict) {
    var data := if dropped then None else Get(s, r.key);
    var (v, b) := Eval(r.limits.Params(), data, r.now, REQUESTED);
    (s[r.key := b], v)
  }

  function RunTtl(rs: seq<Request>, drops: seq<bool>): Store
    requires |drops| == |rs|
  {
    if rs == [] then map[] else StepTtl(RunTtl(Init(rs), Init(drops)), Last(rs), Last(drops)).0
  }

  function ReplyTtl(rs: seq<Request>, drops: seq<bool>, i: nat): Verdict
    requires i < |rs| == |drops|
  {
    StepTtl(RunTtl(rs[..i], drops[..i]), rs[i], drops[i]).1
  }

  predicate MayDrop(s: Store, r: Request) {
    r.key in s ==> r.now - s[r.key].ts >= TTL
  }

  predicate LegalDrops(rs: seq<Request>, drops: seq<bool>)
    requires |drops| == |rs|
  {
    forall i :: 0 <= i < |rs| && drops[i] ==> MayDrop(RunTtl(rs[..i], drops[..i]), rs[i])
  }

  lemma {:induction false} TokensNeverNegative(rs: seq<Request>, key: string)
    requires key in Run(rs)
    ensures 0.0 <= Run(rs)[key].tokens
  {
    var s, r := Run(Init(rs)), Last(rs);
    if key in s {
      TokensNeverNegative(Init(rs), key);
      if key == r.key {
        NonnegativeProduct(MaxReal(0.0, r.now - s[key].ts), r.limits.Params().refillPerSec);
      }
    }
  }

  /** An hour of refill covers the bucket, so forgetting it changes nothing. */
  lemma DropRefillsNoMore(l: Limits, b: Bucket, now: real)
    requires l.burst <= 60 * l.rpm && 0.0 <= b.tokens && now - b.ts >= TTL
    ensures Filled(l.Params(), Some(b), now) == Filled(l.Params(), None, now)
  {
    var r := l.Params().refillPerSec;
    NonnegativeProduct(now - b.ts - TTL, r);
    assert (now - b.ts) * r == (now - b.ts - TTL) * r + TTL * r;
    assert TTL * r == 60.0 * (l.rpm as real);
  }

  lemma DropIsInvisibleInOneStep(rs: seq<Request>, r: Request, dropped: bool)
    requires r.limits.burst <= 60 * r.limits.rpm
    requires dropped ==> MayDrop(Run(rs), r)
    ensures StepTtl(Run(rs), r, dropped) == Step(Run(rs), r)
  {
    if dropped && r.key in Run(rs) {
      TokensNeverNegative(rs, r.key);
      DropRefillsNoMore(r.limits, Run(rs)[r.key], r.now);
    }
  }

  /**
   Expiry is unobservable: when every limit in the run refills within the
   hour, a store that drops idle keys at will stays equal to one that keeps
   them, and gives the same replies.
   */
  lemma {:induction false} ExpiryIsUnobservable(rs: seq<Request>, drops: seq<bool>, i: nat)
    requires i <= |rs| == |drops| && LegalDrops(rs, drops)
    requires forall k :: 0 <= k < |rs| ==> rs[k].limits.burst <= 60 * rs[k].limits.rpm
    ensures RunTtl(rs[..i], drops[..i]) == Run(rs[..i])
    ensures i < |rs| ==> ReplyTtl(rs, drops, i) == Reply(rs, i)
  {
    if i == 0 {
    } else {
      var k := i - 1;
      ExpiryIsUnobservable(rs, drops, k);
      assert Init(rs[..i]) == rs[..k] && Init(drops[..i]) == drops[..k];
      DropIsInvisibleInOneStep(rs[..k], rs[k], drops[k]);
    }
    if i < |rs| {
      DropIsInvisibleInOneStep(rs[..i], rs[i], drops[i]);
    }
  }

  /** All four tiers of the limits table refill within the hour. */
  lemma TableRefillsWithinTtl(tier: string)
    ensures var l := LimitsForTier(tier); l.burst <= 60 * l.rpm && 6 <= l.rpm
  {
  }

  // ----- the exact condition

  /** Expiry can never be told from the replies on limits `l`. */
  ghost predicate ExpiryInvisible(l: Limits) {
    forall rs: seq<Request>, drops: seq<bool> ::
      |drops| == |rs| && LegalDrops(rs, drops) && UsesOnly(rs, l) ==> SameReplies(rs, drops)
  }

  predicate UsesOnly(rs: seq<Request>, l: Limits) {
    forall i :: 0 <= i < |rs| ==> rs[i].limits == l
  }

  /** The times of the Redis path: the middleware floors the clock to seconds. */
  predicate WholeSeconds(rs: seq<Request>) {
    forall i :: 0 <= i < |rs| ==> Whole(rs[i].now)
  }

  predicate Whole(now: real) { now == now.Floor as real }

  predicate SameReplies(rs: seq<Request>, drops: seq<bool>)
    requires |drops| == |rs|
  {
    forall i: nat :: i < |rs| ==> ReplyTtl(rs, drops, i) == Reply(rs, i)
  }

  /** `n` requests on one key, all at the same time. */
  function Volley(l: Limits, now: real, n: nat): seq<Request> {
    if n == 0 then [] else Volley(l, now, n - 1) + [Request("k", l, now)]
  }

  function NoDrops(n: nat): seq<bool> { seq(n, _ => false) }

  lemma {:induction false} VolleyShape(l: Limits, now: real, n: nat)
    ensures |Volley(l, now, n)| == n && UsesOnly(Volley(l, now, n), l)
    ensures Whole(now) ==> WholeSeconds(Volley(l, now, n))
  {
    if n == 0 {
    } else {
      VolleyShape(l, now, n - 1);
    }
  }

  /** One request on a bucket with a whole number of tokens left, no time having passed. */
  lemma OneMoreOfVolley(l: Limits, now: real, n: nat, s: Store)
    requires n < l.burst
    requires s == if n == 0 then map[] else map["k" := Bucket((l.burst - n) as real, now)]
    ensures Step(s, Request("k", l, now)).0 == map["k" := Bucket((l.burst - n - 1) as real, now)]
  {
    assert MaxReal(0.0, now - now) * l.Params().refillPerSec == 0.0;
  }

  lemma {:induction false} NothingDropped(rs: seq<Request>)
    ensures |NoDrops(|rs|)| == |rs| && RunTtl(rs, NoDrops(|rs|)) == Run(rs)
  {
    if rs == [] {
    } else {
      NothingDropped(Init(rs));
      assert Init(NoDrops(|rs|)) == NoDrops(|rs| - 1) && !Last(NoDrops(|rs|));
    }
  }

  lemma RunOneMore(rs: seq<Request>, r: Request)
    ensures Run(rs + [r]) == Step(Run(rs), r).0
  {
    assert Init(rs + [r]) == rs && Last(rs + [r]) == r;
  }

  lemma {:induction false} VolleyLeaves(l: Limits, now: real, n: nat)
    requires n <= l.burst
    ensures Run(Volley(l, now, n)) == if n == 0 then map[] else map["k" := Bucket((l.burst - n) as real, now)]
  {
    if n == 0 {
    } else {
      var before, r := Volley(l, now, n - 1), Request("k", l, now);
      VolleyLeaves(l, now, n - 1);
      OneMoreOfVolley(l, now, n - 1, Run(before));
      RunOneMore(before, r);
    }
  }

  lemma VolleyDrains(l: Limits, now: real, n: nat)
    requires n <= l.burst
    ensures |Volley(l, now, n)| == n && |NoDrops(n)| == n
    ensures Run(Volley(l, now, n)) == RunTtl(Volley(l, now, n), NoDrops(n))
    ensures Run(Volley(l, now, n)) == if n == 0 then map[] else map["k" := Bucket((l.burst - n) as real, now)]
  {
    VolleyShape(l, now, n);
    VolleyLeaves(l, now, n);
    NothingDropped(Volley(l, now, n));
  }

  /** Two replies to a request an hour after the bucket was emptied: they differ. */
  lemma DropShows(l: Limits)
    requires 60 * l.rpm < l.burst
    ensures var r := Request("k", l, TTL);
            var s := map["k" := Bucket(0.0, 0.0)];
            MayDrop(s, r) && StepTtl(s, r, true).1 != StepTtl(s, r, false).1
  {
  }

  /** A full burst at time zero and one more request an hour later, when the key has been dropped. */
  lemma DropIsSeen(l: Limits) returns (rs: seq<Request>, drops: seq<bool>, i: nat)
    requires 60 * l.rpm < l.burst
    ensures |drops| == |rs| && LegalDrops(rs, drops) && UsesOnly(rs, l) && WholeSeconds(rs)
    ensures i < |rs| && ReplyTtl(rs, drops, i) != Reply(rs, i)
  {
    var late := Request("k", l, TTL);
    i := l.burst;
    rs, drops := Volley(l, 0.0, i) + [late], NoDrops(i) + [true];
    VolleyDrains(l, 0.0, i);
    VolleyShape(l, 0.0, i);
    assert rs[..i] == Volley(l, 0.0, i) && drops[..i] == NoDrops(i);
    DropShows(l);
    var empty := map["k" := Bucket(0.0, 0.0)];
    assert rs[i] == late && drops[i];
    assert ReplyTtl(rs, drops, i) == StepTtl(empty, late, true).1;
    assert Reply(rs, i) == StepTtl(empty, late, false).1;
  }

  /** Expiry is invisible exactly for limits that refill a full burst within the hour. */
  lemma ExpiryInvisibleIff(l: Limits)
    ensures ExpiryInvisible(l) <==> l.burst <= 60 * l.rpm
  {
    if l.burst <= 60 * l.rpm {
      forall rs: seq<Request>, drops: seq<bool>
        | |drops| == |rs| && LegalDrops(rs, drops) && UsesOnly(rs, l)
        ensures SameReplies(rs, drops)
      {
        forall i: nat | i < |rs| ensures ReplyTtl(rs, drops, i) == Reply(rs, i) {
          ExpiryIsUnobservable(rs, drops, i);
        }
      }
    } else {
      var rs, drops, i := DropIsSeen(l);
      assert !SameReplies(rs, drops);
    }
  }

  // ----- the in-process map

  /** A bucket of the map: it keeps the limits it was created with. */
  datatype MemBucket = MemBucket(bucket: Bucket, limits: Limits)

  type MemStore = map<string, MemBucket>

  /** Refilling a bucket on the limits it kept, and spending one token if there is one. */
  function Taken(held: MemBucket, now: real): (MemBucket, Verdict) {
    var (v, b) := Eval(held.limits.Params(), Some(held.bucket), now, REQUESTED);
    (held.(bucket := b), v)
  }

  function NewBucket(l: Limits, now: real): MemBucket { MemBucket(Bucket(l.Params().capacity, now), l) }

  function MemStep(s: MemStore, r: Request): (MemStore, Verdict) {
    var (b, v) := Taken(if r.key in s then s[r.key] else NewBucket(r.limits, r.now), r.now);
    (s[r.key := b], v)
  }

  function MemRun(rs: seq<Request>): MemStore {
    if rs == [] then map[] else MemStep(MemRun(Init(rs)), Last(rs)).0
  }

  function MemReply(rs: seq<Request>, i: nat): Verdict
    requires i < |rs|
  {
    MemStep(MemRun(rs[..i]), rs[i]).1
  }

  /** The limits sent with the first request on a key. */
  function FirstLimits(rs: seq<Request>, key: string): Option<Limits> {
    if rs == [] then None
    else match FirstLimits(Init(rs), key)
      case Some(l) => Some(l)
      case None => if Last(rs).key == key then Some(Last(rs).limits) else None
  }

  /** The run in which each key stays on the limits of its first request. */
  function Pinned(rs: seq<Request>): seq<Request>
    ensures |Pinned(rs)| == |rs|
  {
    if rs == [] then []
    else Pinned(Init(rs)) + [Last(rs).(limits := FirstLimits(rs, Last(rs).key).value)]
  }

  lemma {:induction false} PinnedPrefix(rs: seq<Request>, i: nat)
    requires i <= |rs|
    ensures Pinned(rs)[..i] == Pinned(rs[..i])
  {
    if i < |rs| {
      PinnedPrefix(Init(rs), i);
      assert Init(rs)[..i] == rs[..i];
      assert Pinned(rs)[..i] == Pinned(Init(rs))[..i];
    } else {
      assert rs[..i] == rs;
    }
  }

  lemma {:induction false} MemStoreIsPinnedStore(rs: seq<Request>)
    ensures MemRun(rs).Keys == Run(Pinned(rs)).Keys
    ensures forall k :: k in MemRun(rs) ==>
              MemRun(rs)[k].bucket == Run(Pinned(rs))[k] && FirstLimits(rs, k) == Some(MemRun(rs)[k].limits)
    ensures forall k :: k !in MemRun(rs) ==> FirstLimits(rs, k) == None
  {
    if rs == [] {
    } else {
      MemStoreIsPinnedStore(Init(rs));
      assert Init(Pinned(rs)) == Pinned(Init(rs));
      assert Run(Pinned(rs)) == Step(Run(Pinned(Init(rs))), Last(Pinned(rs))).0;
    }
  }

  lemma PinnedAt(rs: seq<Request>, i: nat)
    requires i < |rs|
    ensures FirstLimits(rs[..i + 1], rs[i].key).Some?
    ensures Pinned(rs)[i] == rs[i].(limits := FirstLimits(rs[..i + 1], rs[i].key).value)
  {
    PinnedPrefix(rs, i + 1);
    assert Pinned(rs)[i] == Last(Pinned(rs[..i + 1]));
  }

  /** On a bucket both stores hold, or neither, the map answers as the script on the limits the map keeps. */
  lemma SameAnswer(ms: MemStore, s: Store, r: Request, kept: Limits)
    requires if r.key in ms then Get(s, r.key) == Some(ms[r.key].bucket) && kept == ms[r.key].limits
             else r.key !in s && kept == r.limits
    ensures MemStep(ms, r).1 == Step(s, r.(limits := kept)).1
  {
    if r.key !in ms {
      MissingKeyIsFull(r.limits.Params(), r.now);
    }
  }

  /**
   Bisimulation, with no assumption on tiers: the in-process map replies to
   every request as the script would if each key kept the limits of its first
   request.
   */
  lemma MemoryIsScriptOnFirstLimits(rs: seq<Request>, i: nat)
    requires i < |rs|
    ensures MemReply(rs, i) == Reply(Pinned(rs), i)
  {
    PinnedPrefix(rs, i);
    KeptLimits(rs, i);
    SameAnswer(MemRun(rs[..i]), Run(Pinned(rs[..i])), rs[i], Pinned(rs)[i].limits);
  }

  /** What both stores hold under the key of a request, and the limits it is pinned to. */
  lemma KeptLimits(rs: seq<Request>, i: nat)
    requires i < |rs|
    ensures var (ms, s, r, kept) := (MemRun(rs[..i]), Run(Pinned(rs[..i])), rs[i], Pinned(rs)[i].limits);
            && Pinned(rs)[i] == r.(limits := kept)
            && if r.key in ms then Get(s, r.key) == Some(ms[r.key].bucket) && kept == ms[r.key].limits
               else r.key !in s && kept == r.limits
  {
    PinnedAt(rs, i);
    MemStoreIsPinnedStore(rs[..i]);
    assert Init(rs[..i + 1]) == rs[..i] && Last(rs[..i + 1]) == rs[i];
  }

  predicate TierPerKey(rs: seq<Request>) {
    forall i, j :: 0 <= i < |rs| && 0 <= j < |rs| && rs[i].key == rs[j].key ==> rs[i].limits == rs[j].limits
  }

  lemma {:induction false} FirstLimitsOccurs(rs: seq<Request>, key: string)
    requires FirstLimits(rs, key).Some?
    ensures exists i :: 0 <= i < |rs| && rs[i].key == key && FirstLimits(rs, key) == Some(rs[i].limits)
  {
    if FirstLimits(Init(rs), key).Some? {
      FirstLimitsOccurs(Init(rs), key);
      var i :| 0 <= i < |rs| - 1 && Init(rs)[i].key == key && FirstLimits(Init(rs), key) == Some(Init(rs)[i].limits);
      assert rs[i].key == key;
    } else {
      assert rs[|rs| - 1].key == key;
    }
  }

  lemma {:induction false} PinningIsVoid(rs: seq<Request>)
    requires TierPerKey(rs)
    ensures Pinned(rs) == rs
  {
    if rs == [] {
    } else {
      PinningIsVoid(Init(rs));
      FirstLimitsOccurs(rs, Last(rs).key);
      assert rs == Init(rs) + [Last(rs)];
    }
  }

  /**
   The two implementations and the expiry together: with one tier per key from
   the table, the in-process map and the expiring Redis hashes give the same
   reply to every request of every interleaving.
   */
  lemma ImplementationsAgree(rs: seq<Request>, drops: seq<bool>, i: nat)
    requires i < |rs| == |drops| && LegalDrops(rs, drops) && TierPerKey(rs)
    requires forall k :: 0 <= k < |rs| ==> exists tier :: rs[k].limits == LimitsForTier(tier)
    ensures MemReply(rs, i) == ReplyTtl(rs, drops, i)
  {
    forall k | 0 <= k < |rs| ensures rs[k].limits.burst <= 60 * rs[k].limits.rpm {
      var tier :| rs[k].limits == LimitsForTier(tier);
      TableRefillsWithinTtl(tier);
    }
    ExpiryIsUnobservable(rs, drops, i);
    MemoryIsScriptOnFirstLimits(rs, i);
    PinningIsVoid(rs);
  }

  // ----- what is left after a reply

  /** The map after `k` more requests like `r`. */
  function MemAfter(s: MemStore, r: Request, k: nat): MemStore {
    if k == 0 then s else MemStep(MemAfter(s, r, k - 1), r).0
  }

  /** `k` more requests like `r` all pass. */
  predicate MemAllPass(s: MemStore, r: Request, k: nat) {
    forall j: nat :: j < k ==> MemStep(MemAfter(s, r, j), r).1.allowed
  }

  function StoreAfter(s: Store, r: Request, k: nat): Store {
    if k == 0 then s else Step(StoreAfter(s, r, k - 1), r).0
  }

  /** The same for the script; a key just written cannot be dropped. */
  predicate AllPass(s: Store, r: Request, k: nat) {
    forall j: nat :: j < k ==> !MayDrop(StoreAfter(s, r, j), r) && Step(StoreAfter(s, r, j), r).1.allowed
  }

  /** A number of whole tokens: rounded down, and no more than zero for a debt. */
  predicate WholeTokens(n: int, tokens: real) {
    if tokens >= 0.0 then n as real <= tokens < n as real + 1.0 else n <= 0
  }

  /** Of `tokens`, what `j` more requests at the same instant leave. */
  function LeftAfter(tokens: real, j: nat): real { tokens - Min(j, Max(0, tokens.Floor)) as real }

  lemma OneAtSameInstant(l: Limits, tokens: real, now: real, j: nat)
    requires tokens <= l.Params().capacity
    ensures Eval(l.Params(), Some(Bucket(LeftAfter(tokens, j), now)), now, REQUESTED)
         == (Verdict(j < Max(0, tokens.Floor), LeftAfter(tokens, j + 1)), Bucket(LeftAfter(tokens, j + 1), now))
  {
    assert MaxReal(0.0, now - now) * l.Params().refillPerSec == 0.0;
  }

  lemma LevelAfterEval(l: Limits, data: Option<Bucket>, now: real)
    ensures var (v, b) := Eval(l.Params(), data, now, REQUESTED);
            b == Bucket(v.tokens, now) && v.tokens <= l.Params().capacity
  {
  }

  lemma {:induction false} MemAfterHolds(s: MemStore, r: Request, tokens: real, kept: Limits, k: nat)
    requires Get(s, r.key) == Some(MemBucket(Bucket(tokens, r.now), kept)) && tokens <= kept.Params().capacity
    ensures Get(MemAfter(s, r, k), r.key) == Some(MemBucket(Bucket(LeftAfter(tokens, k), r.now), kept))
    ensures MemStep(MemAfter(s, r, k), r).1.allowed <==> k < Max(0, tokens.Floor)
  {
    if k == 0 {
    } else {
      MemAfterHolds(s, r, tokens, kept, k - 1);
      OneAtSameInstant(kept, tokens, r.now, k - 1);
    }
    OneAtSameInstant(kept, tokens, r.now, k);
  }

  lemma {:induction false} StoreAfterHolds(s: Store, r: Request, tokens: real, k: nat)
    requires Get(s, r.key) == Some(Bucket(tokens, r.now)) && tokens <= r.limits.Params().capacity
    ensures Get(StoreAfter(s, r, k), r.key) == Some(Bucket(LeftAfter(tokens, k), r.now))
    ensures Step(StoreAfter(s, r, k), r).1.allowed <==> k < Max(0, tokens.Floor)
  {
    if k == 0 {
    } else {
      StoreAfterHolds(s, r, tokens, k - 1);
      OneAtSameInstant(r.limits, tokens, r.now, k - 1);
    }
    OneAtSameInstant(r.limits, tokens, r.now, k);
  }

  /**
   What a count of remaining tokens promises on the in-process path: of k > 0
   further requests on the key at the same instant all pass iff k is at most
   that count.
   */
  lemma MapRemainingIsExact(s: MemStore, r: Request, remaining: int, k: nat)
    requires 0 < k && WholeTokens(remaining, MemStep(s, r).1.tokens)
    ensures MemAllPass(MemStep(s, r).0, r, k) <==> k <= remaining
  {
    var held := if r.key in s then s[r.key] else NewBucket(r.limits, r.now);
    var tokens := MemStep(s, r).1.tokens;
    LevelAfterEval(held.limits, Some(held.bucket), r.now);
    forall j: nat
      ensures MemStep(MemAfter(MemStep(s, r).0, r, j), r).1.allowed <==> j < Max(0, tokens.Floor)
    {
      MemAfterHolds(MemStep(s, r).0, r, tokens, held.limits, j);
    }
    var last: nat := k - 1;
    assert MemAllPass(MemStep(s, r).0, r, k) ==> MemStep(MemAfter(MemStep(s, r).0, r, last), r).1.allowed;
  }

  /** The same on the Redis path, for requests with the same limits. */
  lemma RedisRemainingIsExact(s: Store, r: Request, dropped: bool, remaining: int, k: nat)
    requires 0 < k && WholeTokens(remaining, StepTtl(s, r, dropped).1.tokens)
    ensures AllPass(StepTtl(s, r, dropped).0, r, k) <==> k <= remaining
  {
    var (next, v) := StepTtl(s, r, dropped);
    LevelAfterEval(r.limits, if dropped then None else Get(s, r.key), r.now);
    forall j: nat
      ensures !MayDrop(StoreAfter(next, r, j), r)
      ensures Step(StoreAfter(next, r, j), r).1.allowed <==> j < Max(0, v.tokens.Floor)
    {
      StoreAfterHolds(next, r, v.tokens, j);
    }
    var last: nat := k - 1;
    assert AllPass(next, r, k) ==> Step(StoreAfter(next, r, last), r).1.allowed;
  }

  // ----- the table, seen from outside

  function AtOnce(now: real, n: nat): seq<real> { seq(n, _ => now) }

  lemma {:induction false} AtOnceLevel(p: Params, now: real, n: nat, burst: nat, j: nat)
    requires p.capacity == burst as real && j < n
    ensures Level(p, AtOnce(now, n), j) == (burst - Min(j, burst)) as real
  {
    if j == 0 {
    } else {
      AtOnceLevel(p, now, n, burst, j - 1);
      LevelStep(p, AtOnce(now, n), j);
      assert MaxReal(0.0, now - now) * p.refillPerSec == 0.0;
    }
  }

  lemma {:induction false} AtOnceAdmits(p: Params, now: real, n: nat, burst: nat, j: nat)
    requires p.capacity == burst as real && j <= n
    ensures Admitted(p, AtOnce(now, n), 0, j) == Min(j, burst)
  {
    if j == 0 {
    } else {
      AtOnceAdmits(p, now, n, burst, j - 1);
      AtOnceLevel(p, now, n, burst, j - 1);
    }
  }

  /** Requests a fresh key of the tier gets through at once; an unknown tier counts as free. */
  function AtOnceOf(tier: string): nat {
    match tier
    case "anonymous" => 20
    case "developer" => 1500
    case "pro" => 15000
    case _ => 150
  }

  /** Tokens an emptied bucket of the tier earns in a minute. */
  function PerMinuteOf(tier: string): nat {
    match tier
    case "anonymous" => 10
    case "developer" => 1000
    case "pro" => 10000
    case _ => 100
  }

  /** The limits table by what it does: how many requests pass at once, and how much a minute refills. */
  lemma TiersFromOutside(tier: string, now: real, n: nat)
    ensures Admitted(LimitsForTier(tier).Params(), AtOnce(now, n), 0, n) == Min(n, AtOnceOf(tier))
    ensures Filled(LimitsForTier(tier).Params(), Some(Bucket(0.0, now)), now + 60.0) == PerMinuteOf(tier) as real
  {
    AtOnceAdmits(LimitsForTier(tier).Params(), now, n, LimitsForTier(tier).burst, n);
  }

  // ----- keys that change tier

  predicate RefillsWithinTtl(l: Limits) { l.burst <= 60 * l.rpm }

  /** Equal limits, or equal bursts that every whole second refills completely. */
  predicate Interchangeable(a: Limits, b: Limits) {
    a == b || (a.burst == b.burst && 60 * a.burst <= a.rpm && 60 * b.burst <= b.rpm)
  }

  predicate Either(l: Limits, a: Limits, b: Limits) { l == a || l == b }

  predicate UsesEither(rs: seq<Request>, a: Limits, b: Limits) {
    forall i :: 0 <= i < |rs| ==> Either(rs[i].limits, a, b)
  }

  predicate RepliesAgree(rs: seq<Request>, drops: seq<bool>)
    requires |drops| == |rs|
  {
    forall i: nat :: i < |rs| ==> MemReply(rs, i) == ReplyTtl(rs, drops, i)
  }

  /** Both stores answer alike on every run in which requests come with limits `a` or `b`. */
  ghost predicate StoresAgree(a: Limits, b: Limits) {
    forall rs: seq<Request>, drops: seq<bool> ::
      |drops| == |rs| && LegalDrops(rs, drops) && UsesEither(rs, a, b) && WholeSeconds(rs) ==> RepliesAgree(rs, drops)
  }

  lemma AtLeastOnce(delta: real, r: real, cap: real)
    requires 1.0 <= delta && 0.0 <= cap <= r
    ensures cap <= delta * r
  {
  }

  /** Interchangeable limits refill alike between whole seconds. */
  lemma SameRefill(a: Limits, b: Limits, held: Bucket, now: real)
    requires Interchangeable(a, b) && 0.0 <= held.tokens && Whole(held.ts) && Whole(now)
    ensures Filled(a.Params(), Some(held), now) == Filled(b.Params(), Some(held), now)
  {
    if a != b && held.ts < now {
      assert held.ts.Floor < now.Floor;
      AtLeastOnce(now - held.ts, a.Params().refillPerSec, a.Params().capacity);
      AtLeastOnce(now - held.ts, b.Params().refillPerSec, b.Params().capacity);
    }
  }

  /** The two stores hold the same buckets, whichever of the limits the map has kept. */
  predicate Matching(ms: MemStore, s: Store, a: Limits, b: Limits) {
    && ms.Keys == s.Keys
    && forall k :: k in s ==>
         ms[k].bucket == s[k] && Either(ms[k].limits, a, b) && 0.0 <= s[k].tokens && Whole(s[k].ts)
  }

  lemma FilledNonnegative(l: Limits, data: Option<Bucket>, now: real)
    requires data.Some? ==> 0.0 <= data.value.tokens
    ensures 0.0 <= Filled(l.Params(), data, now) <= l.Params().capacity
  {
    var ts := if data.Some? then data.value.ts else now;
    NonnegativeProduct(MaxReal(0.0, now - ts), l.Params().refillPerSec);
  }

  /** The map refills with the limits it kept, the script with those it is sent: the same level. */
  lemma SameLevel(ms: MemStore, s: Store, r: Request, a: Limits, b: Limits)
    requires Matching(ms, s, a, b) && Interchangeable(a, b) && Either(r.limits, a, b) && Whole(r.now)
    ensures MemStep(ms, r).1 == Step(s, r).1
    ensures MemStep(ms, r).0[r.key].bucket == Step(s, r).0[r.key]
  {
    if r.key in s {
      SameRefill(ms[r.key].limits, r.limits, s[r.key], r.now);
    } else {
      MissingKeyIsFull(r.limits.Params(), r.now);
    }
  }

  lemma MatchingStep(ms: MemStore, s: Store, r: Request, a: Limits, b: Limits)
    requires Matching(ms, s, a, b) && Interchangeable(a, b) && Either(r.limits, a, b) && Whole(r.now)
    ensures Matching(MemStep(ms, r).0, Step(s, r).0, a, b)
  {
    SameLevel(ms, s, r, a, b);
    FilledNonnegative(r.limits, Get(s, r.key), r.now);
  }

  lemma {:induction false} StaysMatching(rs: seq<Request>, a: Limits, b: Limits)
    requires Interchangeable(a, b) && UsesEither(rs, a, b) && WholeSeconds(rs)
    ensures Matching(MemRun(rs), Run(rs), a, b)
  {
    if rs == [] {
    } else {
      StaysMatching(Init(rs), a, b);
      assert Last(rs) == rs[|rs| - 1];
      MatchingStep(MemRun(Init(rs)), Run(Init(rs)), Last(rs), a, b);
    }
  }

  lemma InterchangeableAgree(a: Limits, b: Limits)
    requires RefillsWithinTtl(a) && RefillsWithinTtl(b) && Interchangeable(a, b)
    ensures StoresAgree(a, b)
  {
    forall rs: seq<Request>, drops: seq<bool>
      | |drops| == |rs| && LegalDrops(rs, drops) && UsesEither(rs, a, b) && WholeSeconds(rs)
      ensures RepliesAgree(rs, drops)
    {
      forall i: nat | i < |rs| ensures MemReply(rs, i) == ReplyTtl(rs, drops, i) {
        ExpiryIsUnobservable(rs, drops, i);
        StaysMatching(rs[..i], a, b);
        SameLevel(MemRun(rs[..i]), Run(rs[..i]), rs[i], a, b);
      }
    }
  }

  /** Limits whose burst outlasts the hour disagree even alone: the map does not forget. */
  lemma SlowRefillDisagrees(a: Limits, b: Limits)
    requires !RefillsWithinTtl(a)
    ensures !StoresAgree(a, b) && !StoresAgree(b, a)
  {
    var rs, drops, i := DropIsSeen(a);
    MemoryIsScriptOnFirstLimits(rs, i);
    PinningIsVoid(rs);
    assert UsesEither(rs, a, b) && UsesEither(rs, b, a) && !RepliesAgree(rs, drops);
  }

  lemma StepsDisagree(ms: MemStore, s: Store, r: Request, held: MemBucket)
    requires Get(ms, r.key) == Some(held) && Get(s, r.key) == Some(held.bucket)
    requires Filled(held.limits.Params(), Some(held.bucket), r.now)
          != Filled(r.limits.Params(), Some(held.bucket), r.now)
    ensures MemStep(ms, r).1 != StepTtl(s, r, false).1
  {
  }

  lemma OneMoreRequest(before: seq<Request>, r: Request, a: Limits, b: Limits)
    requires UsesEither(before, a, b) && WholeSeconds(before) && Either(r.limits, a, b) && Whole(r.now)
    ensures UsesEither(before + [r], a, b) && WholeSeconds(before + [r])
    ensures |NoDrops(|before| + 1)| == |before + [r]| && LegalDrops(before + [r], NoDrops(|before| + 1))
  {
  }

  /** The replies to one more request, nothing having been dropped. */
  lemma RepliesToLast(before: seq<Request>, r: Request)
    ensures var (n, rs) := (|before|, before + [r]);
            && |NoDrops(n + 1)| == |rs| && |NoDrops(n)| == n
            && MemReply(rs, n) == MemStep(MemRun(before), r).1
            && ReplyTtl(rs, NoDrops(n + 1), n) == StepTtl(RunTtl(before, NoDrops(n)), r, false).1
  {
    assert (before + [r])[..|before|] == before;
    assert NoDrops(|before| + 1)[..|before|] == NoDrops(|before|);
  }

  /** Two stores with the same bucket that refill it to different levels answer differently. */
  lemma DisagreeAfter(before: seq<Request>, r: Request, held: MemBucket, a: Limits, b: Limits)
    requires UsesEither(before, a, b) && WholeSeconds(before) && Either(r.limits, a, b) && Whole(r.now)
    requires Get(MemRun(before), r.key) == Some(held)
    requires Get(RunTtl(before, NoDrops(|before|)), r.key) == Some(held.bucket)
    requires Filled(held.limits.Params(), Some(held.bucket), r.now)
          != Filled(r.limits.Params(), Some(held.bucket), r.now)
    ensures !StoresAgree(a, b)
  {
    StepsDisagree(MemRun(before), RunTtl(before, NoDrops(|before|)), r, held);
    RepliesToLast(before, r);
    OneMoreRequest(before, r, a, b);
    assert !RepliesAgree(before + [r], NoDrops(|before| + 1));
  }

  /** One request on the smaller bucket, one an hour later on the larger. */
  lemma BurstsDisagree(small: Limits, large: Limits, a: Limits, b: Limits)
    requires small.burst < large.burst && RefillsWithinTtl(large) && Either(small, a, b) && Either(large, a, b)
    ensures !StoresAgree(a, b)
  {
    var first := Request("k", small, 0.0);
    var held := MemStep(map[], first).0["k"];
    MissingKeyIsFull(small.Params(), 0.0);
    FilledNonnegative(small, None, 0.0);
    FilledNonnegative(small, Some(held.bucket), TTL);
    DropRefillsNoMore(large, held.bucket, TTL);
    assert Filled(large.Params(), None, TTL) == large.Params().capacity by {
      MissingKeyIsFull(large.Params(), TTL);
    }
    assert Init([first]) == [] && Init(NoDrops(1)) == [];
    DisagreeAfter([first], Request("k", large, TTL), held, a, b);
  }

  /** A second refills an empty bucket differently at different rates, unless it fills it up at both. */
  lemma RatesShow(a: Limits, b: Limits)
    requires a.burst == b.burst && a.rpm != b.rpm && !Interchangeable(a, b)
    ensures Filled(a.Params(), Some(Bucket(0.0, 0.0)), 1.0) != Filled(b.Params(), Some(Bucket(0.0, 0.0)), 1.0)
  {
    assert Filled(a.Params(), Some(Bucket(0.0, 0.0)), 1.0) == MinReal(a.burst as real, a.rpm as real / 60.0);
    assert Filled(b.Params(), Some(Bucket(0.0, 0.0)), 1.0) == MinReal(b.burst as real, b.rpm as real / 60.0);
  }

  /** What the map holds after n requests at once on a fresh key. */
  lemma VolleyInMap(l: Limits, now: real, n: nat)
    requires 0 < n <= l.burst
    ensures Get(MemRun(Volley(l, now, n)), "k") == Some(MemBucket(Bucket((l.burst - n) as real, now), l))
  {
    var rs := Volley(l, now, n);
    VolleyShape(l, now, n);
    VolleyDrains(l, now, n);
    PinningIsVoid(rs);
    MemStoreIsPinnedStore(rs);
    FirstLimitsOccurs(rs, "k");
  }

  /** A burst at time zero on one rate, one request a second later on the other. */
  lemma RatesDisagree(a: Limits, b: Limits)
    requires a.burst == b.burst && a.rpm != b.rpm && !Interchangeable(a, b)
    ensures !StoresAgree(a, b)
  {
    VolleyShape(a, 0.0, a.burst);
    VolleyDrains(a, 0.0, a.burst);
    VolleyInMap(a, 0.0, a.burst);
    RatesShow(a, b);
    DisagreeAfter(Volley(a, 0.0, a.burst), Request("k", b, 1.0), MemBucket(Bucket(0.0, 0.0), a), a, b);
  }

  /**
   The exact condition for the two stores to be interchangeable when keys may
   move between limits `a` and `b`: each refills within the hour, and the two
   are equal or cannot be told apart between whole seconds.
   */
  lemma StoresAgreeIff(a: Limits, b: Limits)
    ensures StoresAgree(a, b) <==> RefillsWithinTtl(a) && RefillsWithinTtl(b) && Interchangeable(a, b)
  {
    if !RefillsWithinTtl(a) {
      SlowRefillDisagrees(a, b);
    } else if !RefillsWithinTtl(b) {
      SlowRefillDisagrees(b, a);
    } else if Interchangeable(a, b) {
      InterchangeableAgree(a, b);
    } else if a.burst < b.burst {
      BurstsDisagree(a, b, a, b);
    } else if b.burst < a.burst {
      BurstsDisagree(b, a, a, b);
    } else {
      RatesDisagree(a, b);
    }
  }

  /** For the tiers of the table: a key that may move between two of them needs them to have the same limits. */
  lemma TierChangeSplitsTheStores(s: string, t: string)
    ensures StoresAgree(LimitsForTier(s), LimitsForTier(t)) <==> LimitsForTier(s) == LimitsForTier(t)
  {
    StoresAgreeIff(LimitsForTier(s), LimitsForTier(t));
  }

  /** The free-to-pro upgrade, one minute after the first request. */
  lemma UpgradeSplitsTheStores()
    ensures var rs := [Request("k", LimitsForTier("free"), 0.0), Request("k", LimitsForTier("pro"), 60.0)];
            Reply(rs, 1) == Verdict(true, 10148.0) && MemReply(rs, 1) == Verdict(true, 149.0)
  {
    var free, pro := LimitsForTier("free"), LimitsForTier("pro");
    var first, second := Request("k", free, 0.0), Request("k", pro, 60.0);
    var left := Bucket(149.0, 0.0);
    assert [first, second][..1] == [first] && Init([first]) == [];
    assert Run([first]) == map["k" := left];
    assert MemRun([first]) == map["k" := MemBucket(left, free)];
    assert Filled(pro.Params(), Some(left), 60.0) == 10149.0;
    assert Filled(free.Params(), Some(left), 60.0) == 150.0;
  }
}
