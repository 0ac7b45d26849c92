/**
 The middleware of src/core/middleware/rateLimiter.ts: the script run against
 Redis, the in-process map of mutable buckets, and the two response headers
 that are computed from the level.
 */
module RateLimiter {
  import opened Prelude
  import opened TokenBucket
  import opened LimiterStore

  // ----- headers

  function Ceil(x: real): int { -((-x).Floor) }

  /** X-RateLimit-Remaining. */
  function RemainingHeader(tokensLeft: real): int { tokensLeft.Floor }

  /** X-RateLimit-Reset, in whole seconds. */
  function ResetHeader(l: Limits, now: int, tokensLeft: real): int {
    now + Ceil((l.Params().capacity - tokensLeft) / MaxReal(0.1, l.Params().refillPerSec))
  }

  /** Redis hands a Lua number back as an integer. */
  function Truncated(x: real): int { if x >= 0.0 then x.Floor else Ceil(x) }

  /** Whether a bucket left with `tokens` at `ts` is full at `when` if nothing asks in between. */
  predicate FullAt(l: Limits, tokens: real, ts: real, when: real) {
    Filled(l.Params(), Some(Bucket(tokens, ts)), when) == l.Params().capacity
  }

  lemma MulMonotone(a: real, b: real, r: real)
    requires a <= b && 0.0 <= r
    ensures a * r <= b * r
  {
  }

  lemma MulStrict(a: real, b: real, r: real)
    requires a < b && 0.0 < r
    ensures a * r < b * r
  {
  }

  lemma DivideThenMultiply(a: real, r: real)
    requires 0.0 < r
    ensures a / r * r == a
  {
  }

  lemma Scaled(a: real, q: real, b: real, r: real)
    requires a < q <= b && 0.0 < r
    ensures a * r < q * r <= b * r
  {
  }

  lemma CeilOfQuotient(missing: real, r: real, n: int)
    requires 0.0 < r && n == Ceil(missing / r)
    ensures (n - 1) as real * r < missing <= n as real * r
  {
    var a, b := (n - 1) as real, n as real;
    DivideThenMultiply(missing, r);
    Scaled(a, missing / r, b, r);
    assert a * r < missing;
    assert missing <= b * r;
  }

  /** The seconds the header adds are enough refill, and one second less is not. */
  lemma SecondsToFull(l: Limits, now: int, tokens: real)
    requires 6 <= l.rpm
    ensures var n, r := ResetHeader(l, now, tokens) - now, l.Params().refillPerSec;
            (n - 1) as real * r < l.Params().capacity - tokens <= n as real * r
  {
    var r, missing := l.Params().refillPerSec, l.Params().capacity - tokens;
    assert MaxReal(0.1, r) == r;
    CeilOfQuotient(missing, r, ResetHeader(l, now, tokens) - now);
  }

  /**
   Redis path: the bucket is full at the advertised second, also when Redis
   hands the token count back truncated to an integer.
   */
  lemma FullAtReset(l: Limits, now: int, tokens: real, reported: real)
    requires 6 <= l.rpm && 0.0 <= reported <= tokens <= l.Params().capacity
    ensures now <= ResetHeader(l, now, reported)
    ensures FullAt(l, tokens, now as real, ResetHeader(l, now, reported) as real)
  {
    SecondsToFull(l, now, reported);
    var n, r := ResetHeader(l, now, reported) - now, l.Params().refillPerSec;
    if n < 0 {
      MulStrict(n as real, 0.0, r);
    }
  }

  lemma Below(x: real, y: real, z: real, bound: real)
    requires x <= y < z == bound
    ensures x < bound
  {
  }

  lemma TooShortWait(l: Limits, tokens: real, ts: real, when: real, wait: real)
    requires 0.0 <= wait == when - ts && wait * l.Params().refillPerSec < l.Params().capacity - tokens
    ensures !FullAt(l, tokens, ts, when)
  {
    SameProduct(MaxReal(0.0, when - ts), wait, l.Params().refillPerSec);
  }

  /** With the exact token count the header is tight: no earlier second finds the bucket full. */
  lemma NotFullBeforeReset(l: Limits, now: int, tokens: real, s: int)
    requires 6 <= l.rpm && 0.0 <= tokens <= l.Params().capacity
    requires now <= s < ResetHeader(l, now, tokens)
    ensures !FullAt(l, tokens, now as real, s as real)
  {
    SecondsToFull(l, now, tokens);
    var n, r := ResetHeader(l, now, tokens) - now, l.Params().refillPerSec;
    var missing := l.Params().capacity - tokens;
    MulMonotone((s - now) as real, (n - 1) as real, r);
    Below((s - now) as real * r, (n - 1) as real * r, missing, missing);
    TooShortWait(l, tokens, now as real, s as real, (s - now) as real);
  }

  /** The header's promise to a bucket asked in the middle of a second, `ms` thousandths past `now`. */
  predicate ResetKept(l: Limits, now: int, ms: int, tokens: real) {
    FullAt(l, tokens, now as real + ms as real / 1000.0, ResetHeader(l, now, tokens) as real)
  }

  ghost predicate ResetAlwaysKept(l: Limits) {
    forall now: int, tokens: real :: 0.0 <= tokens <= l.Params().capacity ==> ResetKept(l, now, 0, tokens)
  }

  lemma NoBurstIsFull(l: Limits, now: int, ms: int, tokens: real)
    requires l.burst == 0 && 0.0 <= tokens <= l.Params().capacity
    ensures ResetKept(l, now, ms, tokens)
  {
    var ts := now as real + ms as real / 1000.0;
    NonnegativeProduct(MaxReal(0.0, ResetHeader(l, now, tokens) as real - ts), l.Params().refillPerSec);
  }

  lemma TenfoldHeader(l: Limits, now: int)
    requires l.rpm < 6
    ensures ResetHeader(l, now, 0.0) == now + 10 * l.burst
  {
    assert l.Params().refillPerSec < 0.1;
    assert (l.Params().capacity - 0.0) / 0.1 == (10 * l.burst) as real;
  }

  lemma SlowProduct(wait: real, cap: real, r: real)
    requires wait <= 10.0 * cap && 0.0 <= r < 0.1 && 0.0 < cap
    ensures wait * r < cap
  {
    var most := 10.0 * cap;
    MulMonotone(wait, most, r);
    MulStrict(r, 0.1, most);
    Below(wait * r, r * most, 0.1 * most, cap);
  }

  /** Below 6 rpm the header divides by more than the bucket earns: an empty bucket is not full in time. */
  lemma SlowRateIsLate(l: Limits, now: int, ms: int)
    requires l.rpm < 6 && 0 < l.burst && 0 <= ms
    ensures !ResetKept(l, now, ms, 0.0)
  {
    TenfoldHeader(l, now);
    var wait := MaxReal(0.0, ResetHeader(l, now, 0.0) as real - (now as real + ms as real / 1000.0));
    SlowProduct(wait, l.Params().capacity, l.Params().refillPerSec);
  }

  /** The floor of 0.1 tokens per second in the header is honest exactly from 6 rpm on. */
  lemma ResetAlwaysKeptIff(l: Limits)
    ensures ResetAlwaysKept(l) <==> 6 <= l.rpm || l.burst == 0
  {
    if 6 <= l.rpm || l.burst == 0 {
      forall now: int, tokens: real | 0.0 <= tokens <= l.Params().capacity ensures ResetKept(l, now, 0, tokens) {
        if 6 <= l.rpm {
          FullAtReset(l, now, tokens, tokens);
        } else {
          NoBurstIsFull(l, now, 0, tokens);
        }
      }
    } else {
      SlowRateIsLate(l, 0, 0);
    }
  }

  lemma EnoughWait(l: Limits, tokens: real, ts: real, when: real, wait: real)
    requires 0.0 <= wait <= when - ts && l.Params().capacity <= tokens + wait * l.Params().refillPerSec
    ensures FullAt(l, tokens, ts, when)
  {
    MulMonotone(wait, when - ts, l.Params().refillPerSec);
  }

  /**
   In-process path: the bucket remembers milliseconds while the header counts
   from the floored second, so one second more than advertised always fills it.
   */
  lemma FullOneSecondAfterReset(l: Limits, nowMs: int, tokens: real)
    requires 6 <= l.rpm && 0.0 <= tokens <= l.Params().capacity
    ensures FullAt(l, tokens, nowMs as real / 1000.0, (ResetHeader(l, nowMs / 1000, tokens) + 1) as real)
  {
    var now, ts, reset := nowMs / 1000, nowMs as real / 1000.0, ResetHeader(l, nowMs / 1000, tokens);
    SecondsToFull(l, now, tokens);
    FullAtReset(l, now, tokens, tokens);
    assert nowMs < 1000 * (now + 1);
    EnoughWait(l, tokens, ts, (reset + 1) as real, (reset - now) as real);
  }

  /** The header's promise on the in-process path, for every level of the bucket. */
  ghost predicate InProcessResetKept(l: Limits, nowMs: int) {
    forall tokens: real :: 0.0 <= tokens <= l.Params().capacity ==> ResetKept(l, nowMs / 1000, nowMs % 1000, tokens)
  }

  /** What is left of the current second refills the whole bucket. */
  predicate RestOfSecondFills(l: Limits, ms: int) {
    (1000 - ms) * l.rpm >= 60000 * l.burst
  }

  lemma RestOfSecond(l: Limits, ms: int)
    requires 0 <= ms < 1000
    ensures RestOfSecondFills(l, ms) <==> (1.0 - ms as real / 1000.0) * l.Params().refillPerSec >= l.Params().capacity
  {
    var left := 1.0 - ms as real / 1000.0;
    assert left * 60000.0 == (60 * (1000 - ms)) as real;
    assert ((1000 - ms) * l.rpm) as real == (1000 - ms) as real * l.rpm as real;
    SameShare(left, (1000 - ms) as real, l.rpm as real);
  }

  lemma SameShare(left: real, ms: real, rpm: real)
    requires left * 1000.0 == ms
    ensures left * (rpm / 60.0) * 60000.0 == ms * rpm
  {
  }

  lemma FullStaysFull(l: Limits, ts: real, when: real)
    ensures FullAt(l, l.Params().capacity, ts, when)
  {
    NonnegativeProduct(MaxReal(0.0, when - ts), l.Params().refillPerSec);
  }

  /** A bucket that is not full is promised full at the next second or later. */
  lemma PromisedLater(l: Limits, now: int, tokens: real)
    requires 6 <= l.rpm && tokens < l.Params().capacity
    ensures now + 1 <= ResetHeader(l, now, tokens)
  {
    SecondsToFull(l, now, tokens);
    var n, r := ResetHeader(l, now, tokens) - now, l.Params().refillPerSec;
    if n <= 0 {
      MulMonotone(n as real, 0.0, r);
    }
  }

  /** A bucket that misses at most one second's refill is promised full at the next second. */
  lemma NextSecondPromised(l: Limits, now: int, tokens: real)
    requires 6 <= l.rpm && tokens < l.Params().capacity <= tokens + l.Params().refillPerSec
    ensures ResetHeader(l, now, tokens) == now + 1
  {
    PromisedLater(l, now, tokens);
    SecondsToFull(l, now, tokens);
    var n, r := ResetHeader(l, now, tokens) - now, l.Params().refillPerSec;
    if n >= 2 {
      MulMonotone(1.0, (n - 1) as real, r);
    }
  }

  lemma PartOfSecond(left: real, r: real, cap: real)
    requires left < 1.0 && 0.0 < r && left * r < cap
    ensures left * r < MinReal(r, cap)
  {
    MulStrict(left, 1.0, r);
  }

  /** In the middle of a second, a bucket that misses one second's refill, or everything, is not full in time. */
  lemma MiddleOfSecondIsEarly(l: Limits, now: int, ms: int) returns (tokens: real)
    requires 6 <= l.rpm && 0 < l.burst && 0 < ms < 1000 && !RestOfSecondFills(l, ms)
    ensures 0.0 <= tokens <= l.Params().capacity && !ResetKept(l, now, ms, tokens)
  {
    var r, cap, left := l.Params().refillPerSec, l.Params().capacity, 1.0 - ms as real / 1000.0;
    tokens := cap - MinReal(r, cap);
    NextSecondPromised(l, now, tokens);
    RestOfSecond(l, ms);
    PartOfSecond(left, r, cap);
    TooShortWait(l, tokens, now as real + ms as real / 1000.0, (now + 1) as real, left);
  }

  /** If the rest of the second fills the bucket, it is full at the advertised second from any level. */
  lemma RestOfSecondSuffices(l: Limits, now: int, ms: int, tokens: real)
    requires 6 <= l.rpm && 0 <= ms < 1000 && RestOfSecondFills(l, ms) && 0.0 <= tokens <= l.Params().capacity
    ensures ResetKept(l, now, ms, tokens)
  {
    var ts, reset := now as real + ms as real / 1000.0, ResetHeader(l, now, tokens);
    if tokens < l.Params().capacity {
      PromisedLater(l, now, tokens);
      RestOfSecond(l, ms);
      EnoughWait(l, tokens, ts, reset as real, 1.0 - ms as real / 1000.0);
    } else {
      FullStaysFull(l, ts, reset as real);
    }
  }

  /**
   The exact condition for the promise on the in-process path: the request is
   evaluated on a whole second, or what is left of the second fills the bucket
   (or it can hold nothing); and the rate is one the header does not floor.
   */
  lemma InProcessResetKeptIff(l: Limits, nowMs: int)
    ensures InProcessResetKept(l, nowMs)
       <==> l.burst == 0 || (6 <= l.rpm && (nowMs % 1000 == 0 || RestOfSecondFills(l, nowMs % 1000)))
  {
    var now, ms := nowMs / 1000, nowMs % 1000;
    if l.burst == 0 {
      forall tokens: real | 0.0 <= tokens <= l.Params().capacity ensures ResetKept(l, now, ms, tokens) {
        NoBurstIsFull(l, now, ms, tokens);
      }
    } else if l.rpm < 6 {
      SlowRateIsLate(l, now, ms);
    } else if ms == 0 || RestOfSecondFills(l, ms) {
      forall tokens: real | 0.0 <= tokens <= l.Params().capacity ensures ResetKept(l, now, ms, tokens) {
        if ms == 0 {
          FullAtReset(l, now, tokens, tokens);
        } else {
          RestOfSecondSuffices(l, now, ms, tokens);
        }
      }
    } else {
      var tokens := MiddleOfSecondIsEarly(l, now, ms);
    }
  }

  /** For the tiers of the table: the header is kept from every level exactly on whole seconds. */
  lemma TierResetKeptIff(tier: string, nowMs: int)
    ensures InProcessResetKept(LimitsForTier(tier), nowMs) <==> nowMs % 1000 == 0
  {
    var l, ms := LimitsForTier(tier), nowMs % 1000;
    assert 0 < l.rpm <= 60 * l.burst && 6 <= l.rpm;
    if 0 < ms {
      MulLess(1000 - ms, 1000, l.rpm);
    }
    InProcessResetKeptIff(l, nowMs);
  }

  lemma MulLess(a: int, b: int, n: int)
    requires a < b && 0 < n
    ensures a * n < b * n
  {
  }

  lemma SameCount(n: int, s: int, r: real, missing: real)
    requires 0.0 < r && (n - 1) as real * r < missing <= n as real * r && missing == s as real * r
    ensures n == s
  {
    if n < s {
      MulStrict(n as real, s as real, r);
    } else if s < n {
      MulMonotone(s as real, (n - 1) as real, r);
    }
  }

  /** A bucket that misses exactly `s` seconds of refill is promised full after `s` seconds. */
  lemma ExactHeader(l: Limits, now: int, tokens: real, s: int)
    requires 6 <= l.rpm && l.Params().capacity - tokens == s as real * l.Params().refillPerSec
    ensures ResetHeader(l, now, tokens) == now + s
  {
    SecondsToFull(l, now, tokens);
    SameCount(ResetHeader(l, now, tokens) - now, s, l.Params().refillPerSec, l.Params().capacity - tokens);
  }

  /** Off the full second, such a bucket is not full when promised. */
  lemma WholeSecondsAreEarly(l: Limits, now: int, ms: int, tokens: real, s: int)
    requires 6 <= l.rpm && 0 < ms < 1000 && 0 < s
    requires l.Params().capacity - tokens == s as real * l.Params().refillPerSec
    ensures !ResetKept(l, now, ms, tokens)
  {
    var wait := s as real - ms as real / 1000.0;
    ExactHeader(l, now, tokens, s);
    MulStrict(wait, s as real, l.Params().refillPerSec);
    TooShortWait(l, tokens, now as real + ms as real / 1000.0, (now + s) as real, wait);
  }

  lemma TokensOfSeconds(l: Limits, n: nat, s: nat)
    requires 60 * n == s * l.rpm
    ensures n as real == s as real * l.Params().refillPerSec
  {
    assert 60.0 * n as real == (s * l.rpm) as real == s as real * l.rpm as real;
    Sixtieth(s as real, l.rpm as real);
  }

  lemma Sixtieth(s: real, rpm: real)
    ensures 60.0 * (s * (rpm / 60.0)) == s * rpm
  {
  }

  /** A fresh key that asks n times in a millisecond off the full second, n being worth whole seconds. */
  lemma VolleyIsEarly(l: Limits, nowMs: int, n: nat, s: nat)
    requires 6 <= l.rpm && 0 < n <= l.burst && 0 < s && 60 * n == s * l.rpm && nowMs % 1000 != 0
    ensures HeaderBroken(l, nowMs, n)
  {
    TokensOfSeconds(l, n, s);
    VolleyInMap(l, nowMs as real / 1000.0, n);
    WholeSecondsAreEarly(l, nowMs / 1000, nowMs % 1000, (l.burst - n) as real, s);
  }

  /** After n requests in one millisecond, the map's bucket of a fresh key misses what the last header promised. */
  predicate HeaderBroken(l: Limits, nowMs: int, n: nat) {
    var held := Get(MemRun(Volley(l, nowMs as real / 1000.0, n)), "k");
    held.Some? && held.value.limits == l && !ResetKept(l, nowMs / 1000, nowMs % 1000, held.value.bucket.tokens)
  }

  /**
   The promise is broken by runs, not only by levels no run leaves behind: on
   every tier of the table, some number of requests in one millisecond breaks
   it exactly off the full second.
   */
  lemma TierHeaderBrokenIff(tier: string, nowMs: int)
    ensures (exists n: nat :: 0 < n <= LimitsForTier(tier).burst && HeaderBroken(LimitsForTier(tier), nowMs, n))
       <==> nowMs % 1000 != 0
  {
    var l := LimitsForTier(tier);
    if nowMs % 1000 != 0 {
      var n, s := if l.rpm == 10 then 1 else l.rpm / 20, if l.rpm == 10 then 6 else 3;
      VolleyIsEarly(l, nowMs, n, s);
    } else {
      forall n: nat | 0 < n <= l.burst ensures !HeaderBroken(l, nowMs, n) {
        VolleyInMap(l, nowMs as real / 1000.0, n);
        TierResetKeptIff(tier, nowMs);
      }
    }
  }

  /** An instance: the free tier, one token short in the last millisecond of a second. */
  lemma InProcessResetIsEarly()
    ensures ResetHeader(LimitsForTier("free"), 999 / 1000, 149.0) == 1
    ensures !FullAt(LimitsForTier("free"), 149.0, 999 as real / 1000.0, 1.0)
  {
  }

  // ----- the header of a reply

  lemma {:induction false} LevelsWithinBounds(rs: seq<Request>, drops: seq<bool>)
    requires |drops| == |rs|
    ensures forall key :: key in RunTtl(rs, drops) ==> 0.0 <= RunTtl(rs, drops)[key].tokens
  {
    if rs == [] {
    } else {
      LevelsWithinBounds(Init(rs), Init(drops));
      var r := Last(rs);
      var data := if Last(drops) then None else Get(RunTtl(Init(rs), Init(drops)), r.key);
      FilledNonnegative(r.limits, data, r.now);
    }
  }

  /**
   End to end on the Redis path: after any run, with keys dropped at will, the
   second advertised from the truncated token count of the reply finds the
   bucket full if nothing is asked in between.
   */
  lemma AdvertisedResetIsKept(rs: seq<Request>, drops: seq<bool>, i: nat, now: int)
    requires i < |rs| == |drops| && rs[i].now == now as real && 6 <= rs[i].limits.rpm
    ensures var (l, left) := (rs[i].limits, ReplyTtl(rs, drops, i).tokens);
            FullAt(l, left, now as real, ResetHeader(l, now, Truncated(left) as real) as real)
  {
    var data := if drops[i] then None else Get(RunTtl(rs[..i], drops[..i]), rs[i].key);
    LevelsWithinBounds(rs[..i], drops[..i]);
    FilledNonnegative(rs[i].limits, data, rs[i].now);
    var left := ReplyTtl(rs, drops, i).tokens;
    FullAtReset(rs[i].limits, now, left, Truncated(left) as real);
  }

  // ----- Redis

  /** The Redis database as the script sees it. */
  class RedisStore {
    var hashes: map<string, Bucket>

    constructor ()
      ensures hashes == map[]
    {
      hashes := map[];
    }

    /** EVAL of the script; `dropped` tells whether the key had expired. */
    method Eval(key: string, l: Limits, now: int, dropped: bool) returns (allowed: bool, tokensLeft: real)
      modifies this
      ensures var (s, v) := StepTtl(old(hashes), Request(key, l, now as real), dropped);
              hashes == s && Verdict(allowed, tokensLeft) == v
    {
      var capacity, refillPerSec := l.Params().capacity, l.Params().refillPerSec;
      var data := if dropped then None else Get(hashes, key);
      var tokens := if data.Some? then data.value.tokens else capacity;
      var ts := if data.Some? then data.value.ts else now as real;
      var delta := MaxReal(0.0, now as real - ts);
      var filled := MinReal(capacity, tokens + delta * refillPerSec);
      if filled < REQUESTED {
        hashes := hashes[key := Bucket(filled, now as real)];
        return false, filled;
      } else {
        var newtokens := filled - REQUESTED;
        hashes := hashes[key := Bucket(newtokens, now as real)];
        return true, newtokens;
      }
    }

    /**
     The middleware's answer on this path: the headers come from the truncated
     token count.  An evaluation that throws lets the request through as on a
     full bucket and has no effect on the database.
     */
    method Handle(prefix: string, tier: string, nowMs: int, dropped: bool, evalOk: bool)
      returns (allowed: bool, remaining: int, reset: int)
      modifies this
      ensures var (l, now) := (LimitsForTier(tier), nowMs / 1000);
              var (s, v) := StepTtl(old(hashes), Request("tb:" + prefix, l, now as real), dropped);
              if evalOk then
                && hashes == s && allowed == v.allowed && WholeTokens(remaining, v.tokens)
                && remaining == Truncated(v.tokens) && reset == ResetHeader(l, now, Truncated(v.tokens) as real)
              else
                hashes == old(hashes) && allowed && remaining == l.burst && reset == now
      ensures var r := Request("tb:" + prefix, LimitsForTier(tier), (nowMs / 1000) as real);
              evalOk ==> forall k: nat :: 0 < k ==> (AllPass(hashes, r, k) <==> k <= remaining)
    {
      ghost var before := hashes;
      var limits := LimitsForTier(tier);
      var now := nowMs / 1000;
      allowed := true;
      var tokensLeft := limits.Params().capacity;
      if evalOk {
        var left;
        allowed, left := Eval("tb:" + prefix, limits, now, dropped);
        tokensLeft := Truncated(left) as real;
      }
      remaining := RemainingHeader(tokensLeft);
      reset := ResetHeader(limits, now, tokensLeft);
      ghost var r := Request("tb:" + prefix, limits, now as real);
      forall k: nat | evalOk && 0 < k ensures AllPass(hashes, r, k) <==> k <= remaining {
        RedisRemainingIsExact(before, r, dropped, remaining, k);
      }
    }
  }

  // ----- the in-process map

  class MemoryBucket {
    var tokens: real
    var last: int
    const limits: Limits

    constructor (tokens: real, last: int, limits: Limits)
      ensures this.tokens == tokens && this.last == last && this.limits == limits
    {
      this.tokens, this.last, this.limits := tokens, last, limits;
    }

    ghost function View(): MemBucket
      reads this
    {
      MemBucket(Bucket(tokens, last as real / 1000.0), limits)
    }

    /** Refill since the last request, then spend one token if there is one. */
    method Take(nowMs: int) returns (allowed: bool, tokensLeft: real)
      modifies this
      ensures (View(), Verdict(allowed, tokensLeft)) == Taken(old(View()), nowMs as real / 1000.0)
    {
      var deltaMs := Max(0, nowMs - last);
      assert deltaMs as real / 1000.0 == MaxReal(0.0, nowMs as real / 1000.0 - last as real / 1000.0);
      var refill := deltaMs as real / 1000.0 * limits.Params().refillPerSec;
      tokens := MinReal(limits.Params().capacity, tokens + refill);
      last := nowMs;
      if tokens < REQUESTED {
        return false, tokens;
      } else {
        tokens := tokens - REQUESTED;
        return true, tokens;
      }
    }
  }

  class MemoryLimiter {
    var memoryBuckets: map<string, MemoryBucket>

    /** No two keys share a bucket object. */
    ghost predicate Valid()
      reads this
    {
      forall j, k :: j in memoryBuckets && k in memoryBuckets && j != k ==> memoryBuckets[j] != memoryBuckets[k]
    }

    ghost function View(): MemStore
      reads this, memoryBuckets.Values
    {
      map k | k in memoryBuckets :: memoryBuckets[k].View()
    }

    constructor ()
      ensures Valid() && View() == map[]
    {
      memoryBuckets := map[];
    }

    /** The bucket of a key, or a full one created now. */
    method BucketOf(key: string, limits: Limits, nowMs: int) returns (bucket: MemoryBucket)
      ensures if key in memoryBuckets then bucket == memoryBuckets[key] else fresh(bucket)
      ensures bucket.View() == Held(key, limits, nowMs)
    {
      if key in memoryBuckets {
        bucket := memoryBuckets[key];
      } else {
        bucket := new MemoryBucket(limits.Params().capacity, nowMs, limits);
      }
    }

    /** The bucket a key has, or would be given now. */
    ghost function Held(key: string, limits: Limits, nowMs: int): MemBucket
      reads this, memoryBuckets.Values
    {
      if key in memoryBuckets then memoryBuckets[key].View()
      else NewBucket(limits, nowMs as real / 1000.0)
    }

    /** Takes from the key's bucket; the buckets of all other keys stay as they were. */
    method TakeFrom(key: string, limits: Limits, nowMs: int) returns (allowed: bool, tokensLeft: real)
      requires Valid()
      modifies this, memoryBuckets.Values
      ensures Valid() && memoryBuckets.Keys == old(memoryBuckets).Keys + {key}
      ensures forall k :: k in memoryBuckets && k != key ==> memoryBuckets[k].View() == old(View())[k]
      ensures (memoryBuckets[key].View(), Verdict(allowed, tokensLeft))
           == Taken(old(Held(key, limits, nowMs)), nowMs as real / 1000.0)
    {
      var bucket := BucketOf(key, limits, nowMs);
      assert forall k :: k in memoryBuckets && k != key ==> memoryBuckets[k] != bucket;
      allowed, tokensLeft := bucket.Take(nowMs);
      memoryBuckets := memoryBuckets[key := bucket];
    }

    lemma ViewChangedAt(before: MemStore, key: string)
      requires key in memoryBuckets && memoryBuckets.Keys == before.Keys + {key}
      requires forall k :: k in memoryBuckets && k != key ==> memoryBuckets[k].View() == before[k]
      ensures View() == before[key := memoryBuckets[key].View()]
    {
    }

    /** One request: its verdict, and the bucket map it leaves. */
    method Admit(key: string, limits: Limits, nowMs: int) returns (allowed: bool, tokensLeft: real)
      requires Valid()
      modifies this, memoryBuckets.Values
      ensures Valid()
      ensures (View(), Verdict(allowed, tokensLeft))
           == MemStep(old(View()), Request(key, limits, nowMs as real / 1000.0))
    {
      ghost var before := View();
      allowed, tokensLeft := TakeFrom(key, limits, nowMs);
      ViewChangedAt(before, key);
    }

    /** The middleware's answer: the verdict and the two headers computed from it. */
    method Handle(key: string, tier: string, nowMs: int) returns (allowed: bool, remaining: int, reset: int)
      requires Valid()
      modifies this, memoryBuckets.Values
      ensures Valid()
      ensures var l := LimitsForTier(tier);
              var (s, v) := MemStep(old(View()), Request(key, l, nowMs as real / 1000.0));
              && View() == s && allowed == v.allowed && WholeTokens(remaining, v.tokens)
              && remaining == RemainingHeader(v.tokens) && reset == ResetHeader(l, nowMs / 1000, v.tokens)
      ensures var r := Request(key, LimitsForTier(tier), nowMs as real / 1000.0);
              forall k: nat :: 0 < k ==> (MemAllPass(View(), r, k) <==> k <= remaining)
    {
      var limits := LimitsForTier(tier);
      var now := nowMs / 1000;
      var tokensLeft;
      ghost var before, r := View(), Request(key, limits, nowMs as real / 1000.0);
      allowed, tokensLeft := Admit(key, limits, nowMs);
      remaining := RemainingHeader(tokensLeft);
      reset := ResetHeader(limits, now, tokensLeft);
      forall k: nat | 0 < k ensures MemAllPass(View(), r, k) <==> k <= remaining {
        MapRemainingIsExact(before, r, remaining, k);
      }
    }
  }
}
