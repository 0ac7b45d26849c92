/**
 The token bucket of src/core/middleware/rateLimiter.ts on one key.

 A run is the sequence `t` of the times, in seconds, at which the requests of
 one key are evaluated, starting from a key the store does not hold.  Nothing
 is assumed about the clock: it may stand still and it may go backwards.
 */
module TokenBucket {
  import opened Prelude

  /** What one call passes to the script: bucket size and tokens per second. */
  datatype Params = Params(capacity: real, refillPerSec: real) {
    predicate Valid() { 0.0 <= capacity && 0.0 <= refillPerSec }
  }

  /** The two hash fields the script keeps under a key. */
  datatype Bucket = Bucket(tokens: real, ts: real)

  datatype Verdict = Verdict(allowed: bool, tokens: real)

  /** Level after refilling; a missing key counts as a full bucket filled now. */
  function Filled(p: Params, data: Option<Bucket>, now: real): real {
    var tokens := if data.Some? then data.value.tokens else p.capacity;
    var ts := if data.Some? then data.value.ts else now;
    var delta := MaxReal(0.0, now - ts);
    MinReal(p.capacity, tokens + delta * p.refillPerSec)
  }

  function Decide(filled: real, requested: real): Verdict {
    if filled < requested then Verdict(false, filled) else Verdict(true, filled - requested)
  }

  /** One evaluation of the script: its reply and the fields it writes back. */
  function Eval(p: Params, data: Option<Bucket>, now: real, requested: real): (Verdict, Bucket) {
    var v := Decide(Filled(p, data, now), requested);
    (v, Bucket(v.tokens, now))
  }

  /** The bucket before spending at request `j`. */
  function Level(p: Params, t: seq<real>, j: nat): real
    requires j < |t|
    decreases j, 0
  {
    if j == 0 then p.capacity else Filled(p, Some(Bucket(After(p, t, j - 1), t[j - 1])), t[j])
  }

  /** The bucket after request `j`. */
  function After(p: Params, t: seq<real>, j: nat): real
    requires j < |t|
    decreases j, 1
  {
    Decide(Level(p, t, j), 1.0).tokens
  }

  predicate Allowed(p: Params, t: seq<real>, j: nat)
    requires j < |t|
  {
    Level(p, t, j) >= 1.0
  }

  /** How many of the requests i, i+1, ..., j-1 are let through. */
  function Admitted(p: Params, t: seq<real>, i: nat, j: nat): nat
    requires i <= j <= |t|
    decreases j
  {
    if i == j then 0 else Admitted(p, t, i, j - 1) + if Allowed(p, t, j - 1) then 1 else 0
  }

  /** Forward movement of the clock between two requests; backward jumps count as zero. */
  function Elapsed(t: seq<real>, i: nat, j: nat): real
    requires i <= j < |t|
    decreases j
  {
    if i == j then 0.0 else Elapsed(t, i, j - 1) + MaxReal(0.0, t[j] - t[j - 1])
  }

  /** Tokens refilled between two consecutive requests, before the cap. */
  function Gain(p: Params, t: seq<real>, j: nat): real
    requires 0 < j < |t|
  {
    MaxReal(0.0, t[j] - t[j - 1]) * p.refillPerSec
  }

  /** Tokens the clock movements of a window are worth. */
  function Refilled(p: Params, t: seq<real>, i: nat, j: nat): real
    requires i <= j < |t|
    decreases j
  {
    if i == j then 0.0 else Refilled(p, t, i, j - 1) + Gain(p, t, j)
  }

  /** What the limit grants the requests i, ..., j: the burst and the refill between them. */
  function Allowance(p: Params, t: seq<real>, i: nat, j: nat): real
    requires i <= j < |t|
  {
    p.capacity + Refilled(p, t, i, j)
  }

  /** Tokens a bucket that was full at request `i` could still give at request `j`. */
  function Room(p: Params, t: seq<real>, i: nat, j: nat): real
    requires i <= j < |t|
  {
    Allowance(p, t, i, j) - Admitted(p, t, i, j) as real
  }

  predicate Nondecreasing(t: seq<real>) {
    forall i, j :: 0 <= i < j < |t| ==> t[i] <= t[j]
  }

  /** A key that is missing and a bucket that is full and fresh are the same to the script. */
  lemma MissingKeyIsFull(p: Params, now: real)
    ensures Filled(p, None, now) == Filled(p, Some(Bucket(p.capacity, now)), now)
  {
  }

  lemma NonnegativeProduct(a: real, b: real)
    requires 0.0 <= a && 0.0 <= b
    ensures 0.0 <= a * b
  {
  }

  lemma {:induction false} LevelBounds(p: Params, t: seq<real>, j: nat)
    requires p.Valid() && j < |t|
    ensures 0.0 <= Level(p, t, j) <= p.capacity
    ensures 0.0 <= After(p, t, j)
  {
    if j == 0 {
    } else {
      LevelBounds(p, t, j - 1);
      NonnegativeProduct(MaxReal(0.0, t[j] - t[j - 1]), p.refillPerSec);
    }
  }

  lemma LevelStep(p: Params, t: seq<real>, j: nat)
    requires 0 < j < |t|
    ensures Level(p, t, j) == MinReal(p.capacity, After(p, t, j - 1) + Gain(p, t, j))
  {
  }

  lemma {:induction false} LevelAtMostRoom(p: Params, t: seq<real>, i: nat, j: nat)
    requires i <= j < |t|
    ensures Level(p, t, j) <= Room(p, t, i, j)
  {
    if j == 0 {
    } else {
      LevelStep(p, t, j);
      if i < j {
        LevelAtMostRoom(p, t, i, j - 1);
      }
    }
  }

  /** The window whose room is the level: it starts where the bucket was last full. */
  lemma {:induction false} TightWindow(p: Params, t: seq<real>, j: nat) returns (i: nat)
    requires j < |t|
    ensures i <= j && Level(p, t, j) == Room(p, t, i, j)
  {
    i := j;
    if j == 0 {
    } else {
      LevelStep(p, t, j);
      if Level(p, t, j) != p.capacity {
        i := TightWindow(p, t, j - 1);
      }
    }
  }

  /**
   Closed form: the level at a request is the least room that any window
   ending there leaves.
   */
  lemma LevelIsLeastRoom(p: Params, t: seq<real>, j: nat)
    requires j < |t|
    ensures forall i: nat :: i <= j ==> Level(p, t, j) <= Room(p, t, i, j)
    ensures exists i: nat :: i <= j && Level(p, t, j) == Room(p, t, i, j)
  {
    forall i: nat | i <= j ensures Level(p, t, j) <= Room(p, t, i, j) {
      LevelAtMostRoom(p, t, i, j);
    }
    var i := TightWindow(p, t, j);
  }

  /** Every window that ends at request `j` has room for it. */
  predicate WindowsHaveRoom(p: Params, t: seq<real>, j: nat)
    requires j < |t|
  {
    forall i: nat {:trigger Room(p, t, i, j)} :: i <= j ==> Room(p, t, i, j) >= 1.0
  }

  /** A request passes exactly when every window that ends at it has room for it. */
  lemma AllowedIffEveryWindowHasRoom(p: Params, t: seq<real>, j: nat)
    requires j < |t|
    ensures Allowed(p, t, j) <==> WindowsHaveRoom(p, t, j)
  {
    LevelIsLeastRoom(p, t, j);
  }

  /** The limit itself: no window of any run admits more than its burst plus its refill. */
  lemma RateBound(p: Params, t: seq<real>, i: nat, j: nat)
    requires p.Valid() && i <= j < |t|
    ensures Admitted(p, t, i, j + 1) as real <= Allowance(p, t, i, j)
  {
    LevelAtMostRoom(p, t, i, j);
    LevelBounds(p, t, j);
  }

  lemma {:induction false} AllAdmittedCount(p: Params, t: seq<real>, i: nat, j: nat)
    requires i <= j <= |t|
    requires forall k: nat :: i <= k < j ==> Allowed(p, t, k)
    ensures Admitted(p, t, i, j) == j - i
  {
    if i == j {
    } else {
      AllAdmittedCount(p, t, i, j - 1);
    }
  }

  /** Every window of `n` requests fits the bucket. */
  predicate EveryWindowFits(p: Params, t: seq<real>) {
    forall i: nat, j: nat {:trigger Allowance(p, t, i, j)} :: i <= j < |t| ==>
      (j - i + 1) as real <= Allowance(p, t, i, j)
  }

  lemma {:induction false} FittingPrefixIsAdmitted(p: Params, t: seq<real>, n: nat)
    requires n <= |t| && EveryWindowFits(p, t)
    ensures forall k: nat :: k < n ==> Allowed(p, t, k)
  {
    if n == 0 {
    } else {
      var j := n - 1;
      FittingPrefixIsAdmitted(p, t, j);
      var i := TightWindow(p, t, j);
      AllAdmittedCount(p, t, i, j);
    }
  }

  /** A run passes in full exactly when each of its windows fits. */
  lemma WholeRunAdmittedIffWindowsFit(p: Params, t: seq<real>)
    requires p.Valid()
    ensures (forall k: nat :: k < |t| ==> Allowed(p, t, k)) <==> EveryWindowFits(p, t)
  {
    if EveryWindowFits(p, t) {
      FittingPrefixIsAdmitted(p, t, |t|);
    }
    if forall k: nat :: k < |t| ==> Allowed(p, t, k) {
      forall i: nat, j: nat | i <= j < |t|
        ensures (j - i + 1) as real <= Allowance(p, t, i, j)
      {
        AllAdmittedCount(p, t, i, j + 1);
        RateBound(p, t, i, j);
      }
    }
  }

  /** How many of the requests i, ..., j-1 a schedule picks. */
  function Picked(b: seq<bool>, i: nat, j: nat): nat
    requires i <= j <= |b|
    decreases j
  {
    if i == j then 0 else Picked(b, i, j - 1) + if b[j - 1] then 1 else 0
  }

  /** A choice of requests that respects the limit in every window. */
  predicate Conforming(p: Params, t: seq<real>, b: seq<bool>)
    requires |b| == |t|
  {
    forall i: nat, j: nat {:trigger Allowance(p, t, i, j)} :: i <= j < |t| ==>
      Picked(b, i, j + 1) as real <= Allowance(p, t, i, j)
  }

  lemma {:induction false} PickedSplits(b: seq<bool>, i: nat, j: nat)
    requires i <= j <= |b|
    ensures Picked(b, 0, j) == Picked(b, 0, i) + Picked(b, i, j)
  {
    if i == j {
    } else {
      PickedSplits(b, i, j - 1);
    }
  }

  lemma {:induction false} AdmittedSplits(p: Params, t: seq<real>, i: nat, j: nat)
    requires i <= j <= |t|
    ensures Admitted(p, t, 0, j) == Admitted(p, t, 0, i) + Admitted(p, t, i, j)
  {
    if i == j {
    } else {
      AdmittedSplits(p, t, i, j - 1);
    }
  }

  /**
   The bucket refuses no more than it must: whatever conforming schedule is
   compared with it, the bucket has admitted at least as many requests at
   every point of the run.
   */
  lemma {:induction false} AdmitsTheMost(p: Params, t: seq<real>, b: seq<bool>, j: nat)
    requires |b| == |t| && Conforming(p, t, b) && j <= |t|
    ensures Picked(b, 0, j) <= Admitted(p, t, 0, j)
    decreases j
  {
    if j == 0 {
    } else {
      var k := j - 1;
      AdmitsTheMost(p, t, b, k);
      if !Allowed(p, t, k) {
        var i := TightWindow(p, t, k);
        AdmitsTheMost(p, t, b, i);
        assert Picked(b, i, j) as real <= Allowance(p, t, i, k);
        PickedSplits(b, i, j);
        AdmittedSplits(p, t, i, k);
      }
    }
  }

  /** The requests the bucket lets through, as a schedule. */
  function OwnSchedule(p: Params, t: seq<real>): (b: seq<bool>)
    ensures |b| == |t|
  {
    seq(|t|, k requires 0 <= k < |t| => Allowed(p, t, k))
  }

  lemma {:induction false} OwnSchedulePicks(p: Params, t: seq<real>, i: nat, j: nat)
    requires i <= j <= |t|
    ensures Picked(OwnSchedule(p, t), i, j) == Admitted(p, t, i, j)
  {
    if i == j {
    } else {
      OwnSchedulePicks(p, t, i, j - 1);
    }
  }

  /** What the bucket lets through is itself a conforming schedule: it is the best of them, not just an upper bound. */
  lemma OwnScheduleConforms(p: Params, t: seq<real>)
    requires p.Valid()
    ensures Conforming(p, t, OwnSchedule(p, t))
    ensures forall j: nat :: j <= |t| ==> Picked(OwnSchedule(p, t), 0, j) == Admitted(p, t, 0, j)
  {
    forall i: nat, j: nat | i <= j < |t|
      ensures Picked(OwnSchedule(p, t), i, j + 1) as real <= Allowance(p, t, i, j)
    {
      OwnSchedulePicks(p, t, i, j + 1);
      RateBound(p, t, i, j);
    }
    forall j: nat | j <= |t| ensures Picked(OwnSchedule(p, t), 0, j) == Admitted(p, t, 0, j) {
      OwnSchedulePicks(p, t, 0, j);
    }
  }

  lemma AddProducts(a: real, b: real, r: real)
    ensures a * r + b * r == (a + b) * r
  {
  }

  /** The allowance of a window, in the terms of the limits table: burst + rate * time. */
  lemma {:induction false} AllowanceIsBurstPlusRateTimesElapsed(p: Params, t: seq<real>, i: nat, j: nat)
    requires i <= j < |t|
    ensures Allowance(p, t, i, j) == p.capacity + Elapsed(t, i, j) * p.refillPerSec
  {
    if i == j {
    } else {
      AllowanceIsBurstPlusRateTimesElapsed(p, t, i, j - 1);
      AddProducts(Elapsed(t, i, j - 1), MaxReal(0.0, t[j] - t[j - 1]), p.refillPerSec);
    }
  }

  predicate ElapsedIsClockTime(t: seq<real>) {
    forall i: nat, j: nat {:trigger Elapsed(t, i, j)} :: i <= j < |t| ==> Elapsed(t, i, j) == t[j] - t[i]
  }

  /** Elapsed time is wall-clock time exactly on runs whose clock never goes back. */
  lemma ElapsedIsWallClock(t: seq<real>)
    ensures Nondecreasing(t) <==> ElapsedIsClockTime(t)
  {
    if Nondecreasing(t) {
      forall i: nat, j: nat | i <= j < |t| ensures Elapsed(t, i, j) == t[j] - t[i] {
        ElapsedIsDifference(t, i, j);
      }
    }
    if ElapsedIsClockTime(t) {
      forall i: nat, j: nat | i < j < |t| ensures t[i] <= t[j] {
        ElapsedNonnegative(t, i, j);
      }
    }
  }

  lemma {:induction false} ElapsedNonnegative(t: seq<real>, i: nat, j: nat)
    requires i <= j < |t|
    ensures 0.0 <= Elapsed(t, i, j)
  {
    if i == j {
    } else {
      ElapsedNonnegative(t, i, j - 1);
    }
  }

  lemma {:induction false} ElapsedIsDifference(t: seq<real>, i: nat, j: nat)
    requires Nondecreasing(t) && i <= j < |t|
    ensures Elapsed(t, i, j) == t[j] - t[i]
  {
    if i == j {
    } else {
      ElapsedIsDifference(t, i, j - 1);
      assert t[j - 1] <= t[j];
    }
  }

  /** The advertised allowance of a window, reading the time off the clock. */
  function ClockAllowance(p: Params, t: seq<real>, i: nat, j: nat): real
    requires i <= j < |t|
  {
    p.capacity + (t[j] - t[i]) * p.refillPerSec
  }

  lemma SameProduct(a: real, b: real, r: real)
    requires a == b
    ensures a * r == b * r
  {
  }

  lemma AllowanceInClockTime(p: Params, t: seq<real>, i: nat, j: nat)
    requires i <= j < |t| && Nondecreasing(t)
    ensures Allowance(p, t, i, j) == ClockAllowance(p, t, i, j)
  {
    AllowanceIsBurstPlusRateTimesElapsed(p, t, i, j);
    ElapsedIsDifference(t, i, j);
    SameProduct(Elapsed(t, i, j), t[j] - t[i], p.refillPerSec);
  }

  /** The limit in clock time, on runs whose clock never goes back. */
  lemma RateBoundInClockTime(p: Params, t: seq<real>, i: nat, j: nat)
    requires p.Valid() && i <= j < |t| && Nondecreasing(t)
    ensures Admitted(p, t, i, j + 1) as real <= ClockAllowance(p, t, i, j)
  {
    RateBound(p, t, i, j);
    AllowanceInClockTime(p, t, i, j);
  }

  predicate ClockBoundHolds(p: Params, t: seq<real>) {
    forall i: nat, j: nat {:trigger ClockAllowance(p, t, i, j)} :: i <= j < |t| ==>
      Admitted(p, t, i, j + 1) as real <= ClockAllowance(p, t, i, j)
  }

  /** A refill rate at which a clock that loses `d` seconds takes more than the burst away. */
  lemma SteepRate(capacity: real, d: real) returns (rate: real)
    requires 0.0 <= capacity && 0.0 < d
    ensures 0.0 <= rate && capacity - d * rate < 0.0
  {
    rate := (capacity + 1.0) / d;
    assert d * rate == capacity + 1.0;
  }

  /** The rate at which losing time between two requests breaks the bound. */
  lemma LosingTimeBreaksBound(capacity: real, t: seq<real>, i: nat, j: nat) returns (rate: real)
    requires 0.0 <= capacity && i < j < |t| && t[j] < t[i]
    ensures 0.0 <= rate && ClockAllowance(Params(capacity, rate), t, i, j) < 0.0
  {
    var d := t[i] - t[j];
    rate := SteepRate(capacity, d);
    assert (t[j] - t[i]) * rate == -(d * rate);
  }

  lemma ForwardClockKeepsBound(p: Params, t: seq<real>)
    requires p.Valid() && Nondecreasing(t)
    ensures ClockBoundHolds(p, t)
  {
    forall i: nat, j: nat | i <= j < |t|
      ensures Admitted(p, t, i, j + 1) as real <= ClockAllowance(p, t, i, j)
    {
      RateBoundInClockTime(p, t, i, j);
    }
  }

  /** The advertised limit in clock time holds at every refill rate. */
  ghost predicate AlwaysKeepsClockBound(capacity: real, t: seq<real>) {
    forall rate: real :: 0.0 <= rate ==> ClockBoundHolds(Params(capacity, rate), t)
  }

  /**
   Exactly which clocks keep the advertised limit, whatever the burst: those
   that never go back.
   */
  lemma ClockBoundHoldsIff(capacity: real, t: seq<real>)
    requires 0.0 <= capacity
    ensures AlwaysKeepsClockBound(capacity, t) <==> Nondecreasing(t)
  {
    if Nondecreasing(t) {
      forall rate: real | 0.0 <= rate ensures ClockBoundHolds(Params(capacity, rate), t) {
        ForwardClockKeepsBound(Params(capacity, rate), t);
      }
    } else {
      var i: nat, j: nat :| i < j < |t| && t[i] > t[j];
      var rate := LosingTimeBreaksBound(capacity, t, i, j);
      assert Admitted(Params(capacity, rate), t, i, j + 1) as real > ClockAllowance(Params(capacity, rate), t, i, j);
    }
  }

  /** A clock that jumps between 0 and `d`. */
  function Zigzag(d: real, n: nat): seq<real> { seq(2 * n, k => if k % 2 == 0 then 0.0 else d) }

  /** Each jump forward earns the token that lets the next request through. */
  lemma JumpEarnsToken(p: Params, t: seq<real>, j: nat)
    requires p.Valid() && 1.0 <= p.capacity && 0 < j < |t| && t[j - 1] < t[j]
    requires (t[j] - t[j - 1]) * p.refillPerSec == 1.0
    ensures Allowed(p, t, j)
  {
    LevelStep(p, t, j);
    LevelBounds(p, t, j - 1);
    SameProduct(MaxReal(0.0, t[j] - t[j - 1]), t[j] - t[j - 1], p.refillPerSec);
    assert Gain(p, t, j) == 1.0;
  }

  lemma ZigzagJump(p: Params, d: real, n: nat, j: nat)
    requires p.Valid() && 1.0 <= p.capacity && 0.0 < d && d * p.refillPerSec == 1.0
    requires j < 2 * n && j % 2 == 1
    ensures Allowed(p, Zigzag(d, n), j)
  {
    var t := Zigzag(d, n);
    SameProduct(t[j] - t[j - 1], d, p.refillPerSec);
    JumpEarnsToken(p, t, j);
  }

  lemma {:induction false} EverySecondAdmitted(p: Params, t: seq<real>, m: nat)
    requires 2 * m <= |t| && forall j: nat :: j < |t| && j % 2 == 1 ==> Allowed(p, t, j)
    ensures m <= Admitted(p, t, 0, 2 * m)
  {
    if m == 0 {
    } else {
      EverySecondAdmitted(p, t, m - 1);
      assert Allowed(p, t, 2 * m - 1);
    }
  }

  /**
   How far a backward clock breaks it: every bucket that holds and earns
   tokens admits any number of requests while its clock stays within `d`, the
   time one token takes.
   */
  lemma BackwardClockBreaksWallClockBound(p: Params, d: real, n: nat) returns (t: seq<real>)
    requires 1.0 <= p.capacity && 0.0 < p.refillPerSec && 0.0 < d && d * p.refillPerSec == 1.0
    ensures forall k :: 0 <= k < |t| ==> 0.0 <= t[k] <= d
    ensures n <= Admitted(p, t, 0, |t|)
  {
    t := Zigzag(d, n);
    forall j: nat | j < |t| && j % 2 == 1 ensures Allowed(p, t, j) {
      ZigzagJump(p, d, n, j);
    }
    EverySecondAdmitted(p, t, n);
  }

  /** The level at a request depends on the run only up to that request. */
  lemma {:induction false} LevelOfPrefix(p: Params, t: seq<real>, more: seq<real>, j: nat)
    requires j < |t|
    ensures Level(p, t + more, j) == Level(p, t, j)
  {
    if j == 0 {
    } else {
      LevelOfPrefix(p, t, more, j - 1);
    }
  }

  /** The bucket a run leaves under its key. */
  function StateAfter(p: Params, t: seq<real>): Option<Bucket> {
    if t == [] then None else Some(Bucket(After(p, t, |t| - 1), Last(t)))
  }

  /** Evaluating the script once more is taking one more request in the run. */
  lemma EvalExtendsRun(p: Params, t: seq<real>, now: real)
    ensures Eval(p, StateAfter(p, t), now, 1.0)
         == (Decide(Level(p, t + [now], |t|), 1.0), StateAfter(p, t + [now]).value)
  {
    if t == [] {
      assert 0.0 * p.refillPerSec == 0.0;
    } else {
      LevelOfPrefix(p, t, [now], |t| - 1);
    }
  }
}
