/** Small definitions shared by the other modules. */
module Prelude {

  datatype Option<+T> = None | Some(value: T)

  function MinReal(a: real, b: real): real { if a <= b then a else b }

  function MaxReal(a: real, b: real): real { if a <= b then b else a }

  function Min(a: int, b: int): int { if a <= b then a else b }

  function Max(a: int, b: int): int { if a <= b then b else a }

  function Get<K, V>(m: map<K, V>, k: K): Option<V> { if k in m then Some(m[k]) else None }

  /** The sequence without its last element. */
  function Init<T>(s: seq<T>): seq<T>
    requires s != []
  {
    s[..|s| - 1]
  }

  function Last<T>(s: seq<T>): T
    requires s != []
  {
    s[|s| - 1]
  }

  /** The sum of a weight over a sequence. */
  function Sum<T>(s: seq<T>, w: T -> int): int {
    if s == [] then 0 else Sum(Init(s), w) + w(Last(s))
  }

  lemma {:induction false} SumUpdate<T>(s: seq<T>, w: T -> int, i: nat, x: T)
    requires i < |s|
    ensures Sum(s[i := x], w) == Sum(s, w) - w(s[i]) + w(x)
  {
    if i < |s| - 1 {
      SumUpdate(Init(s), w, i, x);
      assert Init(s[i := x]) == Init(s)[i := x];
    } else {
      assert Init(s[i := x]) == Init(s);
    }
  }

  lemma SumAppend<T>(s: seq<T>, w: T -> int, x: T)
    ensures Sum(s + [x], w) == Sum(s, w) + w(x)
  {
  }

  /** A weight that is pointwise at most `c` times another has at most `c` times its sum. */
  lemma {:induction false} SumAtMost<T>(s: seq<T>, w: T -> int, v: T -> int, c: nat)
    requires forall i :: 0 <= i < |s| ==> w(s[i]) <= c * v(s[i])
    ensures Sum(s, w) <= c * Sum(s, v)
  {
    if s == [] {
    } else {
      SumAtMost(Init(s), w, v, c);
      assert c * (Sum(Init(s), v) + v(Last(s))) == c * Sum(Init(s), v) + c * v(Last(s));
    }
  }

  lemma {:induction false} SumNonnegative<T>(s: seq<T>, w: T -> int)
    requires forall i :: 0 <= i < |s| ==> 0 <= w(s[i])
    ensures 0 <= Sum(s, w)
    ensures forall i :: 0 <= i < |s| ==> w(s[i]) <= Sum(s, w)
  {
    if s == [] {
    } else {
      SumNonnegative(Init(s), w);
      forall i | 0 <= i < |s| ensures w(s[i]) <= Sum(s, w) {
        if i < |s| - 1 {
          assert w(Init(s)[i]) <= Sum(Init(s), w);
        }
      }
    }
  }
}
