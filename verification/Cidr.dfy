/**
 IPv4 matching of src/lib/net.ts, at the level of the numbers JavaScript
 computes: shifts work on signed 32-bit values and take their count modulo
 32, & works on 32-bit patterns, >>> 0 reads a pattern as unsigned.
 */
module Cidr {
  import opened Prelude

  const WORD := 0x1_0000_0000

  // ----- the operators

  function ToUint32(x: int): (r: int)
    ensures 0 <= r < WORD
  {
    x % WORD
  }

  function ToInt32(x: int): (r: int)
    ensures -0x8000_0000 <= r < 0x8000_0000
  {
    if x % WORD < 0x8000_0000 then x % WORD else x % WORD - WORD
  }

  function Pow2(k: nat): (r: int)
    ensures r >= 1
  {
    if k == 0 then 1 else 2 * Pow2(k - 1)
  }

  function Shl(x: int, count: int): int { ToInt32(ToInt32(x) * Pow2(count % 32)) }

  function BitNot(x: int): int { -ToInt32(x) - 1 }

  /** The lowest `k` bits of a and b, combined bit by bit. */
  function AndBits(a: nat, b: nat, k: nat): nat {
    if k == 0 then 0 else 2 * AndBits(a / 2, b / 2, k - 1) + (a % 2) * (b % 2)
  }

  function BitAnd(x: int, y: int): int { ToInt32(AndBits(ToUint32(x), ToUint32(y), 32)) }

  // ----- reading an address

  predicate Octet(p: int) { 0 <= p <= 255 }

  predicate IsAddress(parts: seq<int>) { |parts| == 4 && forall i :: 0 <= i < 4 ==> Octet(parts[i]) }

  /** The address as a number in base 256. */
  function Value(parts: seq<int>): int {
    if parts == [] then 0 else Value(Init(parts)) * 256 + Last(parts)
  }

  lemma {:induction false} ValueBounds(parts: seq<int>)
    requires |parts| <= 4 && forall i :: 0 <= i < |parts| ==> Octet(parts[i])
    ensures 0 <= Value(parts) < Pow2(8 * |parts|)
  {
    if parts == [] {
    } else {
      ValueBounds(Init(parts));
      var n := |parts|;
      assert 8 * n == 8 * (n - 1) + 8;
      PowStep(8 * (n - 1));
    }
  }

  lemma PowStep(k: nat)
    ensures Pow2(k + 8) == 256 * Pow2(k)
  {
    assert Pow2(k + 2) == 4 * Pow2(k);
    assert Pow2(k + 4) == 4 * Pow2(k + 2);
    assert Pow2(k + 6) == 4 * Pow2(k + 4);
    assert Pow2(k + 8) == 4 * Pow2(k + 6);
  }

  lemma Pow2Values()
    ensures Pow2(8) == 256 && Pow2(16) == 0x1_0000 && Pow2(24) == 0x100_0000 && Pow2(32) == WORD
  {
  }

  lemma ShiftByEight(v: int)
    requires 0 <= v < 0x100_0000
    ensures Shl(ToInt32(v), 8) == ToInt32(256 * v)
  {
    assert Pow2(8) == 256 by { Pow2Values(); }
    OwnPattern(v);
    assert ToInt32(v) == v && ToInt32(ToInt32(v)) == v;
  }

  lemma OwnPattern(x: int)
    requires 0 <= x < WORD
    ensures x % WORD == x && ToUint32(x) == x
  {
  }

  /** One round of the accumulator, also when the shift turns it negative. */
  lemma ShiftInOctet(v: int, p: int)
    requires 0 <= v < 0x100_0000 && Octet(p)
    ensures Shl(ToInt32(v), 8) + p == ToInt32(v * 256 + p)
  {
    ShiftByEight(v);
    OwnPattern(256 * v);
    OwnPattern(256 * v + p);
  }

  lemma {:induction false} PowMonotone(j: nat, k: nat)
    requires j <= k
    ensures Pow2(j) <= Pow2(k)
  {
    if j == k {
    } else {
      PowMonotone(j, k - 1);
    }
  }

  lemma AddressBounds(parts: seq<int>)
    requires IsAddress(parts)
    ensures 0 <= Value(parts) < WORD
  {
    ValueBounds(parts);
    Pow2Values();
  }

  lemma ValueOfMore(parts: seq<int>, p: int)
    ensures Value(parts + [p]) == Value(parts) * 256 + p
  {
  }

  /** Four numbers from 0 to 255. */
  predicate FourOctets(parts: seq<int>) {
    && |parts| == 4 && parts[0] >= 0 && parts[1] >= 0 && parts[2] >= 0 && parts[3] >= 0
    && parts[0] < 256 && parts[1] < 256 && parts[2] < 256 && parts[3] < 256
  }

  /** An address written out. */
  lemma ValueOfFour(a: int, b: int, c: int, d: int)
    ensures Value([a, b, c, d]) == a * 0x100_0000 + b * 0x1_0000 + c * 0x100 + d
  {
    ValueOfMore([], a);
    ValueOfMore([a], b);
    ValueOfMore([a, b], c);
    ValueOfMore([a, b, c], d);
    assert [] + [a] == [a] && [a] + [b] == [a, b] && [a, b] + [c] == [a, b, c] && [a, b, c] + [d] == [a, b, c, d];
  }

  lemma NextOctet(parts: seq<int>, i: nat)
    requires i < 4 == |parts| && forall k :: 0 <= k <= i ==> Octet(parts[k])
    ensures Shl(ToInt32(Value(parts[..i])), 8) + parts[i] == ToInt32(Value(parts[..i + 1]))
  {
    PrefixBounds(parts, i);
    ShiftInOctet(Value(parts[..i]), parts[i]);
    assert Init(parts[..i + 1]) == parts[..i] && Last(parts[..i + 1]) == parts[i];
  }

  lemma PrefixBounds(parts: seq<int>, i: nat)
    requires i < 4 == |parts| && forall k :: 0 <= k < i ==> Octet(parts[k])
    ensures 0 <= Value(parts[..i]) < 0x100_0000
  {
    ValueBounds(parts[..i]);
    PowMonotone(8 * i, 24);
    Pow2Values();
  }

  lemma UnsignedReading(v: int)
    requires 0 <= v < WORD
    ensures ToUint32(ToInt32(v)) == v
  {
  }

  /**
   The accumulator goes negative when the first octet is 128 or more, and the
   final >>> 0 undoes exactly that.
   */
  method IpToInt(parts: seq<int>) returns (r: Option<int>)
    ensures r == if IsAddress(parts) then Some(Value(parts)) else None
    ensures r.Some? <==> FourOctets(parts)
    ensures r.Some? ==> r.value == parts[0] * 0x100_0000 + parts[1] * 0x1_0000 + parts[2] * 0x100 + parts[3]
  {
    if |parts| != 4 {
      return None;
    }
    var num := 0;
    for i := 0 to 4
      invariant forall k :: 0 <= k < i ==> Octet(parts[k])
      invariant num == ToInt32(Value(parts[..i]))
    {
      var p := parts[i];
      if p < 0 || p > 255 {
        return None;
      }
      NextOctet(parts, i);
      num := Shl(num, 8) + p;
    }
    assert parts[..4] == parts == [parts[0], parts[1], parts[2], parts[3]];
    ValueOfFour(parts[0], parts[1], parts[2], parts[3]);
    AddressBounds(parts);
    UnsignedReading(Value(parts));
    return Some(ToUint32(num));
  }

  // ----- masking

  /** The mask of a prefix length, as computed. */
  function Mask(bits: int): int {
    if bits == 0 then 0 else ToUint32(Shl(BitNot(0), 32 - bits))
  }

  lemma NegatedPattern(m: int)
    requires 1 <= m <= 0x8000_0000
    ensures ToInt32(-m) == -m && ToUint32(-m) == WORD - m
  {
  }

  lemma MaskValue(bits: int)
    requires 1 <= bits <= 32
    ensures Mask(bits) == WORD - Pow2(32 - bits)
  {
    Pow2Values();
    var c := 32 - bits;
    PowMonotone(c, 31);
    assert Pow2(32) == 2 * Pow2(31);
    assert BitNot(0) == -1 && ToInt32(-1) == -1 && c % 32 == c;
    assert Shl(-1, c) == ToInt32(-1 * Pow2(c));
    NegatedPattern(Pow2(c));
  }

  lemma Halves(x: nat, m: int)
    requires m >= 1
    ensures x % (2 * m) == 2 * (x / 2 % m) + x % 2
  {
    var h := x / 2;
    var q, r := h / m, h % m;
    assert x == 2 * h + x % 2 && h == q * m + r;
    assert x == q * (2 * m) + (2 * r + x % 2);
    RemainderIs(x, 2 * m, q, 2 * r + x % 2);
  }

  lemma ClearHalves(x: nat, m: int)
    requires m >= 1
    ensures 2 * (x / 2 - x / 2 % m) == x - x % (2 * m)
  {
    Halves(x, m);
  }

  lemma RemainderIs(x: int, m: int, q: int, r: int)
    requires 0 <= r < m && x == q * m + r
    ensures x % m == r && x / m == q
  {
    assert x == x / m * m + x % m;
    assert (q - x / m) * m == x % m - r;
    MultiplesAreFar(q - x / m, m);
  }

  lemma MultiplesAreFar(d: int, m: int)
    requires m >= 1
    ensures d >= 1 ==> d * m >= m
    ensures d <= -1 ==> d * m <= -m
  {
    if d >= 1 {
      assert d * m >= 1 * m;
    } else if d <= -1 {
      assert d * m <= -1 * m;
    }
  }

  lemma AndWithEven(x: nat, half: nat, k: nat)
    requires k > 0
    ensures AndBits(x, 2 * half, k) == 2 * AndBits(x / 2, half, k - 1)
  {
    assert 2 * half / 2 == half && 2 * half % 2 == 0;
  }

  lemma AndWithOdd(x: nat, half: nat, k: nat)
    requires k > 0
    ensures AndBits(x, 2 * half + 1, k) == 2 * AndBits(x / 2, half, k - 1) + x % 2
  {
  }

  lemma {:induction false} AndWithOnes(x: nat, k: nat)
    requires x < Pow2(k)
    ensures AndBits(x, Pow2(k) - 1, k) == x
  {
    if k == 0 {
    } else {
      AndWithOnes(x / 2, k - 1);
      AndWithOdd(x, Pow2(k - 1) - 1, k);
    }
  }

  /** And-ing with a prefix mask clears the low bits, bit by bit. */
  lemma {:induction false} MaskClearsLowBits(x: nat, c: nat, k: nat, mask: nat)
    requires c <= k && x < Pow2(k) && mask == Pow2(k) - Pow2(c)
    ensures AndBits(x, mask, k) == x - x % Pow2(c)
  {
    if c == 0 {
      AndWithOnes(x, k);
    } else {
      PowMonotone(c - 1, k - 1);
      var m, rest := Pow2(c - 1), Pow2(k - 1) - Pow2(c - 1);
      assert mask == 2 * rest;
      MaskClearsLowBits(x / 2, c - 1, k - 1, rest);
      AndWithEven(x, rest, k);
      ClearHalves(x, m);
    }
  }

  lemma {:induction false} AndWithZero(x: nat, k: nat)
    ensures AndBits(x, 0, k) == 0
  {
    if k == 0 {
    } else {
      AndWithZero(x / 2, k - 1);
    }
  }

  /** The addresses agree on their first `bits` bits. */
  predicate SamePrefix(x: int, y: int, bits: int)
    requires 0 <= bits <= 32
  {
    x / Pow2(32 - bits) == y / Pow2(32 - bits)
  }

  lemma SameMultiple(x: int, y: int, m: int)
    requires m >= 1
    ensures x - x % m == y - y % m <==> x / m == y / m
  {
    assert x - x % m == x / m * m && y - y % m == y / m * m;
    if x / m != y / m {
      var d := x / m - y / m;
      assert d * m == x / m * m - y / m * m;
      assert d * m != 0;
    }
  }

  lemma SignedReadingIsInjective(a: int, b: int)
    requires 0 <= a < WORD && 0 <= b < WORD
    ensures ToInt32(a) == ToInt32(b) <==> a == b
  {
  }

  lemma ClearedStaysInRange(x: nat, m: int)
    requires m >= 1
    ensures 0 <= x - x % m <= x
  {
  }

  lemma BitAndOfWords(x: int, y: int)
    requires 0 <= x < WORD && 0 <= y < WORD
    ensures BitAnd(x, y) == ToInt32(AndBits(x, y, 32))
  {
    OwnPattern(x);
    OwnPattern(y);
  }

  lemma AndWithMask(x: int, c: nat)
    requires 0 <= x < WORD && c <= 31
    ensures 0 < WORD - Pow2(c) < WORD
    ensures AndBits(x, WORD - Pow2(c), 32) == x - x % Pow2(c)
  {
    Pow2Values();
    PowMonotone(c, 31);
    MaskClearsLowBits(x, c, 32, WORD - Pow2(c));
  }

  lemma MaskedValue(x: int, bits: int)
    requires 0 <= x < WORD && 1 <= bits <= 32
    ensures var m := Pow2(32 - bits);
            0 <= x - x % m < WORD && BitAnd(x, Mask(bits)) == ToInt32(x - x % m)
  {
    MaskValue(bits);
    AndWithMask(x, 32 - bits);
    BitAndOfWords(x, Mask(bits));
    ClearedStaysInRange(x, Pow2(32 - bits));
  }

  /** The masked comparison, on all 2^32 by 2^32 pairs of addresses and every prefix length. */
  lemma MaskedEqualIffSamePrefix(x: int, y: int, bits: int)
    requires 0 <= x < WORD && 0 <= y < WORD && 0 <= bits <= 32
    ensures BitAnd(x, Mask(bits)) == BitAnd(y, Mask(bits)) <==> SamePrefix(x, y, bits)
  {
    if bits == 0 {
      Pow2Values();
      AndWithZero(x, 32);
      AndWithZero(y, 32);
    } else {
      var m := Pow2(32 - bits);
      MaskedValue(x, bits);
      MaskedValue(y, bits);
      SignedReadingIsInjective(x - x % m, y - y % m);
      SameMultiple(x, y, m);
    }
  }

  // ----- the matcher

  /** An address as its text and as its dot-separated parts read as numbers. */
  datatype Address = Address(text: string, parts: seq<int>)

  /** A list entry without a slash, or with one. */
  datatype Entry = Exact(text: string) | Block(net: seq<int>, bits: int)

  predicate InBlock(ip: seq<int>, net: seq<int>, bits: int) {
    0 <= bits <= 32 && IsAddress(ip) && IsAddress(net) && SamePrefix(Value(ip), Value(net), bits)
  }

  predicate InEntry(ip: Address, e: Entry) {
    match e
    case Exact(text) => ip.text == text
    case Block(net, bits) => InBlock(ip.parts, net, bits)
  }

  /** Shift, mask and compare: membership in the block, and false for everything malformed. */
  method IsIpInCidr(ip: Address, e: Entry) returns (r: bool)
    ensures r <==> InEntry(ip, e)
    ensures e.Exact? ==> (r <==> e.text == ip.text)
    ensures e.Block? ==>
              (r <==> FourOctets(ip.parts) && FourOctets(e.net) && e.bits >= 0 && e.bits < 33
                      && Value(ip.parts) / Pow2(32 - e.bits) == Value(e.net) / Pow2(32 - e.bits))
  {
    if e.Exact? {
      return ip.text == e.text;
    }
    if e.bits < 0 || e.bits > 32 {
      return false;
    }
    var ipInt := IpToInt(ip.parts);
    var netInt := IpToInt(e.net);
    if ipInt.None? || netInt.None? {
      return false;
    }
    AddressBounds(ip.parts);
    AddressBounds(e.net);
    MaskedEqualIffSamePrefix(ipInt.value, netInt.value, e.bits);
    var mask := Mask(e.bits);
    return BitAnd(ipInt.value, mask) == BitAnd(netInt.value, mask);
  }

  method IpMatchesAny(ip: Address, list: seq<Entry>) returns (r: bool)
    ensures r <==> exists i :: 0 <= i < |list| && InEntry(ip, list[i])
  {
    for i := 0 to |list|
      invariant forall k :: 0 <= k < i ==> !InEntry(ip, list[k])
    {
      var hit := IsIpInCidr(ip, list[i]);
      if hit {
        return true;
      }
    }
    return false;
  }

  // ----- nesting of blocks (section 3.1 of RFC 4632)

  lemma {:induction false} ShorterPrefixAgrees(x: nat, y: nat, short: int, long: int)
    requires 0 <= short <= long <= 32 && SamePrefix(x, y, long)
    ensures SamePrefix(x, y, short)
    decreases long - short
  {
    if short == long {
    } else {
      ShorterPrefixAgrees(x, y, short + 1, long);
      HalvedQuotient(x, Pow2(31 - short));
      HalvedQuotient(y, Pow2(31 - short));
    }
  }

  lemma HalvedQuotient(x: nat, m: int)
    requires m >= 1
    ensures x / (2 * m) == x / m / 2
  {
    var q, r := x / m / 2, x / m % 2;
    assert x == (2 * q + r) * m + x % m;
    assert x == q * (2 * m) + (r * m + x % m);
    assert 0 <= r * m + x % m < 2 * m;
    RemainderIs(x, 2 * m, q, r * m + x % m);
  }

  /** A shorter prefix of the same network contains every longer one. */
  lemma ShorterPrefixContainsLonger(ip: seq<int>, net: seq<int>, short: int, long: int)
    requires 0 <= short <= long && InBlock(ip, net, long)
    ensures InBlock(ip, net, short)
  {
    ValueBounds(ip);
    ValueBounds(net);
    ShorterPrefixAgrees(Value(ip), Value(net), short, long);
  }

  /** Two blocks are nested or disjoint: one shared address puts the longer prefix inside the shorter. */
  lemma BlocksNestOrAreDisjoint(shared: seq<int>, a: seq<int>, b: seq<int>, short: int, long: int, ip: seq<int>)
    requires 0 <= short <= long && InBlock(shared, a, short) && InBlock(shared, b, long) && InBlock(ip, b, long)
    ensures InBlock(ip, a, short)
  {
    ShorterPrefixContainsLonger(shared, b, short, long);
    ShorterPrefixContainsLonger(ip, b, short, long);
  }
}
