/**
 Route normalisation of src/core/metrics/index.ts: three global replacements,
 applied one after the other to the whole path.
 */
module RouteLabels {
  import opened Prelude
  import opened PathTemplates

  predicate IsDigit(c: char) { '0' <= c <= '9' }

  predicate IsHex(c: char) { IsDigit(c) || 'a' <= c <= 'f' || 'A' <= c <= 'F' }

  predicate IsHexOrDash(c: char) { IsHex(c) || c == '-' }

  /** Length of the longest prefix whose characters are all in the class. */
  function Span(s: string, inClass: char -> bool): (n: nat)
    ensures n <= |s|
  {
    if s == [] || !inClass(s[0]) then 0 else 1 + Span(s[1..], inClass)
  }

  /** The three expressions, each of which starts at a slash. */
  datatype Pattern = Uuid | Digits | Hash

  /** How much of the text after a slash the expression consumes; zero when it does not match. */
  function MatchLen(p: Pattern, s: string): (n: nat)
    ensures n <= |s|
  {
    match p
    case Uuid =>
      if Span(s, IsHex) >= 8 && |s| > 8 && s[8] == '-' && Span(s[9..], IsHexOrDash) >= 27
      then 9 + Min(Span(s[9..], IsHexOrDash), 35) else 0
    case Digits => Span(s, IsDigit)
    case Hash => if Span(s, IsHex) >= 32 then Min(Span(s, IsHex), 64) else 0
  }

  function Label(p: Pattern): string {
    match p
    case Uuid => ":uuid"
    case Digits => ":id"
    case Hash => ":hash"
  }

  /** A global replacement: leftmost matches first, none overlapping. */
  function ReplaceAll(p: Pattern, s: string): string
    decreases |s|
  {
    if s == [] then []
    else if s[0] == '/' && MatchLen(p, s[1..]) > 0 then
      "/" + Label(p) + ReplaceAll(p, s[1 + MatchLen(p, s[1..])..])
    else [s[0]] + ReplaceAll(p, s[1..])
  }

  function NormaliseRoute(path: string): string {
    ReplaceAll(Hash, ReplaceAll(Digits, ReplaceAll(Uuid, path)))
  }

  // ----- the segment-wise reading

  function RewriteWith(p: Pattern, seg: string): string {
    if MatchLen(p, seg) > 0 then Label(p) + seg[MatchLen(p, seg)..] else seg
  }

  /** The first of the three expressions that matches a prefix of the segment decides. */
  function Rewrite(seg: string): string {
    if MatchLen(Uuid, seg) > 0 then Label(Uuid) + seg[MatchLen(Uuid, seg)..]
    else if MatchLen(Digits, seg) > 0 then Label(Digits) + seg[MatchLen(Digits, seg)..]
    else if MatchLen(Hash, seg) > 0 then Label(Hash) + seg[MatchLen(Hash, seg)..]
    else seg
  }

  function RewriteEach(segs: seq<string>): (r: seq<string>)
    ensures |r| == |segs|
  {
    seq(|segs|, i requires 0 <= i < |segs| => Rewrite(segs[i]))
  }

  /** All segments but the one before the first slash are rewritten. */
  function RewriteTail(segs: seq<string>): seq<string>
    requires segs != []
  {
    [segs[0]] + RewriteEach(segs[1..])
  }

  function MapWith(p: Pattern, segs: seq<string>): (r: seq<string>)
    ensures |r| == |segs|
  {
    seq(|segs|, i requires 0 <= i < |segs| => RewriteWith(p, segs[i]))
  }

  // ----- one replacement, segment by segment

  predicate SlashOrEnd(s: string) { s == "" || s[0] == '/' }

  lemma {:induction false} SpanIsLocal(a: string, after: string, inClass: char -> bool)
    requires SlashOrEnd(after) && !inClass('/')
    ensures Span(a + after, inClass) == Span(a, inClass)
  {
    if a == "" {
      assert a + after == after;
    } else {
      SpanIsLocal(a[1..], after, inClass);
      assert (a + after)[1..] == a[1..] + after;
    }
  }

  lemma MatchIsLocal(p: Pattern, a: string, after: string)
    requires SlashOrEnd(after) && '/' !in a
    ensures MatchLen(p, a + after) == MatchLen(p, a)
  {
    SpanIsLocal(a, after, IsHex);
    SpanIsLocal(a, after, IsDigit);
    if |a| > 8 {
      SpanIsLocal(a[9..], after, IsHexOrDash);
      assert (a + after)[9..] == a[9..] + after;
    }
  }

  lemma ReplaceOnePlainCharacter(p: Pattern, s: string)
    requires s != "" && s[0] != '/'
    ensures ReplaceAll(p, s) == [s[0]] + ReplaceAll(p, s[1..])
  {
  }

  lemma {:induction false} ReplaceSkipsPlainText(p: Pattern, a: string, s: string)
    requires '/' !in a
    ensures ReplaceAll(p, a + s) == a + ReplaceAll(p, s)
  {
    if a == "" {
      assert a + s == s;
    } else {
      var c, rest := a[0], a[1..];
      assert a == [c] + rest && (a + s)[0] == c && (a + s)[1..] == rest + s;
      calc {
        ReplaceAll(p, a + s);
        { ReplaceOnePlainCharacter(p, a + s); }
        [c] + ReplaceAll(p, rest + s);
        { ReplaceSkipsPlainText(p, rest, s); }
        [c] + (rest + ReplaceAll(p, s));
        { Prepend(c, rest, ReplaceAll(p, s)); }
        ([c] + rest) + ReplaceAll(p, s);
      }
    }
  }

  lemma Prepend(c: char, rest: string, s: string)
    ensures [c] + (rest + s) == ([c] + rest) + s
  {
  }

  lemma ReplaceAtMatch(p: Pattern, s: string, n: nat)
    requires s != "" && s[0] == '/' && MatchLen(p, s[1..]) == n && 0 < n < |s|
    ensures ReplaceAll(p, s) == "/" + Label(p) + ReplaceAll(p, s[1 + n..])
  {
  }

  lemma Regroup(a: string, b: string, c: string, d: string)
    ensures a + b + (c + d) == a + ((b + c) + d)
  {
  }

  lemma ReplaceMatchedSegment(p: Pattern, a: string, after: string, n: nat)
    requires MatchLen(p, a) == n == MatchLen(p, a + after) && '/' !in a && 0 < n
    ensures ReplaceAll(p, "/" + (a + after)) == "/" + ((Label(p) + a[n..]) + ReplaceAll(p, after))
  {
    var s := "/" + (a + after);
    assert s[1..] == a + after;
    assert s[1 + n..] == a[n..] + after;
    ReplaceAtMatch(p, s, n);
    ReplaceSkipsPlainText(p, a[n..], after);
    Regroup("/", Label(p), a[n..], ReplaceAll(p, after));
  }

  lemma ReplaceOneSegment(p: Pattern, a: string, after: string)
    requires SlashOrEnd(after) && '/' !in a
    ensures ReplaceAll(p, "/" + (a + after)) == "/" + (RewriteWith(p, a) + ReplaceAll(p, after))
  {
    var s := "/" + (a + after);
    assert s[1..] == a + after;
    MatchIsLocal(p, a, after);
    if MatchLen(p, a) > 0 {
      ReplaceMatchedSegment(p, a, after, MatchLen(p, a));
    } else {
      ReplaceSkipsPlainText(p, a, after);
    }
  }

  lemma JoinCons(a: string, segs: seq<string>)
    requires segs != []
    ensures Join([a] + segs) == a + ("/" + Join(segs))
  {
  }

  lemma MapWithCons(p: Pattern, a: string, segs: seq<string>)
    ensures MapWith(p, [a] + segs) == [RewriteWith(p, a)] + MapWith(p, segs)
  {
  }

  lemma {:induction false} ReplaceAfterSlash(p: Pattern, segs: seq<string>)
    requires segs != [] && SlashFree(segs)
    ensures ReplaceAll(p, "/" + Join(segs)) == "/" + Join(MapWith(p, segs))
  {
    var a, rest := segs[0], segs[1..];
    MapWithCons(p, a, rest);
    assert segs == [a] + rest;
    if rest == [] {
      assert a + "" == a;
      ReplaceOneSegment(p, a, "");
      assert RewriteWith(p, a) + "" == RewriteWith(p, a);
    } else {
      JoinCons(a, rest);
      ReplaceOneSegment(p, a, "/" + Join(rest));
      ReplaceAfterSlash(p, rest);
      JoinCons(RewriteWith(p, a), MapWith(p, rest));
    }
  }

  /** A segment that starts with a label is left alone by all three expressions. */
  lemma LabelledIsInert(p: Pattern, s: string)
    requires s != "" && s[0] == ':'
    ensures MatchLen(p, s) == 0
  {
  }

  lemma ThreeReplacementsOnSegment(seg: string)
    ensures RewriteWith(Hash, RewriteWith(Digits, RewriteWith(Uuid, seg))) == Rewrite(seg)
  {
    var first := RewriteWith(Uuid, seg);
    if first != seg && MatchLen(Uuid, seg) > 0 {
      LabelledIsInert(Digits, first);
      LabelledIsInert(Hash, first);
    }
    var second := RewriteWith(Digits, first);
    if MatchLen(Digits, first) > 0 {
      LabelledIsInert(Hash, second);
    }
  }

  lemma RewrittenIsSlashFree(p: Pattern, segs: seq<string>)
    requires SlashFree(segs)
    ensures SlashFree(MapWith(p, segs))
  {
  }

  lemma ThreeMapsAreOne(segs: seq<string>)
    ensures MapWith(Hash, MapWith(Digits, MapWith(Uuid, segs))) == RewriteEach(segs)
  {
    forall i | 0 <= i < |segs|
      ensures RewriteWith(Hash, RewriteWith(Digits, RewriteWith(Uuid, segs[i]))) == Rewrite(segs[i])
    {
      ThreeReplacementsOnSegment(segs[i]);
    }
  }

  /** The whole chain on the part of a path after its first slash. */
  lemma NormaliseAfterSlash(segs: seq<string>)
    requires segs != [] && SlashFree(segs)
    ensures NormaliseRoute("/" + Join(segs)) == "/" + Join(RewriteEach(segs))
  {
    RewrittenIsSlashFree(Uuid, segs);
    RewrittenIsSlashFree(Digits, MapWith(Uuid, segs));
    ReplaceAfterSlash(Uuid, segs);
    ReplaceAfterSlash(Digits, MapWith(Uuid, segs));
    ReplaceAfterSlash(Hash, MapWith(Digits, MapWith(Uuid, segs)));
    ThreeMapsAreOne(segs);
  }

  lemma NormaliseSkipsHead(a: string, s: string)
    requires '/' !in a
    ensures NormaliseRoute(a + s) == a + NormaliseRoute(s)
  {
    ReplaceSkipsPlainText(Uuid, a, s);
    ReplaceSkipsPlainText(Digits, a, ReplaceAll(Uuid, s));
    ReplaceSkipsPlainText(Hash, a, ReplaceAll(Digits, ReplaceAll(Uuid, s)));
  }

  lemma RewriteEachIsSlashFree(segs: seq<string>)
    requires SlashFree(segs)
    ensures SlashFree(RewriteEach(segs))
  {
  }

  /**
   For every string: the three successive global replacements are one
   first-match rewrite of each segment after a slash.
   */
  lemma NormaliseIsSegmentWise(path: string)
    ensures Split(NormaliseRoute(path)) == RewriteTail(Split(path))
  {
    var head := Head(path);
    match Tail(path)
    case None =>
      assert head + "" == path;
      NormaliseSkipsHead(head, "");
      assert RewriteTail(Split(path)) == [head];
    case Some(rest) =>
      assert path == head + ("/" + rest);
      NormaliseSkipsHead(head, "/" + rest);
      JoinSplit(rest);
      NormaliseAfterSlash(Split(rest));
      RewriteEachIsSlashFree(Split(rest));
      var segs := RewriteEach(Split(rest));
      JoinCons(head, segs);
      assert Split(path)[1..] == Split(rest);
      assert NormaliseRoute(path) == Join([head] + segs);
      SplitJoin([head] + segs);
  }

  // ----- what follows

  lemma RewriteTwice(seg: string)
    ensures Rewrite(Rewrite(seg)) == Rewrite(seg)
  {
    if Rewrite(seg) != seg {
      LabelledIsInert(Uuid, Rewrite(seg));
      LabelledIsInert(Digits, Rewrite(seg));
      LabelledIsInert(Hash, Rewrite(seg));
    }
  }

  function Slashes(s: string): nat {
    if s == [] then 0 else (if s[0] == '/' then 1 else 0) + Slashes(s[1..])
  }

  lemma {:induction false} SlashesOfPlain(a: string, s: string)
    requires '/' !in a
    ensures Slashes(a + s) == Slashes(s)
  {
    if a == "" {
      assert a + s == s;
    } else {
      SlashesOfPlain(a[1..], s);
      assert (a + s)[1..] == a[1..] + s;
    }
  }

  lemma {:induction false} SlashesCountSegments(s: string)
    ensures Slashes(s) == |Split(s)| - 1
    decreases |s|
  {
    match Tail(s)
    case None =>
      assert Head(s) + "" == s;
      SlashesOfPlain(Head(s), "");
    case Some(rest) =>
      assert s == Head(s) + ("/" + rest);
      SlashesOfPlain(Head(s), "/" + rest);
      assert ("/" + rest)[1..] == rest;
      SlashesCountSegments(rest);
  }

  lemma RewriteTailTwice(segs: seq<string>)
    requires segs != []
    ensures RewriteTail(RewriteTail(segs)) == RewriteTail(segs)
  {
    var once := RewriteTail(segs);
    forall i | 0 < i < |segs| ensures RewriteTail(once)[i] == once[i] {
      RewriteTwice(segs[i]);
    }
  }

  /** Normalising twice is normalising once, and no slash appears or disappears. */
  lemma NormaliseIsIdempotent(path: string)
    ensures NormaliseRoute(NormaliseRoute(path)) == NormaliseRoute(path)
    ensures Slashes(NormaliseRoute(path)) == Slashes(path)
  {
    var once := NormaliseRoute(path);
    NormaliseIsSegmentWise(path);
    NormaliseIsSegmentWise(once);
    RewriteTailTwice(Split(path));
    JoinSplit(once);
    JoinSplit(NormaliseRoute(once));
    SlashesCountSegments(path);
    SlashesCountSegments(once);
  }

  // ----- what is recognised, character by character

  predicate AllIn(s: string, from: nat, to: nat, chars: string) {
    from <= to <= |s| && forall i :: from <= i < to ==> s[i] in chars
  }

  const HEX := "0123456789abcdefABCDEF"
  const DECIMAL := "0123456789"

  /** Eight hexadecimal digits, a dash, and at least 27 digits and dashes. */
  predicate UuidForm(s: string) { AllIn(s, 0, 8, HEX) && |s| >= 36 && s[8] == '-' && AllIn(s, 9, 36, HEX + "-") }

  predicate NumberForm(s: string) { AllIn(s, 0, 1, DECIMAL) }

  /** At least 32 hexadecimal digits. */
  predicate HashForm(s: string) { AllIn(s, 0, 32, HEX) }

  /** The characters from `from` up to `n` are in the class, and there are no more to take, up to `cap`. */
  predicate Greedy(s: string, from: nat, n: nat, cap: nat, chars: string) {
    AllIn(s, from, n, chars) && n <= cap && (n == cap || n == |s| || s[n] !in chars)
  }

  lemma {:induction false} SpanIs(s: string, inClass: char -> bool, chars: string)
    requires forall c :: inClass(c) <==> c in chars
    ensures AllIn(s, 0, Span(s, inClass), chars)
    ensures Span(s, inClass) < |s| ==> s[Span(s, inClass)] !in chars
  {
    if s == "" || !inClass(s[0]) {
    } else {
      SpanIs(s[1..], inClass, chars);
      forall i | 0 <= i < Span(s, inClass) ensures s[i] in chars {
        if i > 0 {
          assert s[i] == s[1..][i - 1];
        }
      }
    }
  }

  lemma ClassesAre(c: char)
    ensures IsDigit(c) <==> c in DECIMAL
    ensures IsHex(c) <==> c in HEX
    ensures IsHexOrDash(c) <==> c in HEX + "-"
  {
  }

  lemma Spans(s: string)
    ensures Greedy(s, 0, Span(s, IsDigit), |s|, DECIMAL)
    ensures Greedy(s, 0, Span(s, IsHex), |s|, HEX)
    ensures Greedy(s, 0, Span(s, IsHexOrDash), |s|, HEX + "-")
  {
    forall c ensures IsDigit(c) <==> c in DECIMAL { ClassesAre(c); }
    forall c ensures IsHex(c) <==> c in HEX { ClassesAre(c); }
    forall c ensures IsHexOrDash(c) <==> c in HEX + "-" { ClassesAre(c); }
    SpanIs(s, IsDigit, DECIMAL);
    SpanIs(s, IsHex, HEX);
    SpanIs(s, IsHexOrDash, HEX + "-");
  }

  lemma NumberMatch(s: string)
    ensures MatchLen(Digits, s) > 0 <==> NumberForm(s)
    ensures Greedy(s, 0, MatchLen(Digits, s), |s|, DECIMAL)
  {
    Spans(s);
  }

  /** A run reaches at least as far as the first `k` characters are in the class. */
  lemma Reaches(s: string, n: nat, k: nat, chars: string)
    requires Greedy(s, 0, n, |s|, chars)
    ensures k <= n <==> AllIn(s, 0, k, chars)
  {
  }

  lemma HashMatch(s: string)
    ensures MatchLen(Hash, s) > 0 <==> HashForm(s)
    ensures HashForm(s) ==> Greedy(s, 0, MatchLen(Hash, s), 64, HEX)
  {
    Spans(s);
    Reaches(s, Span(s, IsHex), 32, HEX);
  }

  lemma GreedyAfter(s: string, k: nat, n: nat, cap: nat, chars: string)
    requires k <= |s| && Greedy(s[k..], 0, n, |s| - k, chars)
    ensures Greedy(s, k, k + Min(n, cap), k + cap, chars)
  {
    assert forall i {:trigger s[i]} :: k <= i < |s| ==> s[k..][i - k] == s[i];
  }

  lemma AllInAfter(s: string, k: nat, n: nat, chars: string)
    requires k <= |s|
    ensures AllIn(s[k..], 0, n, chars) <==> AllIn(s, k, k + n, chars)
  {
    if AllIn(s[k..], 0, n, chars) {
      assert forall i {:trigger s[i]} :: k <= i < k + n ==> s[k..][i - k] == s[i];
    }
  }

  lemma UuidMatch(s: string)
    ensures MatchLen(Uuid, s) > 0 <==> UuidForm(s)
    ensures UuidForm(s) ==> Greedy(s, 9, MatchLen(Uuid, s), 44, HEX + "-")
  {
    Spans(s);
    Reaches(s, Span(s, IsHex), 8, HEX);
    if |s| > 8 {
      var rest, m := s[9..], Span(s[9..], IsHexOrDash);
      Spans(rest);
      Reaches(rest, m, 27, HEX + "-");
      AllInAfter(s, 9, 27, HEX + "-");
      GreedyAfter(s, 9, m, 35, HEX + "-");
    }
  }

  /**
   What a segment becomes, in terms of its characters: a form that starts the
   segment is replaced by its label as far as it reaches, uuid before number
   before hash, and the rest of the segment stays.
   */
  lemma RewrittenByForm(seg: string, n: nat)
    ensures UuidForm(seg) && Greedy(seg, 9, n, 44, HEX + "-") && 9 < n ==> Rewrite(seg) == ":uuid" + seg[n..]
    ensures !UuidForm(seg) && NumberForm(seg) && Greedy(seg, 0, n, |seg|, DECIMAL) ==> Rewrite(seg) == ":id" + seg[n..]
    ensures !UuidForm(seg) && !NumberForm(seg) && HashForm(seg) && Greedy(seg, 0, n, 64, HEX) ==>
              Rewrite(seg) == ":hash" + seg[n..]
    ensures !UuidForm(seg) && !NumberForm(seg) && !HashForm(seg) ==> Rewrite(seg) == seg
  {
    UuidMatch(seg);
    NumberMatch(seg);
    HashMatch(seg);
    if UuidForm(seg) && Greedy(seg, 9, n, 44, HEX + "-") {
      GreedyIsUnique(seg, 9, n, MatchLen(Uuid, seg), 44, HEX + "-");
    }
    if NumberForm(seg) && Greedy(seg, 0, n, |seg|, DECIMAL) {
      GreedyIsUnique(seg, 0, n, MatchLen(Digits, seg), |seg|, DECIMAL);
    }
    if HashForm(seg) && Greedy(seg, 0, n, 64, HEX) {
      GreedyIsUnique(seg, 0, n, MatchLen(Hash, seg), 64, HEX);
    }
  }

  lemma GreedyIsUnique(s: string, from: nat, m: nat, n: nat, cap: nat, chars: string)
    requires Greedy(s, from, m, cap, chars) && Greedy(s, from, n, cap, chars)
    ensures m == n
  {
  }

  predicate Recognised(seg: string) {
    MatchLen(Uuid, seg) > 0 || MatchLen(Digits, seg) > 0 || MatchLen(Hash, seg) > 0
  }

  lemma RewriteChangesIff(seg: string)
    ensures Rewrite(seg) != seg <==> Recognised(seg)
  {
    if seg != "" && seg[0] == ':' {
      LabelledIsInert(Uuid, seg);
      LabelledIsInert(Digits, seg);
      LabelledIsInert(Hash, seg);
    }
  }

  /** Which paths become labels: exactly those with a recognised segment after a slash. */
  lemma UnchangedIff(path: string)
    ensures NormaliseRoute(path) == path <==> forall i :: 0 < i < |Split(path)| ==> !Recognised(Split(path)[i])
  {
    NormaliseIsSegmentWise(path);
    forall i | 0 < i < |Split(path)|
      ensures RewriteTail(Split(path))[i] != Split(path)[i] <==> Recognised(Split(path)[i])
    {
      RewriteChangesIff(Split(path)[i]);
    }
    JoinSplit(path);
    JoinSplit(NormaliseRoute(path));
    if forall i :: 0 < i < |Split(path)| ==> !Recognised(Split(path)[i]) {
      assert RewriteTail(Split(path)) == Split(path);
    }
  }

  lemma ThreeSegments(a: string, b: string, c: string, path: string)
    requires '/' !in a && '/' !in b && '/' !in c
    requires path == "" + ("/" + (a + ("/" + (b + ("/" + c)))))
    ensures Split(path) == [""] + ([a] + ([b] + [c]))
  {
    JoinCons(b, [c]);
    JoinCons(a, [b] + [c]);
    JoinCons("", [a] + ([b] + [c]));
    SplitJoin([""] + ([a] + ([b] + [c])));
  }

  /** A path of three segments, none of them recognised, is its own label. */
  lemma PlainPathIsItsOwnLabel(a: string, b: string, c: string, path: string)
    requires Split(path) == [""] + ([a] + ([b] + [c]))
    requires !Recognised(a) && !Recognised(b) && !Recognised(c)
    ensures NormaliseRoute(path) == path
  {
    UnchangedIff(path);
  }

  lemma SpansOfTheExample()
    ensures !Recognised("v1") && !Recognised("keys") && !Recognised("abc123")
  {
  }

  /**
   The comment above the function promises /v1/keys/:id for /v1/keys/abc123;
   the code returns the path unchanged.
   */
  lemma ShortKeysAreNotRewritten(path: string)
    requires path == "/v1/keys/abc123"
    ensures NormaliseRoute(path) == path
  {
    var a, b, c := "v1", "keys", "abc123";
    SpansOfTheExample();
    assert "" + ("/" + (a + ("/" + (b + ("/" + c))))) == path;
    ThreeSegments(a, b, c, path);
    PlainPathIsItsOwnLabel(a, b, c, path);
  }
}
