/**
 Endpoint lookup of src/services/configService.ts: an exact row first, then a
 scan that turns every {placeholder} of a stored path into [^/]+ and tests the
 request path against the anchored expression.
 */
module PathTemplates {
  import opened Prelude

  // ----- segments

  function IndexOf(s: string, c: char): (i: nat)
    ensures i <= |s|
    ensures forall k :: 0 <= k < i ==> s[k] != c
    ensures i < |s| ==> s[i] == c
  {
    if s == [] || s[0] == c then 0 else 1 + IndexOf(s[1..], c)
  }

  /** The first segment of a path. */
  function Head(s: string): string { s[..IndexOf(s, '/')] }

  /** Everything after the first slash, if there is one. */
  function Tail(s: string): Option<string> {
    var i := IndexOf(s, '/');
    if i < |s| then Some(s[i + 1..]) else None
  }

  function Split(s: string): (segs: seq<string>)
    ensures segs != []
    ensures forall k :: 0 <= k < |segs| ==> '/' !in segs[k]
    decreases |s|
  {
    match Tail(s)
    case None => [Head(s)]
    case Some(rest) => [Head(s)] + Split(rest)
  }

  function Join(segs: seq<string>): string
    requires segs != []
  {
    if |segs| == 1 then segs[0] else segs[0] + "/" + Join(segs[1..])
  }

  lemma FirstSlash(a: string, rest: string)
    requires '/' !in a
    ensures Head(a) == a && Tail(a) == None
    ensures Head(a + "/" + rest) == a && Tail(a + "/" + rest) == Some(rest)
  {
    var s := a + "/" + rest;
    assert s[|a|] == '/';
    assert IndexOf(s, '/') == |a|;
  }

  lemma {:induction false} JoinSplit(s: string)
    ensures Join(Split(s)) == s
    decreases |s|
  {
    match Tail(s)
    case None =>
    case Some(rest) =>
      JoinSplit(rest);
      assert Split(s)[1..] == Split(rest);
  }

  lemma {:induction false} SplitJoin(segs: seq<string>)
    requires segs != []
    requires forall k :: 0 <= k < |segs| ==> '/' !in segs[k]
    ensures Split(Join(segs)) == segs
  {
    if |segs| == 1 {
      FirstSlash(segs[0], "");
    } else {
      SplitJoin(segs[1..]);
      FirstSlash(segs[0], Join(segs[1..]));
    }
  }

  // ----- the compiled expression

  /** One element of the anchored expression: a literal character or [^/]+. */
  datatype Tok = Lit(c: char) | Hole

  /**
   Replacing every leftmost match of a brace, one or more other characters
   than a closing brace, and a closing brace; all else stays literal.
   */
  function Compile(s: string): seq<Tok>
    decreases |s|
  {
    if s == [] then []
    else
      var close := IndexOf(s, '}');
      if s[0] == '{' && 1 < close < |s| then [Hole] + Compile(s[close + 1..])
      else [Lit(s[0])] + Compile(s[1..])
  }

  /** The paths the anchored expression matches. */
  predicate Accepts(e: seq<Tok>, path: string)
    decreases |e|
  {
    if e == [] then path == []
    else match e[0]
      case Lit(c) => path != [] && path[0] == c && Accepts(e[1..], path[1..])
      case Hole => exists n :: 1 <= n <= |path| && '/' !in path[..n] && Accepts(e[1..], path[n..])
  }

  predicate Matches(template: string, path: string) { Accepts(Compile(template), path) }

  // ----- the segment-wise reading

  predicate IsMeta(c: char) { c in "\\^$.*+?()[]{}|" }

  predicate IsLiteral(seg: string) { forall k :: 0 <= k < |seg| ==> !IsMeta(seg[k]) }

  predicate IsPlaceholder(seg: string) {
    |seg| > 2 && seg[0] == '{' && IndexOf(seg, '}') == |seg| - 1
  }

  /** Each segment is one placeholder or free of characters special to expressions. */
  predicate WellFormed(template: string) {
    forall k :: 0 <= k < |Split(template)| ==> IsLiteral(Split(template)[k]) || IsPlaceholder(Split(template)[k])
  }

  /** A placeholder is a name in braces; empty braces are no placeholder, and stay as they are in the expression. */
  lemma PlaceholderIff(name: string)
    ensures IsPlaceholder("{" + name + "}") <==> name != "" && '}' !in name
  {
    var seg := "{" + name + "}";
    assert seg[|seg| - 1] == '}';
    assert forall k :: 0 <= k < |name| ==> seg[k + 1] == name[k];
    if name != "" && '}' !in name {
      assert seg[IndexOf(seg, '}')] == '}';
    }
  }

  lemma EmptyBracesAreLiteral(rest: string)
    ensures Compile("{}" + rest) == [Lit('{'), Lit('}')] + Compile(rest)
  {
    var s := "{}" + rest;
    assert s[0] == '{' && s[1] == '}' && IndexOf(s, '}') == 1;
    assert s[1..] == "}" + rest && ("}" + rest)[1..] == rest;
    assert IndexOf(s[1..], '}') == 0;
  }

  predicate IsPlain(seg: string) {
    forall k :: 0 <= k < |seg| ==>
      'a' <= seg[k] <= 'z' || 'A' <= seg[k] <= 'Z' || '0' <= seg[k] <= '9' || seg[k] in "-_"
  }

  lemma PlainWord(name: string)
    requires IsPlain(name)
    ensures '/' !in name && '}' !in name && IsLiteral(name)
  {
  }

  lemma PlainPlaceholder(name: string)
    requires IsPlain(name) && name != ""
    ensures '/' !in "{" + name + "}" && IsPlaceholder("{" + name + "}")
  {
    PlainWord(name);
    PlaceholderIff(name);
  }

  /** The usual templates are all covered: each segment a plain word or a plain name in braces. */
  lemma UsualTemplatesAreWellFormed(segs: seq<string>, names: seq<string>)
    requires segs != [] && |names| == |segs| && forall k :: 0 <= k < |segs| ==> IsPlain(names[k])
    requires forall k :: 0 <= k < |segs| ==> segs[k] == names[k] || (names[k] != "" && segs[k] == "{" + names[k] + "}")
    ensures WellFormed(Join(segs)) && Split(Join(segs)) == segs
  {
    forall k | 0 <= k < |segs| ensures '/' !in segs[k] && (IsLiteral(segs[k]) || IsPlaceholder(segs[k])) {
      PlainWord(names[k]);
      if segs[k] != names[k] {
        PlainPlaceholder(names[k]);
      }
    }
    SplitJoin(segs);
  }

  predicate SegmentMatches(t: string, p: string) { if IsPlaceholder(t) then p != "" else p == t }

  predicate SegmentsMatch(ts: seq<string>, ps: seq<string>) {
    |ts| == |ps| && forall k :: 0 <= k < |ts| ==> SegmentMatches(ts[k], ps[k])
  }

  // ----- compiled matching is segment-wise matching

  function Lits(s: string): seq<Tok> { seq(|s|, i requires 0 <= i < |s| => Lit(s[i])) }

  lemma {:induction false} CompileLiteral(a: string, rest: string)
    requires IsLiteral(a)
    ensures Compile(a + rest) == Lits(a) + Compile(rest)
  {
    if a == "" {
      assert a + rest == rest;
    } else {
      var c, tail := a[0], a[1..];
      assert a == [c] + tail && a + rest == [c] + (tail + rest) && !IsMeta(c);
      calc {
        Compile(a + rest);
        { CompileOneLiteral(c, tail + rest); }
        [Lit(c)] + Compile(tail + rest);
        { CompileLiteral(tail, rest); }
        [Lit(c)] + (Lits(tail) + Compile(rest));
        ([Lit(c)] + Lits(tail)) + Compile(rest);
        { LitsCons(c, tail); }
        Lits(a) + Compile(rest);
      }
    }
  }

  lemma LitsCons(c: char, s: string)
    ensures Lits([c] + s) == [Lit(c)] + Lits(s)
  {
  }

  lemma CompileOneLiteral(c: char, rest: string)
    requires !IsMeta(c)
    ensures Compile([c] + rest) == [Lit(c)] + Compile(rest)
  {
    assert ([c] + rest)[0] == c && ([c] + rest)[1..] == rest;
    assert c != '{';
  }

  lemma CompilePlaceholder(a: string, rest: string)
    requires IsPlaceholder(a)
    ensures Compile(a + rest) == [Hole] + Compile(rest)
  {
    var s, last := a + rest, |a| - 1;
    assert s[last] == '}';
    assert forall k :: 0 <= k < last ==> s[k] == a[k];
    assert IndexOf(s, '}') == last;
    assert s[last + 1..] == rest;
  }

  lemma {:induction false} AcceptsLiteral(a: string, e: seq<Tok>, path: string)
    ensures Accepts(Lits(a) + e, path) <==> a <= path && Accepts(e, path[|a|..])
  {
    if a == "" {
      assert Lits(a) + e == e;
    } else {
      assert (Lits(a) + e)[1..] == Lits(a[1..]) + e;
      if path != [] {
        AcceptsLiteral(a[1..], e, path[1..]);
        if a <= path {
          assert path[1..][|a| - 1..] == path[|a|..];
        }
      }
    }
  }

  /** The end of the expression, or a slash and more. */
  predicate AtBoundary(e: seq<Tok>) { e == [] || e[0] == Lit('/') }

  lemma PrefixHasSlash(path: string, m: nat, n: nat)
    requires m < n <= |path| && path[m] == '/'
    ensures '/' in path[..n]
  {
  }

  /** A hole that ends at a boundary has no choice: it takes the whole segment. */
  lemma HoleTakesSegment(e: seq<Tok>, path: string)
    requires AtBoundary(e)
    ensures Accepts([Hole] + e, path) <==> Head(path) != "" && Accepts(e, path[|Head(path)|..])
  {
    var m := IndexOf(path, '/');
    assert ([Hole] + e)[1..] == e;
    forall n | 1 <= n <= |path| && '/' !in path[..n] && Accepts(e, path[n..])
      ensures n == m
    {
      if m < n {
        PrefixHasSlash(path, m, n);
      }
    }
  }

  /** A literal that ends at a boundary is the whole segment. */
  lemma LiteralTakesSegment(t: string, e: seq<Tok>, path: string)
    requires '/' !in t && AtBoundary(e) && t <= path && Accepts(e, path[|t|..])
    ensures Head(path) == t
  {
    var after := path[|t|..];
    assert path == t + after;
    if e == [] {
      FirstSlash(t, "");
    } else {
      assert after[0] == '/';
      assert path == t + "/" + after[1..];
      FirstSlash(t, after[1..]);
    }
  }

  /** One segment of a template against one segment of a path. */
  lemma SegmentStep(t: string, e: seq<Tok>, rest: string, path: string)
    requires IsLiteral(t) || IsPlaceholder(t)
    requires '/' !in t && Compile(rest) == e && AtBoundary(e)
    ensures Accepts(Compile(t + rest), path)
       <==> SegmentMatches(t, Head(path)) && Accepts(e, path[|Head(path)|..])
  {
    if IsPlaceholder(t) {
      CompilePlaceholder(t, rest);
      HoleTakesSegment(e, path);
    } else {
      CompileLiteral(t, rest);
      AcceptsLiteral(t, e, path);
      if t <= path && Accepts(e, path[|t|..]) {
        LiteralTakesSegment(t, e, path);
      }
    }
  }

  /** A template and a path that both go on after a slash. */
  lemma MatchingContinues(t: string, rest: string, path: string)
    requires IsLiteral(t) || IsPlaceholder(t)
    requires '/' !in t
    ensures Matches(t + ("/" + rest), path)
       <==> SegmentMatches(t, Head(path)) && Tail(path).Some? && Matches(rest, Tail(path).value)
  {
    CompileSlash(rest);
    SegmentStep(t, [Lit('/')] + Compile(rest), "/" + rest, path);
    SlashFirst(Compile(rest), path);
  }

  /** What is left after the first segment starts with a slash, if there is anything. */
  lemma SlashFirst(e: seq<Tok>, path: string)
    ensures Accepts([Lit('/')] + e, path[|Head(path)|..]) <==> Tail(path).Some? && Accepts(e, Tail(path).value)
  {
    var after := path[|Head(path)|..];
    assert ([Lit('/')] + e)[1..] == e;
    match Tail(path)
    case None =>
      assert after == "";
    case Some(more) =>
      assert after == "/" + more && after[1..] == more;
  }

  lemma WellFormedTail(template: string)
    requires WellFormed(template)
    ensures IsLiteral(Head(template)) || IsPlaceholder(Head(template))
    ensures Tail(template).Some? ==> WellFormed(Tail(template).value)
  {
    assert Split(template)[0] == Head(template);
    if Tail(template).Some? {
      assert forall k :: 0 <= k < |Split(Tail(template).value)| ==>
        Split(Tail(template).value)[k] == Split(template)[k + 1];
    }
  }

  /** For every path: the compiled template accepts it exactly when the segments match one by one. */
  lemma {:induction false} MatchingIsSegmentWise(template: string, path: string)
    requires WellFormed(template)
    ensures Matches(template, path) <==> SegmentsMatch(Split(template), Split(path))
    decreases |template|
  {
    var t, ts, ps := Head(template), Split(template), Split(path);
    WellFormedTail(template);
    SegmentsCons(ts, ps);
    match Tail(template)
    case None =>
      assert t + "" == template;
      SegmentStep(t, [], "", path);
      assert ts == [t] && ps[0] == Head(path);
      assert path[|Head(path)|..] == "" <==> Tail(path) == None;
    case Some(rest) =>
      assert template == t + ("/" + rest);
      MatchingContinues(t, rest, path);
      assert ts[1..] == Split(rest);
      if Tail(path).Some? {
        MatchingIsSegmentWise(rest, Tail(path).value);
        assert ps[1..] == Split(Tail(path).value);
      }
  }

  lemma CompileSlash(rest: string)
    ensures Compile("/" + rest) == [Lit('/')] + Compile(rest)
  {
  }

  lemma SegmentsCons(ts: seq<string>, ps: seq<string>)
    requires ts != [] && ps != []
    ensures SegmentsMatch(ts, ps) <==> SegmentMatches(ts[0], ps[0]) && SegmentsMatch(ts[1..], ps[1..])
  {
    if SegmentMatches(ts[0], ps[0]) && SegmentsMatch(ts[1..], ps[1..]) {
      forall k | 0 <= k < |ts| ensures SegmentMatches(ts[k], ps[k]) {
        if k > 0 {
          assert ts[k] == ts[1..][k - 1] && ps[k] == ps[1..][k - 1];
        }
      }
    }
    if SegmentsMatch(ts, ps) {
      assert forall k :: 0 <= k < |ts| - 1 ==> ts[1..][k] == ts[k + 1] && ps[1..][k] == ps[k + 1];
    }
  }

  // ----- filling a template, and reading the values back

  function Holes(ts: seq<string>): nat {
    if ts == [] then 0 else (if IsPlaceholder(ts[0]) then 1 else 0) + Holes(ts[1..])
  }

  /** The segments of a template with the placeholders replaced in order. */
  function Fill(ts: seq<string>, values: seq<string>): seq<string>
    requires |values| == Holes(ts)
  {
    if ts == [] then []
    else if IsPlaceholder(ts[0]) then [values[0]] + Fill(ts[1..], values[1..])
    else [ts[0]] + Fill(ts[1..], values)
  }

  /** The path segments that stand where the template has placeholders. */
  function Extract(ts: seq<string>, ps: seq<string>): (values: seq<string>)
    requires |ts| == |ps|
    ensures |values| == Holes(ts)
  {
    if ts == [] then []
    else (if IsPlaceholder(ts[0]) then [ps[0]] else []) + Extract(ts[1..], ps[1..])
  }

  predicate GoodValues(values: seq<string>) {
    forall k :: 0 <= k < |values| ==> values[k] != "" && '/' !in values[k]
  }

  predicate SlashFree(segs: seq<string>) { forall k :: 0 <= k < |segs| ==> '/' !in segs[k] }

  lemma {:induction false} FillSegments(ts: seq<string>, values: seq<string>)
    requires |values| == Holes(ts) && GoodValues(values) && SlashFree(ts)
    ensures SlashFree(Fill(ts, values)) && SegmentsMatch(ts, Fill(ts, values))
    ensures Extract(ts, Fill(ts, values)) == values
  {
    if ts == [] {
    } else {
      var f := Fill(ts, values);
      if IsPlaceholder(ts[0]) {
        FillSegments(ts[1..], values[1..]);
        assert f[1..] == Fill(ts[1..], values[1..]);
      } else {
        FillSegments(ts[1..], values);
        assert f[1..] == Fill(ts[1..], values);
      }
      SegmentsCons(ts, f);
      forall k | 0 <= k < |f| ensures '/' !in f[k] {
        if k > 0 { assert f[k] == f[1..][k - 1]; }
      }
    }
  }

  lemma {:induction false} ExtractSegments(ts: seq<string>, ps: seq<string>)
    requires SegmentsMatch(ts, ps) && SlashFree(ps)
    ensures GoodValues(Extract(ts, ps)) && Fill(ts, Extract(ts, ps)) == ps
  {
    if ts == [] {
    } else {
      SegmentsCons(ts, ps);
      ExtractSegments(ts[1..], ps[1..]);
      var values := Extract(ts, ps);
      assert SegmentMatches(ts[0], ps[0]);
      if IsPlaceholder(ts[0]) {
        assert values[1..] == Extract(ts[1..], ps[1..]);
        forall k | 0 <= k < |values| ensures values[k] != "" && '/' !in values[k] {
          if k > 0 { assert values[k] == values[1..][k - 1]; }
        }
      } else {
        assert values == Extract(ts[1..], ps[1..]);
      }
    }
  }

  /** Round trip from values: a filled template matches and gives its values back. */
  lemma FilledTemplateMatches(template: string, values: seq<string>)
    requires WellFormed(template) && |values| == Holes(Split(template)) && GoodValues(values)
    ensures var ts := Split(template); var path := Join(Fill(ts, values));
            Matches(template, path) && |Split(path)| == |ts| && Extract(ts, Split(path)) == values
  {
    var ts := Split(template);
    FillSegments(ts, values);
    SplitJoin(Fill(ts, values));
    MatchingIsSegmentWise(template, Join(Fill(ts, values)));
  }

  /** Round trip from paths: a matched path is the template filled with exactly one list of values. */
  lemma MatchedPathIsFilledTemplate(template: string, path: string)
    requires WellFormed(template) && Matches(template, path)
    ensures var ts := Split(template);
            |ts| == |Split(path)| && GoodValues(Extract(ts, Split(path)))
            && path == Join(Fill(ts, Extract(ts, Split(path))))
    ensures forall values ::
              |values| == Holes(Split(template)) && GoodValues(values) && path == Join(Fill(Split(template), values))
              ==> values == Extract(Split(template), Split(path))
  {
    var ts := Split(template);
    MatchingIsSegmentWise(template, path);
    ExtractSegments(ts, Split(path));
    JoinSplit(path);
    forall values
      | |values| == Holes(ts) && GoodValues(values) && path == Join(Fill(ts, values))
      ensures values == Extract(ts, Split(path))
    {
      FilledTemplateMatches(template, values);
    }
  }

  // ----- ambiguity

  /** No path segment matches both. */
  predicate SegmentsApart(a: string, b: string) {
    if IsPlaceholder(a) then b == "" else if IsPlaceholder(b) then a == "" else a != b
  }

  predicate Separated(a: string, b: string) {
    var (s, t) := (Split(a), Split(b));
    |s| != |t| || exists k :: 0 <= k < |s| && SegmentsApart(s[k], t[k])
  }

  /** A segment both sides match, when there is one. */
  function Common(a: string, b: string): string {
    if !IsPlaceholder(a) then a else if !IsPlaceholder(b) then b else "x"
  }

  /** Two templates share a path exactly when no position tells them apart. */
  lemma SharedPathIffNotSeparated(a: string, b: string)
    requires WellFormed(a) && WellFormed(b)
    ensures (exists path :: Matches(a, path) && Matches(b, path)) <==> !Separated(a, b)
  {
    var s, t := Split(a), Split(b);
    forall path ensures Matches(a, path) && Matches(b, path) ==> !Separated(a, b) {
      MatchingIsSegmentWise(a, path);
      MatchingIsSegmentWise(b, path);
      if Matches(a, path) && Matches(b, path) {
        forall k | 0 <= k < |s| ensures !SegmentsApart(s[k], t[k]) {
          assert SegmentMatches(s[k], Split(path)[k]) && SegmentMatches(t[k], Split(path)[k]);
        }
      }
    }
    if !Separated(a, b) {
      var segs := seq(|s|, k requires 0 <= k < |s| => Common(s[k], t[k]));
      var path := Join(segs);
      SplitJoin(segs);
      MatchingIsSegmentWise(a, path);
      MatchingIsSegmentWise(b, path);
      forall k | 0 <= k < |s| ensures SegmentMatches(s[k], segs[k]) && SegmentMatches(t[k], segs[k]) {
        assert !SegmentsApart(s[k], t[k]);
      }
      assert Matches(a, path) && Matches(b, path);
    }
  }

  lemma AtMostOneMatches(a: string, b: string, path: string)
    requires WellFormed(a) && WellFormed(b) && Separated(a, b)
    ensures !Matches(a, path) || !Matches(b, path)
  {
    SharedPathIffNotSeparated(a, b);
  }

  // ----- lookup

  datatype Endpoint = Endpoint(id: nat, path: string, verb: string)

  /** The unique index on path and verb. */
  predicate UniqueRows(rows: seq<Endpoint>) {
    forall i, j :: 0 <= i < |rows| && 0 <= j < |rows| && rows[i].path == rows[j].path && rows[i].verb == rows[j].verb
      ==> rows[i] == rows[j]
  }

  function FindExact(rows: seq<Endpoint>, path: string, verb: string): Option<Endpoint> {
    if rows == [] then None
    else if rows[0].path == path && rows[0].verb == verb then Some(rows[0])
    else FindExact(rows[1..], path, verb)
  }

  function FindPattern(rows: seq<Endpoint>, path: string, verb: string): Option<Endpoint> {
    if rows == [] then None
    else if rows[0].verb == verb && Matches(rows[0].path, path) then Some(rows[0])
    else FindPattern(rows[1..], path, verb)
  }

  function Lookup(rows: seq<Endpoint>, path: string, verb: string): Option<Endpoint> {
    match FindExact(rows, path, verb)
    case Some(ep) => Some(ep)
    case None => FindPattern(rows, path, verb)
  }

  lemma {:induction false} FindExactFinds(rows: seq<Endpoint>, path: string, verb: string)
    ensures match FindExact(rows, path, verb)
            case Some(ep) => ep in rows && ep.path == path && ep.verb == verb
            case None => forall ep :: ep in rows ==> !(ep.path == path && ep.verb == verb)
  {
    if rows == [] {
    } else {
      FindExactFinds(rows[1..], path, verb);
    }
  }

  lemma {:induction false} FindPatternFinds(rows: seq<Endpoint>, path: string, verb: string)
    ensures match FindPattern(rows, path, verb)
            case Some(ep) => ep in rows && ep.verb == verb && Matches(ep.path, path)
            case None => forall ep :: ep in rows ==> !(ep.verb == verb && Matches(ep.path, path))
  {
    if rows == [] {
    } else {
      FindPatternFinds(rows[1..], path, verb);
    }
  }

  /** Any two different templates of one verb are told apart by some segment. */
  predicate PairwiseSeparated(rows: seq<Endpoint>) {
    forall a, b :: a in rows && b in rows && a != b && a.verb == b.verb ==> Separated(a.path, b.path)
  }

  /** The same rows in some other order. */
  predicate SameRows(rows: seq<Endpoint>, others: seq<Endpoint>) { multiset(rows) == multiset(others) }

  predicate Hit(ep: Endpoint, path: string, verb: string) { ep.verb == verb && Matches(ep.path, path) }

  /** No row is exact and two different rows match. */
  predicate Ambiguous(rows: seq<Endpoint>, path: string, verb: string) {
    FindExact(rows, path, verb) == None
    && exists a, b :: a in rows && b in rows && a != b && Hit(a, path, verb) && Hit(b, path, verb)
  }

  ghost predicate OrderIrrelevant(rows: seq<Endpoint>, path: string, verb: string) {
    forall others :: SameRows(rows, others) ==> Lookup(others, path, verb) == Lookup(rows, path, verb)
  }

  lemma SameMembers(rows: seq<Endpoint>, others: seq<Endpoint>)
    requires SameRows(rows, others)
    ensures forall ep :: ep in rows <==> ep in others
  {
    assert forall ep :: ep in rows <==> ep in multiset(rows);
    assert forall ep :: ep in others <==> ep in multiset(others);
  }

  function MoveToFront(rows: seq<Endpoint>, i: nat): seq<Endpoint>
    requires i < |rows|
  {
    [rows[i]] + (rows[..i] + rows[i + 1..])
  }

  lemma MovingKeepsRows(rows: seq<Endpoint>, i: nat)
    requires i < |rows|
    ensures SameRows(rows, MoveToFront(rows, i))
  {
    assert rows == rows[..i] + [rows[i]] + rows[i + 1..];
  }

  lemma UnambiguousIgnoresOrder(rows: seq<Endpoint>, others: seq<Endpoint>, path: string, verb: string)
    requires UniqueRows(rows) && SameRows(rows, others) && !Ambiguous(rows, path, verb)
    ensures Lookup(others, path, verb) == Lookup(rows, path, verb)
  {
    SameMembers(rows, others);
    FindExactFinds(rows, path, verb);
    FindExactFinds(others, path, verb);
    FindPatternFinds(rows, path, verb);
    FindPatternFinds(others, path, verb);
  }

  /** The answer depends on the order of the rows exactly for ambiguous paths. */
  lemma OrderIrrelevantIffUnambiguous(rows: seq<Endpoint>, path: string, verb: string)
    requires UniqueRows(rows)
    ensures OrderIrrelevant(rows, path, verb) <==> !Ambiguous(rows, path, verb)
  {
    if !Ambiguous(rows, path, verb) {
      forall others | SameRows(rows, others) ensures Lookup(others, path, verb) == Lookup(rows, path, verb) {
        UnambiguousIgnoresOrder(rows, others, path, verb);
      }
    } else {
      var a, b :| a in rows && b in rows && a != b && Hit(a, path, verb) && Hit(b, path, verb);
      var i :| 0 <= i < |rows| && rows[i] == a;
      var j :| 0 <= j < |rows| && rows[j] == b;
      FrontWins(rows, i, path, verb);
      FrontWins(rows, j, path, verb);
    }
  }

  lemma FrontWins(rows: seq<Endpoint>, i: nat, path: string, verb: string)
    requires i < |rows| && Hit(rows[i], path, verb) && FindExact(rows, path, verb) == None
    ensures SameRows(rows, MoveToFront(rows, i)) && Lookup(MoveToFront(rows, i), path, verb) == Some(rows[i])
  {
    var moved := MoveToFront(rows, i);
    MovingKeepsRows(rows, i);
    SameMembers(rows, moved);
    FindExactFinds(rows, path, verb);
    FindExactFinds(moved, path, verb);
  }

  /**
   The database may return rows in any order: with separated templates the
   lookup finds the same endpoint, and an exact row always wins.
   */
  lemma LookupIgnoresOrder(rows: seq<Endpoint>, others: seq<Endpoint>, path: string, verb: string)
    requires UniqueRows(rows) && SameRows(rows, others) && PairwiseSeparated(rows)
    requires forall ep :: ep in rows ==> WellFormed(ep.path)
    ensures Lookup(rows, path, verb) == Lookup(others, path, verb)
    ensures forall ep :: ep in rows && ep.path == path && ep.verb == verb ==> Lookup(others, path, verb) == Some(ep)
  {
    forall a, b | a in rows && b in rows && a != b && a.verb == b.verb
      ensures !Matches(a.path, path) || !Matches(b.path, path)
    {
      AtMostOneMatches(a.path, b.path, path);
    }
    OrderIrrelevantIffUnambiguous(rows, path, verb);
    FindExactFinds(rows, path, verb);
  }

  /** The lookup as the service runs it: a keyed read, then a scan with early return. */
  method GetEndpointByPathMethod(rows: seq<Endpoint>, path: string, verb: string) returns (found: Option<Endpoint>)
    ensures found == Lookup(rows, path, verb)
  {
    var exact := FindExact(rows, path, verb);
    if exact.Some? {
      return exact;
    }
    var i := 0;
    while i < |rows|
      invariant i <= |rows|
      invariant FindPattern(rows, path, verb) == FindPattern(rows[i..], path, verb)
    {
      var ep := rows[i];
      if ep.verb == verb && Matches(ep.path, path) {
        return Some(ep);
      }
      i := i + 1;
    }
    return None;
  }
}
