/**
 Redaction of logged request bodies, src/core/middleware/requestLogger.ts.

 A body is a finite JSON tree as JSON.parse builds it; an object is a map from
 its own keys, so the order of keys is not modelled.
 */
module Redaction {
  import opened Prelude

  datatype Json =
    | Null
    | Bool(b: bool)
    | Num(n: real)
    | Str(s: string)
    | Arr(items: seq<Json>)
    | Obj(fields: map<string, Json>)

  const REDACTED := Str("[REDACTED]")

  /** Assigning to this key of an object literal sets its prototype and makes no own key. */
  const PROTO := "__proto__"

  // ----- which keys are sensitive

  /** Folding of the /i flag: ASCII letters only. */
  function Lower(c: char): char { if 'A' <= c <= 'Z' then c - 'A' + 'a' else c }

  predicate StartsWithFolded(s: string, word: string) {
    |word| <= |s| && forall i :: 0 <= i < |word| ==> Lower(s[i]) == word[i]
  }

  predicate ContainsFolded(s: string, word: string) {
    exists i :: 0 <= i <= |s| && StartsWithFolded(s[i..], word)
  }

  predicate Sensitive(key: string) {
    || ContainsFolded(key, "password")
    || ContainsFolded(key, "token")
    || ContainsFolded(key, "secret")
    || ContainsFolded(key, "apikey")
    || ContainsFolded(key, "api_key")
    || ContainsFolded(key, "api-key")
    || ContainsFolded(key, "authorization")
  }

  function LowerAll(s: string): string { seq(|s|, i requires 0 <= i < |s| => Lower(s[i])) }

  lemma FoldedIgnoresCase(s: string, word: string)
    ensures ContainsFolded(s, word) <==> ContainsFolded(LowerAll(s), word)
  {
    forall i | 0 <= i <= |s| ensures StartsWithFolded(s[i..], word) <==> StartsWithFolded(LowerAll(s)[i..], word) {
      assert forall k :: 0 <= k < |s[i..]| ==> LowerAll(s)[i..][k] == Lower(s[i..][k]);
    }
  }

  lemma FoldedInContext(before: string, s: string, after: string, word: string)
    requires ContainsFolded(s, word)
    ensures ContainsFolded(before + s + after, word)
  {
    var i :| 0 <= i <= |s| && StartsWithFolded(s[i..], word);
    var all := before + s + after;
    assert forall k :: 0 <= k < |word| ==> all[|before| + i..][k] == s[i..][k];
    assert StartsWithFolded(all[|before| + i..], word);
  }

  /** The test ignores ASCII case, and a longer name around a sensitive one is sensitive too. */
  lemma SensitiveByAnyPart(before: string, key: string, after: string)
    ensures Sensitive(key) <==> Sensitive(LowerAll(key))
    ensures Sensitive(key) ==> Sensitive(before + key + after)
  {
    forall word {:trigger ContainsFolded(key, word)}
      ensures ContainsFolded(key, word) <==> ContainsFolded(LowerAll(key), word)
      ensures ContainsFolded(key, word) ==> ContainsFolded(before + key + after, word)
    {
      FoldedIgnoresCase(key, word);
      if ContainsFolded(key, word) {
        FoldedInContext(before, key, after, word);
      }
    }
  }

  /** The words a sensitive key contains. */
  const WORDS: seq<string> :=
    ["password", "token", "secret", "apikey", "api_key", "api-key", "authorization"]

  function Upper(c: char): char { if 'a' <= c <= 'z' then c - 'a' + 'A' else c }

  /** The word stands in the key at this place, each letter in either case. */
  predicate StandsAt(key: string, i: nat, word: string) {
    i + |word| <= |key| && forall k :: 0 <= k < |word| ==> key[i + k] == word[k] || key[i + k] == Upper(word[k])
  }

  lemma FoldedStandsAt(key: string, i: nat, word: string)
    requires i <= |key| && forall k :: 0 <= k < |word| ==> Upper(word[k]) != word[k] || word[k] in "_-"
    ensures StartsWithFolded(key[i..], word) <==> StandsAt(key, i, word)
  {
    assert forall k :: 0 <= k < |key| - i ==> key[i..][k] == key[i + k];
  }

  /** Exactly which keys are hidden: those in which one of the words stands somewhere, in any case. */
  lemma SensitiveIff(key: string)
    ensures Sensitive(key) <==> exists w, i: nat :: 0 <= w < |WORDS| && StandsAt(key, i, WORDS[w])
  {
    forall w | 0 <= w < |WORDS|
      ensures ContainsFolded(key, WORDS[w]) <==> exists i: nat :: StandsAt(key, i, WORDS[w])
    {
      forall i: nat | i <= |key| ensures StartsWithFolded(key[i..], WORDS[w]) <==> StandsAt(key, i, WORDS[w]) {
        FoldedStandsAt(key, i, WORDS[w]);
      }
    }
    assert WORDS[0] == "password" && WORDS[1] == "token" && WORDS[2] == "secret" && WORDS[3] == "apikey";
    assert WORDS[4] == "api_key" && WORDS[5] == "api-key" && WORDS[6] == "authorization";
  }

  // ----- the copy

  function Sanitize(j: Json): Json {
    match j
    case Arr(items) => Arr(seq(|items|, i requires 0 <= i < |items| => Sanitize(items[i])))
    case Obj(fields) =>
      Obj(map k | k in fields && k != PROTO :: if Sensitive(k) then REDACTED else Sanitize(fields[k]))
    case _ => j
  }

  /** The recursive loop that fills a fresh copy key by key. */
  method SanitizeBody(body: Json) returns (copy: Json)
    ensures copy == Sanitize(body)
    decreases body
  {
    match body
    case Arr(items) =>
      var filled: seq<Json> := [];
      for i := 0 to |items|
        invariant |filled| == i
        invariant forall k :: 0 <= k < i ==> filled[k] == Sanitize(items[k])
      {
        var v := SanitizeBody(items[i]);
        filled := filled + [v];
      }
      return Arr(filled);
    case Obj(fields) =>
      var filled: map<string, Json> := map[];
      var keys := fields.Keys;
      while keys != {}
        invariant keys <= fields.Keys
        invariant filled.Keys == fields.Keys - keys - {PROTO}
        invariant forall k :: k in filled ==>
                    filled[k] == if Sensitive(k) then REDACTED else Sanitize(fields[k])
        decreases keys
      {
        var k :| k in keys;
        keys := keys - {k};
        var v;
        if Sensitive(k) {
          v := REDACTED;
        } else {
          v := SanitizeBody(fields[k]);
        }
        if k != PROTO {
          filled := filled[k := v];
        }
      }
      return Obj(filled);
    case _ =>
      return body;
  }

  // ----- what is seen along a path

  datatype Step = Key(name: string) | Index(i: nat)

  function At(j: Json, path: seq<Step>): Option<Json> {
    if path == [] then Some(j)
    else match path[0]
      case Key(name) => if j.Obj? && name in j.fields then At(j.fields[name], path[1..]) else None
      case Index(i) => if j.Arr? && i < |j.items| then At(j.items[i], path[1..]) else None
  }

  /** A step the copy keeps as it is. */
  predicate ClearStep(s: Step) { s.Key? ==> !Sensitive(s.name) && s.name != PROTO }

  predicate ClearPath(path: seq<Step>) { forall i :: 0 <= i < |path| ==> ClearStep(path[i]) }

  /** Off the sensitive keys the copy shows the sanitised subtree at the same place. */
  lemma {:induction false} ClearPathsArePreserved(j: Json, path: seq<Step>)
    requires ClearPath(path)
    ensures At(Sanitize(j), path) ==
              match At(j, path) { case None => None case Some(v) => Some(Sanitize(v)) }
    decreases |path|
  {
    if path == [] {
    } else {
      assert ClearStep(path[0]);
      match path[0]
      case Key(name) =>
        if j.Obj? && name in j.fields {
          ClearPathsArePreserved(j.fields[name], path[1..]);
        }
      case Index(i) =>
        if j.Arr? && i < |j.items| {
          ClearPathsArePreserved(j.items[i], path[1..]);
        }
    }
  }

  /** Through a sensitive key nothing is seen but the marker, and the marker hides whatever was below. */
  lemma {:induction false} SensitivePathsShowOnlyTheMarker(j: Json, path: seq<Step>)
    requires !ClearPath(path)
    ensures At(Sanitize(j), path) in {None, Some(Str("[REDACTED]"))}
    decreases |path|
  {
    if ClearStep(path[0]) {
      assert !ClearPath(path[1..]);
      match path[0]
      case Key(name) =>
        if j.Obj? && name in j.fields {
          SensitivePathsShowOnlyTheMarker(j.fields[name], path[1..]);
        }
      case Index(i) =>
        if j.Arr? && i < |j.items| {
          SensitivePathsShowOnlyTheMarker(j.items[i], path[1..]);
        }
    }
  }

  /** At each node kept: array lengths, and the keys but for the one that is lost. */
  lemma ShapeIsKept(j: Json)
    ensures j.Arr? ==> Sanitize(j).Arr? && |Sanitize(j).items| == |j.items|
    ensures j.Obj? ==> Sanitize(j).Obj? && Sanitize(j).fields.Keys == j.fields.Keys - {"__proto__"}
    ensures j.Obj? ==> (Sanitize(j).fields.Keys == j.fields.Keys <==> "__proto__" !in j.fields)
    ensures !j.Arr? && !j.Obj? ==> Sanitize(j) == j
  {
  }

  /** A body whose own key the copy loses. */
  lemma ProtoKeyIsLost()
    ensures Sanitize(Obj(map["__proto__" := Num(1.0)])) == Obj(map[])
  {
  }

  /** Sanitising a sanitised body changes nothing. */
  lemma {:induction false} SanitizeIsIdempotent(j: Json)
    ensures Sanitize(Sanitize(j)) == Sanitize(j)
  {
    match j
    case Arr(items) =>
      forall i | 0 <= i < |items| ensures Sanitize(Sanitize(items[i])) == Sanitize(items[i]) {
        SanitizeIsIdempotent(items[i]);
      }
    case Obj(fields) =>
      forall k | k in fields ensures Sanitize(Sanitize(fields[k])) == Sanitize(fields[k]) {
        SanitizeIsIdempotent(fields[k]);
      }
      assert Sanitize(Sanitize(j)).fields == Sanitize(j).fields;
    case _ =>
  }

  // ----- exactly what the log reveals

  /** What one node shows by itself: a leaf its value, an array its length, an object its keys. */
  datatype View = Leaf(v: Json) | Length(n: nat) | Names(keys: set<string>) | Absent

  function Look(j: Option<Json>): View {
    match j
    case None => Absent
    case Some(Arr(items)) => Length(|items|)
    case Some(Obj(fields)) => Names(fields.Keys - {PROTO})
    case Some(v) => Leaf(v)
  }

  /** Two bodies look the same at every place no sensitive key leads to. */
  ghost predicate SameOffSecrets(a: Json, b: Json) {
    forall path :: ClearPath(path) ==> Look(At(a, path)) == Look(At(b, path))
  }

  lemma SameBelow(a: Json, b: Json, s: Step)
    requires SameOffSecrets(a, b) && ClearStep(s) && At(a, [s]).Some? && At(b, [s]).Some?
    ensures SameOffSecrets(At(a, [s]).value, At(b, [s]).value)
  {
    var (x, y) := (At(a, [s]).value, At(b, [s]).value);
    forall path | ClearPath(path) ensures Look(At(x, path)) == Look(At(y, path)) {
      assert ([s] + path)[1..] == path && [s][1..] == [];
      assert At(a, [s] + path) == At(x, path) && At(b, [s] + path) == At(y, path);
      assert ClearPath([s] + path);
    }
  }

  lemma {:induction false} SameOffSecretsSanitizeAlike(a: Json, b: Json)
    requires SameOffSecrets(a, b)
    ensures Sanitize(a) == Sanitize(b)
    decreases a
  {
    assert ClearPath([]) && Look(At(a, [])) == Look(At(b, []));
    match a
    case Arr(items) =>
      forall i: nat | i < |items| ensures Sanitize(items[i]) == Sanitize(b.items[i]) {
        assert [Index(i)][1..] == [];
        SameBelow(a, b, Index(i));
        SameOffSecretsSanitizeAlike(items[i], b.items[i]);
      }
    case Obj(fields) =>
      forall k | k in fields && k != PROTO && !Sensitive(k)
        ensures k in b.fields && Sanitize(fields[k]) == Sanitize(b.fields[k])
      {
        assert k in fields.Keys - {PROTO};
        assert [Key(k)][1..] == [];
        SameBelow(a, b, Key(k));
        SameOffSecretsSanitizeAlike(fields[k], b.fields[k]);
      }
      ShapeIsKept(a);
      ShapeIsKept(b);
      assert Sanitize(a).fields == Sanitize(b).fields;
    case _ =>
  }

  lemma LookThroughSanitize(j: Option<Json>)
    ensures Look(match j { case None => None case Some(v) => Some(Sanitize(v)) }) == Look(j)
  {
  }

  /**
   Non-interference, both ways: two bodies are logged alike exactly when they
   differ only where a sensitive key leads.
   */
  lemma LoggedAlikeIffSameOffSecrets(a: Json, b: Json)
    ensures Sanitize(a) == Sanitize(b) <==> SameOffSecrets(a, b)
  {
    if Sanitize(a) == Sanitize(b) {
      forall path | ClearPath(path) ensures Look(At(a, path)) == Look(At(b, path)) {
        ClearPathsArePreserved(a, path);
        ClearPathsArePreserved(b, path);
        LookThroughSanitize(At(a, path));
        LookThroughSanitize(At(b, path));
      }
    }
    if SameOffSecrets(a, b) {
      SameOffSecretsSanitizeAlike(a, b);
    }
  }
}
