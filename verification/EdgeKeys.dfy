/** The naming conventions the accuracy report forgives: suffixes, type parameters and the `Impl` suffix. */
module EdgeKeys {
  import opened Outcomes
  import opened Text
  import opened EdgeMetrics

  const SUFFIX_SEGMENTS := 3

  /** The last three segments, or nothing for a shorter name. */
  function SuffixKey(qn: string): Option<string> {
    var parts := Split(qn, '.');
    if |parts| < SUFFIX_SEGMENTS then None else Some(Join(parts[|parts| - SUFFIX_SEGMENTS..], '.'))
  }

  /** `Foo<S>` becomes `Foo`; a segment that starts with the bracket is left alone. */
  function StripGenerics(part: string): (r: string)
    ensures forall c :: c in r ==> c in part
  {
    if '<' in part && IndexOf(part, '<') > 0 && EndsWith(part, ">") then part[..IndexOf(part, '<')] else part
  }

  function StripAll(parts: seq<string>): (r: seq<string>)
    ensures |r| == |parts| && forall i :: 0 <= i < |parts| ==> r[i] == StripGenerics(parts[i])
  {
    seq(|parts|, i requires 0 <= i < |parts| => StripGenerics(parts[i]))
  }

  function Generics(qn: string): string {
    Join(StripAll(Split(qn, '.')), '.')
  }

  method NormalizeGenerics(qn: string) returns (r: string)
    ensures r == Generics(qn)
  {
    var parts := Split(qn, '.');
    var outParts: seq<string> := [];
    for i := 0 to |parts|
      invariant outParts == StripAll(parts)[..i]
    {
      var part := parts[i];
      if '<' in part && IndexOf(part, '<') > 0 && EndsWith(part, ">") {
        outParts := outParts + [part[..IndexOf(part, '<')]];
      } else {
        outParts := outParts + [part];
      }
    }
    assert outParts == StripAll(parts);
    r := Join(outParts, '.');
  }

  predicate Strippable(part: string) {
    EndsWith(part, "Impl") && |part| > 4
  }

  /** Whether the last but one segment carries a removable `Impl`. */
  predicate HasImpl(parts: seq<string>) {
    |parts| >= 2 && Strippable(parts[|parts| - 2])
  }

  function DropImpl(parts: seq<string>): (r: seq<string>)
    ensures |r| == |parts|
  {
    if HasImpl(parts) then
      var p := parts[|parts| - 2];
      parts[|parts| - 2 := p[..|p| - 4]]
    else parts
  }

  /** `x.FooImpl.bar` becomes `x.Foo.bar`. */
  function Impl(qn: string): string {
    Join(DropImpl(Split(qn, '.')), '.')
  }

  function Canonical(qn: string): string {
    Generics(Impl(qn))
  }

  function OnBoth(rename: string -> string, k: Key): Option<Key> {
    Some(Key(rename(k.caller), rename(k.callee), k.kind))
  }

  function BySuffix(k: Key): Option<Key> {
    var f, t := SuffixKey(k.caller), SuffixKey(k.callee);
    if f.Some? && t.Some? then Some(Key(f.value, t.value, k.kind)) else None
  }

  function ByGenerics(k: Key): Option<Key> { OnBoth(Generics, k) }

  function ByImpl(k: Key): Option<Key> { OnBoth(Impl, k) }

  function ByCanonical(k: Key): Option<Key> { OnBoth(Canonical, k) }

  predicate NoMoreErrors<K, L>(before: Comparison<K>, after: Comparison<L>) {
    |after.fp| <= |before.fp| && |after.fn| <= |before.fn|
  }

  /** The four forgiving metrics never report more false positives or false negatives than the comparison
      they relax: the suffix metric the exact one, the others the scope-aligned one. */
  lemma {:induction false} ForgivingMetricsAddNoErrors(oracle: seq<Edge>, measured: seq<Edge>, isTest: string -> bool)
    ensures NoMoreErrors(Exact(oracle, measured), CompareMapped(BySuffix, Keys(oracle), Keys(measured)))
    ensures var o, m := InScope(Keys(oracle), Callers(oracle)), MeasuredScoped(oracle, measured, isTest);
            && NoMoreErrors(ScopeAligned(oracle, measured, isTest), CompareMapped(ByGenerics, o, m))
            && NoMoreErrors(ScopeAligned(oracle, measured, isTest), CompareMapped(ByImpl, o, m))
            && NoMoreErrors(ScopeAligned(oracle, measured, isTest), CompareMapped(ByCanonical, o, m))
  {
    var o, m := InScope(Keys(oracle), Callers(oracle)), MeasuredScoped(oracle, measured, isTest);
    KeyMapsNeverAddErrors(BySuffix, Keys(oracle), Keys(measured));
    KeyMapsNeverAddErrors(ByGenerics, o, m);
    KeyMapsNeverAddErrors(ByImpl, o, m);
    KeyMapsNeverAddErrors(ByCanonical, o, m);
  }

  // ---- Idempotence ----

  lemma {:induction false} StrippedIsPlain(part: string)
    ensures StripGenerics(StripGenerics(part)) == StripGenerics(part)
  {
  }

  lemma {:induction false} GenericsSegments(qn: string)
    ensures Split(Generics(qn), '.') == StripAll(Split(qn, '.'))
  {
    var parts := StripAll(Split(qn, '.'));
    SplitJoin(parts, '.');
  }

  lemma {:induction false} GenericsIsIdempotent(qn: string)
    ensures Generics(Generics(qn)) == Generics(qn)
  {
    var parts := Split(qn, '.');
    GenericsSegments(qn);
    forall i | 0 <= i < |parts| ensures StripAll(StripAll(parts))[i] == StripAll(parts)[i] {
      StrippedIsPlain(parts[i]);
    }
    assert StripAll(StripAll(parts)) == StripAll(parts);
  }

  lemma {:induction false} ImplSegments(qn: string)
    ensures Split(Impl(qn), '.') == DropImpl(Split(qn, '.'))
  {
    SplitJoin(DropImpl(Split(qn, '.')), '.');
  }

  /** `Impl` changes a name exactly when its last but one segment carries a removable suffix. */
  lemma {:induction false} ImplFixes(qn: string)
    ensures Impl(qn) == qn <==> !HasImpl(Split(qn, '.'))
  {
    var parts := Split(qn, '.');
    JoinSplit(qn, '.');
    ImplSegments(qn);
    if HasImpl(parts) {
      assert DropImpl(parts)[|parts| - 2] != parts[|parts| - 2];
    }
  }

  /** A doubled suffix with something in front of it. */
  predicate DoubleImpl(p: string) {
    EndsWith(p, "ImplImpl") && |p| > 8
  }

  /** `FooImpl<...>`: a removable suffix right in front of the first bracket, and a closing bracket at the end. */
  predicate BracketedImpl(p: string) {
    '<' in p && EndsWith(p, ">") && IndexOf(p, '<') > 4 && EndsWith(p[..IndexOf(p, '<')], "Impl")
  }

  /** The segments one canonical round leaves with a removable suffix: `FooImplImpl`, `FooImpl<...>` and
      `FooImpl<...>Impl`. */
  predicate TwiceImpl(p: string) {
    DoubleImpl(p) || BracketedImpl(p) || (EndsWith(p, ">Impl") && BracketedImpl(p[..|p| - 4]))
  }

  /** The last but one segment, where there is one, is of this kind. */
  predicate Owner(qn: string, kind: string -> bool) {
    var parts := Split(qn, '.');
    |parts| >= 2 && kind(parts[|parts| - 2])
  }

  function WithoutImpl(p: string): string {
    if Strippable(p) then p[..|p| - 4] else p
  }

  lemma {:induction false} DropsInPlace(parts: seq<string>)
    requires |parts| >= 2
    ensures DropImpl(parts) == parts[|parts| - 2 := WithoutImpl(parts[|parts| - 2])]
  {
  }

  lemma {:induction false} SuffixCut(p: string, a: string, b: string)
    requires EndsWith(p, a + b)
    ensures EndsWith(p, b) && EndsWith(p[..|p| - |b|], a)
  {
    var n := |p| - |a + b|;
    assert p[n..] == a + b;
    assert p[|p| - |b|..] == p[n..][|a|..];
    assert p[..|p| - |b|][n..] == p[n..][..|a|];
  }

  lemma {:induction false} SuffixJoin(q: string, a: string, b: string)
    requires EndsWith(q, a)
    ensures EndsWith(q + b, a + b)
  {
    var n := |q| - |a|;
    assert (q + b)[n..] == q[n..] + b;
  }

  lemma {:induction false} SuffixOfSuffix(p: string, a: string, b: string)
    ensures EndsWith(p, a + b) <==> EndsWith(p, b) && EndsWith(p[..|p| - |b|], a)
  {
    if EndsWith(p, a + b) {
      SuffixCut(p, a, b);
    }
    if EndsWith(p, b) && EndsWith(p[..|p| - |b|], a) {
      assert p == p[..|p| - |b|] + b;
      SuffixJoin(p[..|p| - |b|], a, b);
    }
  }

  /** A second round of suffix stripping finds something exactly in a doubled suffix. */
  lemma {:induction false} ImplAgain(p: string)
    ensures Strippable(WithoutImpl(p)) <==> DoubleImpl(p)
  {
    SuffixOfSuffix(p, "Impl", "Impl");
    assert "Impl" + "Impl" == "ImplImpl";
  }

  lemma {:induction false} EndsInOne(p: string)
    ensures EndsWith(p, ">") <==> p != "" && p[|p| - 1] == '>'
    ensures EndsWith(p, "Impl") ==> p[|p| - 1] == 'l'
  {
    if EndsWith(p, "Impl") {
      assert p[|p| - 1] == p[|p| - 4..][3];
    }
    if EndsWith(p, ">") {
      assert p[|p| - 1] == p[|p| - 1..][0];
    }
  }

  /** Brackets hide a removable suffix exactly in `FooImpl<...>`. */
  lemma {:induction false} BehindBrackets(q: string)
    ensures Strippable(StripGenerics(q)) <==> Strippable(q) || BracketedImpl(q)
  {
    EndsInOne(q);
  }

  lemma {:induction false} CanonicalAgain(p: string)
    ensures Strippable(StripGenerics(WithoutImpl(p))) <==> TwiceImpl(p)
  {
    BehindBrackets(WithoutImpl(p));
    ImplAgain(p);
    SuffixOfSuffix(p, ">", "Impl");
    assert ">" + "Impl" == ">Impl";
    EndsInOne(p);
  }

  /** One round of `Impl` is enough unless the owner's name ends in a doubled suffix. */
  lemma {:induction false} ImplIsIdempotentExactly(qn: string)
    ensures Impl(Impl(qn)) == Impl(qn) <==> !Owner(qn, DoubleImpl)
  {
    var parts := Split(qn, '.');
    ImplSegments(qn);
    ImplFixes(Impl(qn));
    if |parts| >= 2 {
      DropsInPlace(parts);
      ImplAgain(parts[|parts| - 2]);
    }
  }

  /** A further round changes a name exactly when its owner still carries a removable suffix. */
  lemma {:induction false} CanonicalFixes(once: string)
    requires Generics(once) == once
    ensures Canonical(once) == once <==> !HasImpl(Split(once, '.'))
  {
    var parts := Split(once, '.');
    ImplFixes(once);
    if HasImpl(parts) {
      ImplSegments(once);
      GenericsSegments(Impl(once));
      var k := |parts| - 2;
      assert |StripAll(DropImpl(parts))[k]| <= |DropImpl(parts)[k]| < |parts[k]|;
    }
  }

  /** One canonical round is enough exactly when the owner is none of `FooImplImpl`, `FooImpl<...>` and
      `FooImpl<...>Impl`. */
  lemma {:induction false} CanonicalIsIdempotentExactly(qn: string)
    ensures Canonical(Canonical(qn)) == Canonical(qn) <==> !Owner(qn, TwiceImpl)
  {
    var parts := Split(qn, '.');
    ImplSegments(qn);
    GenericsSegments(Impl(qn));
    GenericsIsIdempotent(Impl(qn));
    CanonicalFixes(Canonical(qn));
    if |parts| >= 2 {
      DropsInPlace(parts);
      CanonicalAgain(parts[|parts| - 2]);
    }
  }

  lemma {:induction false} TwoSegments(a: string, b: string)
    requires '.' !in a && '.' !in b
    ensures Split(a + "." + b, '.') == [a, b]
    ensures Join([a, b], '.') == a + "." + b
  {
    SplitAppend(a, '.', b);
    assert [a, b][1..] == [b];
  }

  lemma {:induction false} PlainSegment(part: string)
    requires '<' !in part
    ensures StripGenerics(part) == part
  {
  }

  lemma {:induction false} BracketedSegment(name: string, args: string)
    requires name != "" && '<' !in name
    ensures StripGenerics(name + "<" + args + ">") == name
  {
    var part := name + "<" + args + ">";
    assert part == name + ['<'] + (args + ">");
    IndexOfAppend(name, '<', args + ">");
    assert part[|part| - 1..] == ">";
    assert part[..|name|] == name;
  }

  /** A removable suffix in front of a member is removed; anything else stays. */
  lemma {:induction false} ImplOf(t: string, m: string)
    requires t != "" && '.' !in t && '.' !in m
    ensures Impl(t + "Impl" + "." + m) == t + "." + m
    ensures !Strippable(t) ==> Impl(t + "." + m) == t + "." + m
  {
    var name := t + "Impl";
    TwoSegments(name, m);
    TwoSegments(t, m);
    assert name[|t|..] == "Impl" && name[..|t|] == t;
    assert DropImpl([name, m]) == [t, m];
  }

  lemma {:induction false} GenericsOf(a: string, b: string)
    requires '.' !in a && '.' !in b
    ensures Generics(a + "." + b) == Join([StripGenerics(a), StripGenerics(b)], '.')
  {
    TwoSegments(a, b);
    assert StripAll([a, b]) == [StripGenerics(a), StripGenerics(b)];
  }

  /** A bracketed `Impl` type takes two rounds: the first only removes the bracket. */
  lemma {:induction false} CanonicalNeedsTwoRounds(t: string, args: string, m: string)
    requires t != "" && '.' !in t && '<' !in t && '.' !in args && '.' !in m && '<' !in m
    ensures Canonical(t + "Impl" + "<" + args + ">" + "." + m) == t + "Impl" + "." + m
    ensures Canonical(t + "Impl" + "." + m) == t + "." + m
  {
    var name := t + "Impl";
    var wide := name + "<" + args + ">";
    BracketedSegment(name, args);
    PlainSegment(m);
    PlainSegment(t);
    assert wide[|wide| - 1] == '>' && !Strippable(wide);
    ImplOf(wide, m);
    ImplOf(t, m);
    GenericsOf(wide, m);
    GenericsOf(t, m);
    TwoSegments(name, m);
    TwoSegments(t, m);
  }

  /** Where one side names the type and the other its implementation, the `Impl` key merges two edges; with
      both confirmed and a third edge wrong, the relaxed metric scores below the one it relaxes. */
  lemma {:induction false} ForgivingCanLowerScores(t: string, m: string, callee: string, other: Key)
    requires t != "" && !Strippable(t) && '.' !in t && '.' !in m
    requires ByImpl(other) != ByImpl(Key(t + "." + m, callee, other.kind))
    ensures var plain, concrete :=
              Key(t + "." + m, callee, other.kind), Key(t + "Impl" + "." + m, callee, other.kind);
            var before := ScoreOf(Compare({plain, concrete}, {plain, concrete, other}));
            var after := Relaxed(ByImpl, {plain, concrete}, {plain, concrete, other});
            after.precision < before.precision && after.f1 < before.f1
  {
    ImplOf(t, m);
    var plain, concrete := Key(t + "." + m, callee, other.kind), Key(t + "Impl" + "." + m, callee, other.kind);
    assert |plain.caller| < |concrete.caller|;
    MergingLowersScores(ByImpl, plain, concrete, other);
  }
}
