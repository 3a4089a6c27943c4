/** The structured scorer of the multi-mode comparison; `lower` is the host's lowering and is left open. */
module Scorer {
  import opened Outcomes
  import opened Text

  /** An entity as reported; a missing field is the empty string. */
  datatype Entity = Entity(qualifiedName: string, filePath: string)

  /** One ground truth item: a file, possibly a class, and a function. */
  datatype Target = Target(file: string, cls: Option<string>, fn: string)

  datatype Hits = Hits(file: bool, cls: bool, func: bool)

  /** Forward slashes, none at the ends. */
  function NormalizePath(p: string): string {
    StripBoth(ReplaceChar(p, '\\', '/'), '/')
  }

  /** `file:Class.fn` or `file:fn`; an item without a colon names nothing. */
  function ParseTarget(gt: string): Option<Target> {
    if ':' !in gt then None
    else
      var i := IndexOf(gt, ':');
      var file, tail := NormalizePath(gt[..i]), gt[i + 1..];
      var comps := Split(tail, '.');
      if |comps| >= 2 then Some(Target(file, Some(comps[0]), Join(comps[1..], '.')))
      else Some(Target(file, None, tail))
  }

  function Normalize(e: Entity): Entity {
    Entity(StripSpace(e.qualifiedName), NormalizePath(e.filePath))
  }

  /** The normalised entities, without those that have neither a name nor a path. */
  function Normalized(entities: seq<Entity>): seq<Entity> {
    if entities == [] then []
    else
      var front, e := Normalized(entities[..|entities| - 1]), Normalize(entities[|entities| - 1]);
      if e == Entity("", "") then front else front + [e]
  }

  predicate FileMatch(t: Target, e: Entity) {
    e.filePath == t.file
  }

  predicate ClassMatch(t: Target, e: Entity, lower: string -> string) {
    && FileMatch(t, e)
    && (t.cls.Some? ==>
          var qn, cls := lower(e.qualifiedName), "." + lower(t.cls.value);
          EndsWith(qn, cls) || Contains(qn, cls + "."))
  }

  predicate FuncMatch(t: Target, e: Entity, lower: string -> string) {
    && FileMatch(t, e)
    && var tail := "." + lower(t.fn);
       EndsWith(lower(e.qualifiedName), if t.cls.Some? then "." + lower(t.cls.value) + tail else tail)
  }

  /** What one ground truth item and one normalised entity contribute. */
  function PairHits(gt: string, e: Entity, lower: string -> string): Hits {
    match ParseTarget(gt)
    case None => Hits(false, false, false)
    case Some(t) => Hits(FileMatch(t, e), ClassMatch(t, e, lower), FuncMatch(t, e, lower))
  }

  ghost predicate SomePair(p: (string, Entity) -> bool, gts: seq<string>, es: seq<Entity>) {
    exists i, j :: 0 <= i < |gts| && 0 <= j < |es| && p(gts[i], es[j])
  }

  lemma {:induction false} SomePairGrows(p: (string, Entity) -> bool, gts: seq<string>, gt: string, es: seq<Entity>)
    ensures SomePair(p, gts + [gt], es) <==> SomePair(p, gts, es) || SomePair(p, [gt], es)
  {
    if SomePair(p, gts, es) {
      var i, j :| 0 <= i < |gts| && 0 <= j < |es| && p(gts[i], es[j]);
      assert p((gts + [gt])[i], es[j]);
    }
    if SomePair(p, [gt], es) {
      var i, j :| 0 <= i < |[gt]| && 0 <= j < |es| && p([gt][i], es[j]);
      assert p((gts + [gt])[|gts|], es[j]);
    }
    if SomePair(p, gts + [gt], es) {
      var i, j :| 0 <= i < |gts + [gt]| && 0 <= j < |es| && p((gts + [gt])[i], es[j]);
      if i == |gts| {
        assert p([gt][0], es[j]);
      } else {
        assert p(gts[i], es[j]);
      }
    }
  }

  lemma {:induction false} SomeEntityGrows(p: (string, Entity) -> bool, gt: string, es: seq<Entity>, e: Entity)
    ensures SomePair(p, [gt], es + [e]) <==> SomePair(p, [gt], es) || p(gt, e)
  {
    if SomePair(p, [gt], es) {
      var i, j :| 0 <= i < |[gt]| && 0 <= j < |es| && p([gt][i], es[j]);
      assert p([gt][0], (es + [e])[j]);
    }
    if p(gt, e) {
      assert p([gt][0], (es + [e])[|es|]);
    }
  }

  function IsFileHit(lower: string -> string): (string, Entity) -> bool {
    (gt, e) => PairHits(gt, e, lower).file
  }

  function IsClassHit(lower: string -> string): (string, Entity) -> bool {
    (gt, e) => PairHits(gt, e, lower).cls
  }

  function IsFuncHit(lower: string -> string): (string, Entity) -> bool {
    (gt, e) => PairHits(gt, e, lower).func
  }

  /** The flags say whether some pair of a ground truth item and an entity hits. */
  ghost predicate Scored(hits: Hits, gts: seq<string>, es: seq<Entity>, lower: string -> string) {
    && (hits.file <==> SomePair(IsFileHit(lower), gts, es))
    && (hits.cls <==> SomePair(IsClassHit(lower), gts, es))
    && (hits.func <==> SomePair(IsFuncHit(lower), gts, es))
  }

  ghost predicate ScoredUpTo(hits: Hits, gts: seq<string>, gt: string, es: seq<Entity>, seen: seq<Entity>,
          lower: string -> string)
  {
    && (hits.file <==> SomePair(IsFileHit(lower), gts, es) || SomePair(IsFileHit(lower), [gt], seen))
    && (hits.cls <==> SomePair(IsClassHit(lower), gts, es) || SomePair(IsClassHit(lower), [gt], seen))
    && (hits.func <==> SomePair(IsFuncHit(lower), gts, es) || SomePair(IsFuncHit(lower), [gt], seen))
  }

  function Join2(a: Hits, b: Hits): Hits {
    Hits(a.file || b.file, a.cls || b.cls, a.func || b.func)
  }

  lemma {:induction false} OneMoreEntity(hits: Hits, gts: seq<string>, gt: string, es: seq<Entity>, seen: seq<Entity>,
          e: Entity, lower: string -> string)
    requires ScoredUpTo(hits, gts, gt, es, seen, lower)
    ensures ScoredUpTo(Join2(hits, PairHits(gt, e, lower)), gts, gt, es, seen + [e], lower)
  {
    SomeEntityGrows(IsFileHit(lower), gt, seen, e);
    SomeEntityGrows(IsClassHit(lower), gt, seen, e);
    SomeEntityGrows(IsFuncHit(lower), gt, seen, e);
  }

  lemma {:induction false} OneMoreItem(hits: Hits, gts: seq<string>, gt: string, es: seq<Entity>,
          lower: string -> string)
    requires ScoredUpTo(hits, gts, gt, es, es, lower)
    ensures Scored(hits, gts + [gt], es, lower)
  {
    SomePairGrows(IsFileHit(lower), gts, gt, es);
    SomePairGrows(IsClassHit(lower), gts, gt, es);
    SomePairGrows(IsFuncHit(lower), gts, gt, es);
  }

  method NormalizeEntities(entities: seq<Entity>) returns (norm: seq<Entity>)
    ensures norm == Normalized(entities)
  {
    norm := [];
    for i := 0 to |entities|
      invariant norm == Normalized(entities[..i])
    {
      var qn, fp := StripSpace(entities[i].qualifiedName), NormalizePath(entities[i].filePath);
      assert entities[..i + 1][..i] == entities[..i];
      if qn != "" || fp != "" {
        norm := norm + [Entity(qn, fp)];
      }
    }
    assert entities[..|entities|] == entities;
  }

  /** One pass of the inner loop: the flags this entity raises for this target. */
  method ScorePair(target: Target, e: Entity, before: Hits, lower: string -> string) returns (hits: Hits)
    ensures hits == Join2(before, Hits(FileMatch(target, e), ClassMatch(target, e, lower), FuncMatch(target, e, lower)))
  {
    hits := before;
    if e.filePath != target.file {
      return;
    }
    hits := hits.(file := true);
    var qn := lower(e.qualifiedName);
    if target.cls.Some? {
      var cls := "." + lower(target.cls.value);
      if EndsWith(qn, cls) || Contains(qn, cls + ".") {
        hits := hits.(cls := true);
      }
      if EndsWith(qn, cls + ("." + lower(target.fn))) {
        hits := hits.(func := true);
      }
    } else {
      hits := hits.(cls := true);
      if EndsWith(qn, "." + lower(target.fn)) {
        hits := hits.(func := true);
      }
    }
  }

  method ScoreItem(gt: string, es: seq<Entity>, before: Hits, lower: string -> string, ghost gts: seq<string>)
    returns (hits: Hits)
    requires Scored(before, gts, es, lower)
    ensures Scored(hits, gts + [gt], es, lower)
  {
    hits := before;
    if ':' !in gt {
      OneMoreItem(hits, gts, gt, es, lower);
      return;
    }
    var target := ParseTarget(gt).value;
    for j := 0 to |es|
      invariant ScoredUpTo(hits, gts, gt, es, es[..j], lower)
    {
      OneMoreEntity(hits, gts, gt, es, es[..j], es[j], lower);
      assert es[..j + 1] == es[..j] + [es[j]];
      hits := ScorePair(target, es[j], hits, lower);
    }
    assert es[..|es|] == es;
    OneMoreItem(hits, gts, gt, es, lower);
  }

  method ScoreEntities(entities: seq<Entity>, groundTruth: seq<string>, lower: string -> string) returns (hits: Hits)
    ensures Scored(hits, groundTruth, Normalized(entities), lower)
  {
    var es := NormalizeEntities(entities);
    hits := Hits(false, false, false);
    for i := 0 to |groundTruth|
      invariant Scored(hits, groundTruth[..i], es, lower)
    {
      assert groundTruth[..i + 1] == groundTruth[..i] + [groundTruth[i]];
      hits := ScoreItem(groundTruth[i], es, hits, lower, groundTruth[..i]);
    }
    assert groundTruth[..|groundTruth|] == groundTruth;
  }

  // ---- The hierarchy ----

  predicate Hierarchical(h: Hits) {
    (h.func ==> h.cls) && (h.cls ==> h.file)
  }

  /** A name that ends in `.Class.fn` contains `.Class.`. */
  lemma {:induction false} SuffixContains(s: string, cls: string, tail: string)
    requires EndsWith(s, cls + "." + tail)
    ensures Contains(s, cls + ".")
  {
    var whole, part := cls + "." + tail, cls + ".";
    var at := |s| - |whole|;
    assert whole[..|part|] == part;
    assert s[at..at + |part|] == s[at..][..|part|];
    assert OccursAt(s, part, at);
  }

  lemma {:induction false} PairIsHierarchical(gt: string, e: Entity, lower: string -> string)
    ensures Hierarchical(PairHits(gt, e, lower))
  {
    var t := ParseTarget(gt);
    if t.Some? && t.value.cls.Some? && FuncMatch(t.value, e, lower) {
      var cls := "." + lower(t.value.cls.value);
      assert cls + ("." + lower(t.value.fn)) == cls + "." + lower(t.value.fn);
      SuffixContains(lower(e.qualifiedName), cls, lower(t.value.fn));
    }
  }

  /** Whatever the entities, the ground truth and the host's lowering: a function hit is a class hit, and a
      class hit is a file hit. */
  lemma {:induction false} ScoreIsHierarchical(hits: Hits, gts: seq<string>, es: seq<Entity>, lower: string -> string)
    requires Scored(hits, gts, es, lower)
    ensures Hierarchical(hits)
  {
    forall gt, e ensures Hierarchical(PairHits(gt, e, lower)) {
      PairIsHierarchical(gt, e, lower);
    }
    if hits.func {
      var i, j :| 0 <= i < |gts| && 0 <= j < |es| && IsFuncHit(lower)(gts[i], es[j]);
      assert IsClassHit(lower)(gts[i], es[j]);
    }
    if hits.cls {
      var i, j :| 0 <= i < |gts| && 0 <= j < |es| && IsClassHit(lower)(gts[i], es[j]);
      assert IsFileHit(lower)(gts[i], es[j]);
    }
  }

  // ---- The right answer is recognised ----

  /** Lowering works on the two sides of this dot separately.  It does not where a letter's lowering depends
      on what stands behind the dot, as for a final sigma. */
  ghost predicate SplitsAtDot(lower: string -> string, a: string, b: string) {
    lower(a + "." + b) == lower(a) + ("." + lower(b))
  }

  lemma {:induction false} StripIsFixed(s: string, c: char)
    ensures StripBoth(StripBoth(s, c), c) == StripBoth(s, c)
  {
    var l := StripLeft(s, c);
    var r := StripRight(l, c);
    if r != [] {
      assert r[0] == l[0];
    }
  }

  lemma {:induction false} StripLeftKeeps(s: string, c: char, d: char)
    requires d !in s
    ensures d !in StripLeft(s, c)
  {
    if s != [] && s[0] == c {
      StripLeftKeeps(s[1..], c, d);
    }
  }

  lemma {:induction false} PathIsFixed(p: string)
    ensures NormalizePath(NormalizePath(p)) == NormalizePath(p)
  {
    var s := ReplaceChar(p, '\\', '/');
    StripLeftKeeps(s, '/', '\\');
    var r := StripBoth(s, '/');
    assert '\\' !in r;
    assert ReplaceChar(r, '\\', '/') == r;
    StripIsFixed(s, '/');
  }

  /** Lowering the item's dotted name works on its class and the rest separately, when it has a class. */
  ghost predicate SplitsAtClass(lower: string -> string, name: string) {
    var comps := Split(name, '.');
    |comps| >= 2 ==> SplitsAtDot(lower, comps[0], Join(comps[1..], '.'))
  }

  /** The parsed item's tail, lowered, is the lowered dotted name. */
  lemma {:induction false} TailIsName(name: string, lower: string -> string)
    requires SplitsAtClass(lower, name)
    ensures var comps := Split(name, '.');
            |comps| >= 2 ==> lower(name) == lower(comps[0]) + ("." + lower(Join(comps[1..], '.')))
  {
    var comps := Split(name, '.');
    if |comps| >= 2 {
      JoinSplit(name, '.');
      JoinCons(comps[0], comps[1..], '.');
      assert comps == [comps[0]] + comps[1..];
      assert name == comps[0] + "." + Join(comps[1..], '.');
    }
  }

  lemma {:induction false} ParsedItem(file: string, name: string)
    requires ':' !in file
    ensures var comps := Split(name, '.');
            ParseTarget(file + ":" + name) == Some(
              if |comps| >= 2 then Target(NormalizePath(file), Some(comps[0]), Join(comps[1..], '.'))
              else Target(NormalizePath(file), None, name))
  {
    var gt := file + ":" + name;
    IndexOfAppend(file, ':', name);
    assert gt[|file|] == ':';
    assert gt[..|file|] == file && gt[|file| + 1..] == name;
  }

  /** What a target asks a lowered name to end in, without the leading dot. */
  function Tail(t: Target, lower: string -> string): string {
    if t.cls.Some? then lower(t.cls.value) + ("." + lower(t.fn)) else lower(t.fn)
  }

  lemma {:induction false} TailMatches(t: Target, e: Entity, front: string, lower: string -> string)
    requires FileMatch(t, e) && lower(e.qualifiedName) == front + ("." + Tail(t, lower))
    ensures FuncMatch(t, e, lower)
  {
    if t.cls.Some? {
      assert "." + Tail(t, lower) == "." + lower(t.cls.value) + ("." + lower(t.fn));
    }
  }

  /** Every ground truth item is reachable: an entity in the named file whose qualified name is any project
      prefix followed by the item's dotted name hits the file, and the class when the item names none, for
      every lowering; and file, class and function when lowering works on both sides of the two dots apart. */
  lemma {:induction false} RightAnswerHits(file: string, name: string, prefix: string, path: string,
          lower: string -> string)
    requires ':' !in file && NormalizePath(path) == NormalizePath(file)
    requires StripSpace(prefix + "." + name) == prefix + "." + name
    ensures var hits := PairHits(file + ":" + name, Normalize(Entity(prefix + "." + name, path)), lower);
      && hits.file && ('.' !in name ==> hits.cls)
      && (SplitsAtDot(lower, prefix, name) && SplitsAtClass(lower, name) ==> hits == Hits(true, true, true))
  {
    var qn := prefix + "." + name;
    ParsedItem(file, name);
    var t := ParseTarget(file + ":" + name).value;
    if SplitsAtDot(lower, prefix, name) && SplitsAtClass(lower, name) {
      TailIsName(name, lower);
      TailMatches(t, Entity(qn, NormalizePath(path)), lower(prefix), lower);
      PairIsHierarchical(file + ":" + name, Entity(qn, NormalizePath(path)), lower);
    }
  }
}
