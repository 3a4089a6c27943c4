/** When an entity hits a ground truth item, and when it must not, in terms of the strings themselves. */
module ScorerMeaning {
  import opened Outcomes
  import opened Text
  import opened Scorer

  /** The lowered name ends in `.` and this. */
  ghost predicate EndsInName(lowered: string, name: string) {
    exists front :: lowered == front + "." + name
  }

  /** Or goes on behind it with another dot. */
  ghost predicate HasName(lowered: string, name: string) {
    EndsInName(lowered, name) || exists front, back :: lowered == front + "." + name + "." + back
  }

  lemma {:induction false} EndsInExactly(s: string, name: string)
    ensures EndsWith(s, "." + name) <==> EndsInName(s, name)
  {
    EndsWithMeans(s, "." + name);
    if a :| Around(s, a, "." + name, "") {
      assert s == a + "." + name;
    }
    if front :| s == front + "." + name {
      assert Around(s, front, "." + name, "");
    }
  }

  lemma {:induction false} DotsApart(a: string, name: string, b: string)
    ensures a + ("." + name + ".") + b == a + "." + name + "." + b
  {
  }

  lemma {:induction false} HasExactly(s: string, name: string)
    ensures EndsWith(s, "." + name) || Contains(s, "." + name + ".") <==> HasName(s, name)
  {
    EndsInExactly(s, name);
    ContainsMeans(s, "." + name + ".");
    if a, b :| Around(s, a, "." + name + ".", b) {
      DotsApart(a, name, b);
    }
    if a, b :| s == a + "." + name + "." + b {
      DotsApart(a, name, b);
      assert Around(s, a, "." + name + ".", b);
    }
  }

  /** An item `file:fn` is hit at its file, and at its class then too, by every entity in that file; and at its
      function by those among them whose lowered name ends in `.fn`. */
  lemma {:induction false} FunctionItemExactly(file: string, fn: string, e: Entity, lower: string -> string)
    requires ':' !in file && '.' !in fn
    ensures var hits, here := PairHits(file + ":" + fn, e, lower), e.filePath == NormalizePath(file);
      && (hits.file <==> here) && (hits.cls <==> here)
      && (hits.func <==> here && EndsInName(lower(e.qualifiedName), lower(fn)))
  {
    ParsedItem(file, fn);
    assert Split(fn, '.') == [fn];
    EndsInExactly(lower(e.qualifiedName), lower(fn));
  }

  /** An item `file:cls.fn` is hit by an entity in the file: at its class when the lowered name has `.cls` at its
      end or before a dot, and at its function when it ends in `.cls.fn`. */
  lemma {:induction false} MethodItemExactly(file: string, cls: string, fn: string, e: Entity, lower: string -> string)
    requires ':' !in file && '.' !in cls
    ensures var hits, here := PairHits(file + ":" + (cls + "." + fn), e, lower), e.filePath == NormalizePath(file);
      var lowered := lower(e.qualifiedName);
      && (hits.file <==> here)
      && (hits.cls <==> here && HasName(lowered, lower(cls)))
      && (hits.func <==> here && EndsInName(lowered, lower(cls) + "." + lower(fn)))
  {
    ParsedMethod(file, cls, fn);
    HasExactly(lower(e.qualifiedName), lower(cls));
    EndsInExactly(lower(e.qualifiedName), lower(cls) + "." + lower(fn));
    DottedPair(lower(cls), lower(fn));
  }

  lemma {:induction false} DottedPair(a: string, b: string)
    ensures "." + (a + "." + b) == "." + a + ("." + b)
  {
  }

  lemma {:induction false} ParsedMethod(file: string, cls: string, fn: string)
    requires ':' !in file && '.' !in cls
    ensures ParseTarget(file + ":" + (cls + "." + fn)) == Some(Target(NormalizePath(file), Some(cls), fn))
  {
    var name := cls + "." + fn;
    ParsedItem(file, name);
    assert name == cls + ['.'] + fn;
    SplitAppend(cls, '.', fn);
    assert Split(name, '.')[1..] == Split(fn, '.');
    JoinSplit(fn, '.');
  }

  /** An item without a colon is hit by nothing. */
  lemma {:induction false} MalformedItem(gt: string, e: Entity, lower: string -> string)
    requires ':' !in gt
    ensures PairHits(gt, e, lower) == Hits(false, false, false)
  {
  }

  // ----- entities -----

  /** The path with forward slashes, and none at the ends. */
  ghost predicate PathOf(raw: string, path: string) {
    exists slashed :: Slashed(raw, slashed) && Trimmed(slashed, path, c => c == '/')
  }

  ghost predicate Slashed(raw: string, s: string) {
    |s| == |raw| && forall i | 0 <= i < |s| :: s[i] == if raw[i] == '\\' then '/' else raw[i]
  }

  /** What one cut takes off the ends, no other cut leaves. */
  lemma {:induction false} CutsNoLess(s: string, a: string, q: string, b: string, c: string, r: string, d: string,
          p: char -> bool)
    requires Around(s, a, q, b) && Only(a, p) && Only(b, p)
    requires Around(s, c, r, d) && (r != "" ==> !p(r[0]) && !p(r[|r| - 1]))
    ensures r != "" ==> |a| <= |c| && |b| <= |d|
  {
    assert forall i | 0 <= i < |a| :: s[i] == a[i] && p(s[i]);
    assert forall i | 0 <= i < |b| :: s[|s| - |b| + i] == b[i];
    assert forall i | |s| - |b| <= i < |s| :: s[i] == b[i - (|s| - |b|)] && p(s[i]);
    assert r != "" ==> s[|c|] == r[0] && s[|s| - |d| - 1] == r[|r| - 1];
  }

  /** What is left of a string without what goes from its ends is one and the same. */
  lemma {:induction false} TrimmedOnce(s: string, q: string, r: string, p: char -> bool)
    requires Trimmed(s, q, p) && Trimmed(s, r, p)
    ensures q == r
  {
    var a, b :| Around(s, a, q, b) && Only(a, p) && Only(b, p);
    var c, d :| Around(s, c, r, d) && Only(c, p) && Only(d, p);
    CutsNoLess(s, a, q, b, c, r, d, p);
    CutsNoLess(s, c, r, d, a, q, b, p);
    assert q == s[|a|..|s| - |b|] && r == s[|c|..|s| - |d|];
  }

  lemma {:induction false} PathExactly(raw: string, path: string)
    ensures NormalizePath(raw) == path <==> PathOf(raw, path)
  {
    var s := ReplaceChar(raw, '\\', '/');
    assert Slashed(raw, s);
    StripBothExactly(s, '/');
    if slashed :| Slashed(raw, slashed) && Trimmed(slashed, path, c => c == '/') {
      assert slashed == s;
      TrimmedOnce(s, path, StripBoth(s, '/'), c => c == '/');
    }
  }

  /** The entity as it is compared: its name without white space at the ends, and its path. */
  ghost predicate Cleaned(raw: Entity, e: Entity) {
    Trimmed(raw.qualifiedName, e.qualifiedName, IsSpace) && PathOf(raw.filePath, e.filePath)
  }

  lemma {:induction false} CleanedIsNormalized(raw: Entity, e: Entity)
    ensures Cleaned(raw, e) <==> Normalize(raw) == e
  {
    PathExactly(raw.filePath, e.filePath);
    StripSpaceExactly(raw.qualifiedName);
    if Cleaned(raw, e) {
      TrimmedOnce(raw.qualifiedName, e.qualifiedName, StripSpace(raw.qualifiedName), IsSpace);
    }
  }

  ghost predicate SomeNormalizesTo(raw: seq<Entity>, e: Entity) {
    exists i :: 0 <= i < |raw| && Normalize(raw[i]) == e
  }

  lemma {:induction false} SomeSnoc(front: seq<Entity>, last: Entity, e: Entity)
    ensures SomeNormalizesTo(front + [last], e) <==> SomeNormalizesTo(front, e) || Normalize(last) == e
  {
    var raw := front + [last];
    assert raw[|front|] == last && forall i | 0 <= i < |front| :: raw[i] == front[i];
  }

  lemma {:induction false} NormalizedSnoc(front: seq<Entity>, last: Entity, e: Entity)
    ensures e in Normalized(front + [last]) <==>
              e in Normalized(front) || (Normalize(last) == e && e != Entity("", ""))
  {
    var raw := front + [last];
    assert raw[..|raw| - 1] == front && raw[|raw| - 1] == last;
  }

  lemma {:induction false} NormalizedMembers(raw: seq<Entity>, e: Entity)
    ensures e in Normalized(raw) <==> e != Entity("", "") && SomeNormalizesTo(raw, e)
  {
    if raw == [] {
    } else {
      var front, last := raw[..|raw| - 1], raw[|raw| - 1];
      NormalizedMembers(front, e);
      SomeSnoc(front, last, e);
      NormalizedSnoc(front, last, e);
      assert front + [last] == raw;
    }
  }

  /** Exactly the entities with a name or a path are compared. */
  lemma {:induction false} NormalizedExactly(raw: seq<Entity>, e: Entity)
    ensures e in Normalized(raw) <==>
              (e.qualifiedName != "" || e.filePath != "") && exists i :: 0 <= i < |raw| && Cleaned(raw[i], e)
  {
    NormalizedMembers(raw, e);
    forall r: Entity ensures Cleaned(r, e) <==> Normalize(r) == e {
      CleanedIsNormalized(r, e);
    }
  }
}
