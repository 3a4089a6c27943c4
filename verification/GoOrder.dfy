/** How the Go resolver's files, and with them its verdicts, depend on the order of the definitions. */
module GoOrder {
  import opened Outcomes
  import opened Text
  import opened CallEdges
  import opened GoResolver

  /** The file a definition makes known when its map entry is its own. */
  function Home(d: string, project: string): Option<string> {
    if InProject(d, project) && |Rest(d, project)| >= 2 then Some(Rest(d, project)[0]) else None
  }

  predicate Named(d: string) {
    BareName(d) != ""
  }

  /** The homes of the definitions that come first under their last segment. */
  function FilesOf(defs: seq<string>, project: string): set<string> {
    set i | 0 <= i < |defs| && Named(defs[i]) && IsFirst(defs, i) && Home(defs[i], project).Some? ::
      Home(defs[i], project).value
  }

  lemma {:induction false} FirstExists(defs: seq<string>, i: nat) returns (k: nat)
    requires i < |defs|
    ensures k <= i && IsFirst(defs, k) && BareName(defs[k]) == BareName(defs[i])
    decreases i
  {
    if IsFirst(defs, i) {
      k := i;
    } else {
      var j :| 0 <= j < i && BareName(defs[j]) == BareName(defs[i]);
      k := FirstExists(defs, j);
    }
  }

  lemma {:induction false} SegmentIsFile(m: map<string, string>, defs: seq<string>, project: string, n: string)
    requires MapsFirst(m, defs) && n in m && Home(m[n], project).Some?
    ensures Home(m[n], project).value in FilesOf(defs, project)
  {
    var i :| 0 <= i < |defs| && BareName(defs[i]) == n;
    var k := FirstExists(defs, i);
    assert m[n] == defs[k];
  }

  lemma {:induction false} FileIsSegment(m: map<string, string>, defs: seq<string>, project: string, i: nat)
    requires MapsFirst(m, defs) && i < |defs| && Named(defs[i]) && IsFirst(defs, i) && Home(defs[i], project).Some?
    ensures Home(defs[i], project).value in FileSegments(m, project)
  {
    assert m[BareName(defs[i])] == defs[i] && defs[i] in m.Values;
  }

  lemma {:induction false} SegmentHasName(m: map<string, string>, project: string, f: string) returns (n: string)
    requires f in FileSegments(m, project)
    ensures n in m && Home(m[n], project) == Some(f)
  {
    var qn :| qn in m.Values && InProject(qn, project) && |Rest(qn, project)| >= 2 && Rest(qn, project)[0] == f;
    n :| n in m && m[n] == qn;
  }

  /** These are the resolver's file segments. */
  lemma {:induction false} FilesAreSegments(m: map<string, string>, defs: seq<string>, project: string)
    requires MapsFirst(m, defs)
    ensures FileSegments(m, project) == FilesOf(defs, project)
  {
    forall f | f in FileSegments(m, project) ensures f in FilesOf(defs, project) {
      var n := SegmentHasName(m, project, f);
      SegmentIsFile(m, defs, project, n);
    }
    forall f | f in FilesOf(defs, project) ensures f in FileSegments(m, project) {
      var i :| 0 <= i < |defs| && Named(defs[i]) && IsFirst(defs, i) && Home(defs[i], project) == Some(f);
      FileIsSegment(m, defs, project, i);
    }
  }

  // ----- when the order does not matter -----

  /** All definitions with this one's last segment live in its file. */
  predicate Owns(defs: seq<string>, project: string, i: nat)
    requires i < |defs|
  {
    forall k | 0 <= k < |defs| && BareName(defs[k]) == BareName(defs[i]) ::
      Home(defs[k], project) == Home(defs[i], project)
  }

  predicate HasOwn(defs: seq<string>, project: string, file: string) {
    exists j :: 0 <= j < |defs| && Named(defs[j]) && Home(defs[j], project) == Some(file) && Owns(defs, project, j)
  }

  /** Every file with a named definition has a last segment to itself. */
  predicate EveryFileOwns(defs: seq<string>, project: string) {
    forall i | 0 <= i < |defs| && Named(defs[i]) && Home(defs[i], project).Some? ::
      HasOwn(defs, project, Home(defs[i], project).value)
  }

  predicate HasFile(defs: seq<string>, project: string, file: string) {
    exists i :: 0 <= i < |defs| && Named(defs[i]) && Home(defs[i], project) == Some(file)
  }

  lemma {:induction false} SameMembers(a: seq<string>, b: seq<string>)
    requires multiset(a) == multiset(b)
    ensures forall d :: d in a <==> d in b
  {
    forall d ensures d in a <==> d in b {
      assert d in a <==> d in multiset(a);
      assert d in b <==> d in multiset(b);
    }
  }

  lemma {:induction false} OwnIsOrderFree(a: seq<string>, b: seq<string>, project: string, file: string)
    requires multiset(a) == multiset(b)
    ensures HasOwn(a, project, file) ==> HasOwn(b, project, file)
    ensures HasFile(a, project, file) ==> HasFile(b, project, file)
  {
    SameMembers(a, b);
    if HasOwn(a, project, file) {
      var j :| 0 <= j < |a| && Named(a[j]) && Home(a[j], project) == Some(file) && Owns(a, project, j);
      assert a[j] in b;
      var i :| 0 <= i < |b| && b[i] == a[j];
      forall k | 0 <= k < |b| && BareName(b[k]) == BareName(b[i]) ensures Home(b[k], project) == Home(b[i], project) {
        assert b[k] in a;
        var h :| 0 <= h < |a| && a[h] == b[k];
      }
      assert Owns(b, project, i);
    }
    if HasFile(a, project, file) {
      var j :| 0 <= j < |a| && Named(a[j]) && Home(a[j], project) == Some(file);
      assert a[j] in b;
      var i :| 0 <= i < |b| && b[i] == a[j];
    }
  }

  /** A file with a last segment of its own is known in every order. */
  lemma {:induction false} OwnedIsKnown(defs: seq<string>, project: string, file: string)
    requires HasOwn(defs, project, file)
    ensures file in FilesOf(defs, project)
  {
    var j :| 0 <= j < |defs| && Named(defs[j]) && Home(defs[j], project) == Some(file) && Owns(defs, project, j);
    var k := FirstExists(defs, j);
    assert Home(defs[k], project) == Some(file);
  }

  function Where(defs: seq<string>, p: string -> bool): (r: seq<string>)
    ensures forall d :: d in r <==> d in defs && p(d)
  {
    if defs == [] then []
    else
      var front, d := Where(defs[..|defs| - 1], p), defs[|defs| - 1];
      assert defs == defs[..|defs| - 1] + [d];
      if p(d) then front + [d] else front
  }

  lemma {:induction false} WhereSplits(defs: seq<string>, p: string -> bool)
    ensures multiset(Where(defs, p) + Where(defs, d => !p(d))) == multiset(defs)
    ensures multiset(Where(defs, d => !p(d)) + Where(defs, p)) == multiset(defs)
  {
    if defs != [] {
      var front, d := defs[..|defs| - 1], defs[|defs| - 1];
      WhereSplits(front, p);
      assert defs == front + [d];
      assert multiset(defs) == multiset(front) + multiset{d};
    }
  }

  function Lives(project: string, file: string): string -> bool {
    d => Home(d, project) == Some(file)
  }

  /** The definitions of one file first, or last. */
  function FileFirst(defs: seq<string>, project: string, file: string): seq<string> {
    Where(defs, Lives(project, file)) + Where(defs, d => !Lives(project, file)(d))
  }

  function FileLast(defs: seq<string>, project: string, file: string): seq<string> {
    Where(defs, d => !Lives(project, file)(d)) + Where(defs, Lives(project, file))
  }

  lemma {:induction false} FileFirstIsKnown(defs: seq<string>, project: string, file: string)
    requires HasFile(defs, project, file)
    ensures file in FilesOf(FileFirst(defs, project, file), project)
  {
    var order, mine := FileFirst(defs, project, file), Where(defs, Lives(project, file));
    var i :| 0 <= i < |defs| && Named(defs[i]) && Home(defs[i], project) == Some(file);
    assert defs[i] in mine;
    var k :| 0 <= k < |mine| && mine[k] == defs[i];
    assert order[k] == mine[k];
    var first := FirstExists(order, k);
    assert order[first] == mine[first] && mine[first] in mine;
  }

  /** A definition elsewhere with the same last segment comes before the file's own. */
  lemma {:induction false} NotFirst(others: seq<string>, mine: seq<string>, project: string, file: string, i: nat,
          d: string)
    requires i < |others + mine| && Home((others + mine)[i], project) == Some(file)
    requires d in others && BareName(d) == BareName((others + mine)[i])
    requires forall x :: x in others ==> Home(x, project) != Some(file)
    ensures !IsFirst(others + mine, i)
  {
    var order := others + mine;
    assert forall k :: 0 <= k < |others| ==> order[k] == others[k] && others[k] in others;
    var h :| 0 <= h < |others| && others[h] == d;
    assert order[h] == d;
  }

  lemma {:induction false} SharedElsewhere(defs: seq<string>, project: string, file: string, d: string)
      returns (e: string)
    requires !HasOwn(defs, project, file) && d in defs && Named(d) && Home(d, project) == Some(file)
    ensures e in defs && BareName(e) == BareName(d) && Home(e, project) != Some(file)
  {
    var j :| 0 <= j < |defs| && defs[j] == d;
    assert !Owns(defs, project, j);
    var k :| 0 <= k < |defs| && BareName(defs[k]) == BareName(defs[j]) &&
      Home(defs[k], project) != Home(defs[j], project);
    e := defs[k];
  }

  lemma {:induction false} FileLastIsUnknown(defs: seq<string>, project: string, file: string)
    requires !HasOwn(defs, project, file)
    ensures file !in FilesOf(FileLast(defs, project, file), project)
  {
    var others, mine := Where(defs, d => !Lives(project, file)(d)), Where(defs, Lives(project, file));
    var order := others + mine;
    forall i | 0 <= i < |order| && Named(order[i]) && Home(order[i], project) == Some(file) ensures !IsFirst(order, i) {
      assert order[i] in order && order[i] in defs;
      var e := SharedElsewhere(defs, project, file, order[i]);
      NotFirst(others, mine, project, file, i, e);
    }
  }

  /**
   * The files known are the same for every order of the definitions exactly
   * when every file that holds a named definition has a last segment that no
   * definition elsewhere shares.
   */
  lemma {:induction false} FileSegmentsDependOnOrder(defs: seq<string>, project: string)
    ensures (forall order | multiset(order) == multiset(defs) :: FilesOf(order, project) == FilesOf(defs, project))
      <==> EveryFileOwns(defs, project)
  {
    if EveryFileOwns(defs, project) {
      forall order | multiset(order) == multiset(defs) ensures FilesOf(order, project) == FilesOf(defs, project) {
        SameFiles(order, defs, project);
      }
    } else {
      var i :| 0 <= i < |defs| && Named(defs[i]) && Home(defs[i], project).Some?
               && !HasOwn(defs, project, Home(defs[i], project).value);
      var file := Home(defs[i], project).value;
      WhereSplits(defs, Lives(project, file));
      FileFirstIsKnown(defs, project, file);
      FileLastIsUnknown(defs, project, file);
    }
  }

  lemma {:induction false} SameFiles(order: seq<string>, defs: seq<string>, project: string)
    requires multiset(order) == multiset(defs) && EveryFileOwns(defs, project)
    ensures FilesOf(order, project) == FilesOf(defs, project)
  {
    forall f ensures f in FilesOf(order, project) <==> f in FilesOf(defs, project) {
      if f in FilesOf(order, project) {
        assert HasFile(order, project, f);
        OwnIsOrderFree(order, defs, project, f);
        OwnedIsKnown(defs, project, f);
      }
      if f in FilesOf(defs, project) {
        assert HasFile(defs, project, f);
        OwnIsOrderFree(defs, order, project, f);
        OwnedIsKnown(order, project, f);
      }
    }
  }

  // ----- a call whose verdict flips -----

  function Qualified(project: string, file: string, name: string): string {
    project + ['.'] + (file + ['.'] + name)
  }

  predicate Simple(s: string) {
    s != "" && '.' !in s
  }

  /** A free function of this name in this file. */
  predicate IsFunction(d: string, project: string, file: string, name: string) {
    && Simple(name) && BareName(d) == name && Home(d, project) == Some(file)
    && SimpleName(project)(d) == Some(name) && TypeMethod(project)(d) == None
  }

  lemma {:induction false} QualifiedIsFunction(project: string, file: string, name: string)
    requires '.' !in project && Simple(file) && Simple(name)
    ensures IsFunction(Qualified(project, file, name), project, file, name)
  {
    var qn := Qualified(project, file, name);
    SplitAppend(file, '.', name);
    SplitAppend(project, '.', file + ['.'] + name);
    assert qn[..|project| + 1] == project + ['.'];
    assert qn[|project| + 1..] == file + ['.'] + name;
  }

  /** Two files share a name; only the first one's file is known through it. */
  lemma {:induction false} OnlyFirstIsKnown(x: string, y: string, z: string, project: string,
          a: string, b: string, c: string, shared: string, sole: string)
    requires IsFunction(x, project, a, shared) && IsFunction(y, project, b, shared) && IsFunction(z, project, c, sole)
    requires a != b && c != b && shared != sole
    ensures a in FilesOf([x, y, z], project) && b !in FilesOf([x, y, z], project)
  {
    var defs := [x, y, z];
    assert defs[0] == x && defs[1] == y && defs[2] == z;
    assert IsFirst(defs, 0) && Home(defs[0], project).value == a;
    assert BareName(defs[0]) == BareName(defs[1]) && !IsFirst(defs, 1);
    assert forall i | 0 <= i < 3 :: i == 1 || Home(defs[i], project) != Some(b);
  }

  lemma {:induction false} SoleOfThree(x: string, y: string, z: string, f: Labelling, name: string, target: string)
    requires f(x) != Some(name) && f(y) != Some(name)
    ensures Sole([x, y, z], f, name, target) <==> f(z) == Some(name) && target == z
  {
    var defs := [x, y, z];
    assert defs[0] == x && defs[1] == y && defs[2] == z;
    if f(z) == Some(name) && target == z {
      assert SoleAt(defs, f, name, z, 2);
    }
  }

  lemma {:induction false} NoneOfThree(x: string, y: string, z: string, f: Labelling)
    requires f(x) == f(y) == f(z) == None
    ensures forall j | 0 <= j < 3 :: f([x, y, z][j]) == None
  {
    var defs := [x, y, z];
    assert defs[0] == x && defs[1] == y && defs[2] == z;
  }

  /** The call `file.sole` can only mean the third definition, and does exactly when the file is known. */
  lemma {:induction false} SoleAdmits(x: string, y: string, z: string, project: string, c: string, shared: string,
          sole: string, a: string, b: string, files: set<string>, file: string, e: RawEdge, target: string)
    requires IsFunction(x, project, a, shared) && IsFunction(y, project, b, shared) && IsFunction(z, project, c, sole)
    requires shared != sole && Split(e.to, '.') == [file, sole]
    ensures Admits([x, y, z], project, files, e, target) <==> file in files && target == z
  {
    SoleOfThree(x, y, z, TypeMethod(project), e.to, target);
    SoleOfThree(x, y, z, SimpleName(project), sole, target);
    NoneOfThree(x, y, z, TypeMethod(project));
  }

  /** The tables the resolver builds from the definitions. */
  ghost predicate TablesFor(t: Tables, defs: seq<string>, project: string) {
    && Indexes(t.bare, defs, SimpleName(project)) && Indexes(t.recv, defs, TypeMethod(project))
    && t.files == FilesOf(defs, project)
  }

  lemma {:induction false} KeptIffKnown(t: Tables, x: string, y: string, z: string, project: string,
          a: string, b: string, c: string, shared: string, sole: string, file: string, e: RawEdge)
    requires IsFunction(x, project, a, shared) && IsFunction(y, project, b, shared) && IsFunction(z, project, c, sole)
    requires shared != sole && e.kind.Calls? && Split(e.to, '.') == [file, sole]
    requires TablesFor(t, [x, y, z], project)
    ensures Judge(t, e).Keep? <==> file in FilesOf([x, y, z], project)
    ensures Judge(t, e).Keep? ==> Judge(t, e).edge == Resolved(e, z)
  {
    var target := if Judge(t, e).Keep? then Judge(t, e).edge.to else z;
    SoleAdmits(x, y, z, project, c, shared, sole, a, b, t.files, file, e, target);
    KeptExactly(t, [x, y, z], project, e, target);
    JudgeResolves(t, e);
  }

  lemma {:induction false} JudgeResolves(t: Tables, e: RawEdge)
    ensures Judge(t, e).Keep? ==> e.kind.Calls? && Judge(t, e).edge == Resolved(e, Judge(t, e).edge.to)
  {
  }

  /** A call through the first of the two files resolves, one through the second does not. */
  lemma {:induction false} FirstFileResolves(t: Tables, x: string, y: string, z: string, project: string,
          a: string, b: string, c: string, shared: string, sole: string, file: string, e: RawEdge)
    requires IsFunction(x, project, a, shared) && IsFunction(y, project, b, shared) && IsFunction(z, project, c, sole)
    requires a != b && c != b && shared != sole && (file == a || file == b)
    requires e.kind.Calls? && Split(e.to, '.') == [file, sole] && TablesFor(t, [x, y, z], project)
    ensures Judge(t, e).Keep? <==> file == a
    ensures Judge(t, e).Keep? ==> Judge(t, e).edge == Resolved(e, z)
  {
    OnlyFirstIsKnown(x, y, z, project, a, b, c, shared, sole);
    KeptIffKnown(t, x, y, z, project, a, b, c, shared, sole, file, e);
  }

  /** Which package-local calls resolve depends on the order: with `a.f`, `b.f` and `c.g`, the call `b.g`
      is kept as `c.g` when `b.f` comes before `a.f`, and dropped when it comes after. */
  lemma {:induction false} CallFlips(x: string, y: string, z: string, project: string, a: string, b: string, c: string,
          shared: string, sole: string, e: RawEdge, t: Tables, u: Tables)
    requires IsFunction(x, project, a, shared) && IsFunction(y, project, b, shared) && IsFunction(z, project, c, sole)
    requires a != b && c != a && c != b && shared != sole
    requires e.kind.Calls? && Split(e.to, '.') == [b, sole]
    requires TablesFor(t, [y, x, z], project) && TablesFor(u, [x, y, z], project)
    ensures Judge(t, e).Keep? && Judge(t, e).edge == Resolved(e, z)
    ensures !Judge(u, e).Keep?
  {
    FirstFileResolves(t, y, x, z, project, b, a, c, shared, sole, b, e);
    FirstFileResolves(u, x, y, z, project, a, b, c, shared, sole, b, e);
  }

  lemma {:induction false} CalleeParts(file: string, name: string)
    requires Simple(file) && Simple(name)
    ensures Split(file + ['.'] + name, '.') == [file, name]
  {
    SplitAppend(file, '.', name);
    assert Split(name, '.') == [name];
  }

  /** Such definitions exist for every project, three files and two names. */
  lemma {:induction false} CallFlipsAtNames(project: string, a: string, b: string, c: string, f: string, g: string,
          x: string, y: string, z: string, e: RawEdge, t: Tables, u: Tables)
    requires '.' !in project && Simple(a) && Simple(b) && Simple(c) && Simple(f) && Simple(g)
    requires a != b && c != a && c != b && f != g
    requires x == Qualified(project, a, f) && y == Qualified(project, b, f) && z == Qualified(project, c, g)
    requires e.kind.Calls? && e.to == b + ['.'] + g
    requires TablesFor(t, [y, x, z], project) && TablesFor(u, [x, y, z], project)
    ensures Judge(t, e).Keep? && Judge(t, e).edge == Resolved(e, z)
    ensures !Judge(u, e).Keep?
  {
    QualifiedIsFunction(project, a, f);
    QualifiedIsFunction(project, b, f);
    QualifiedIsFunction(project, c, g);
    CalleeParts(b, g);
    CallFlips(x, y, z, project, a, b, c, f, g, e, t, u);
  }
}
