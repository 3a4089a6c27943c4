/** For which definitions the Go resolver's verdicts do not depend on their order. */
module GoVerdicts {
  import opened Outcomes
  import opened Text
  import opened CallEdges
  import opened GoResolver
  import opened GoOrder

  // ----- what no order changes -----

  lemma {:induction false} CountLabelled(defs: seq<string>, f: Labelling, name: string, d: string)
    ensures multiset(Labelled(defs, f, name))[d] == if f(d) == Some(name) then multiset(defs)[d] else 0
  {
    if defs == [] {
    } else {
      var front, last := defs[..|defs| - 1], defs[|defs| - 1];
      CountLabelled(front, f, name, d);
      assert defs == front + [last];
    }
  }

  lemma {:induction false} SameSize(x: seq<string>, y: seq<string>)
    requires multiset(x) == multiset(y)
    ensures |x| == |y| && (|x| == 1 ==> x == y)
  {
    assert |multiset(x)| == |x| && |multiset(y)| == |y|;
    if |x| == 1 {
      assert x[0] in multiset(x);
      assert x[0] in multiset(y);
    }
  }

  /** Candidate lists only change their order. */
  lemma {:induction false} LabelledAlike(a: seq<string>, b: seq<string>, f: Labelling, name: string)
    requires multiset(a) == multiset(b)
    ensures |Labelled(a, f, name)| == |Labelled(b, f, name)|
    ensures |Labelled(a, f, name)| == 1 ==> Labelled(a, f, name) == Labelled(b, f, name)
  {
    var x, y := Labelled(a, f, name), Labelled(b, f, name);
    forall d ensures multiset(x)[d] == multiset(y)[d] {
      CountLabelled(a, f, name, d);
      CountLabelled(b, f, name, d);
    }
    SameSize(x, y);
  }

  // ----- calls through a file -----

  /** The call is through this file to a name that one definition bears and no `receiver.method` matches. */
  ghost predicate Through(defs: seq<string>, project: string, e: RawEdge, file: string) {
    && e.kind.Calls? && |Split(e.to, '.')| == 2 && Split(e.to, '.')[0] == file
    && Labelled(defs, TypeMethod(project), e.to) == []
    && |Labelled(defs, SimpleName(project), Split(e.to, '.')[1])| == 1
  }

  /** What looking up a name tells the resolver: none, this one, or several. */
  predicate Alike(x: seq<string>, y: seq<string>) {
    |x| == |y| && (|x| == 1 ==> x == y)
  }

  /** The same in terms of the tables. */
  predicate AsksFiles(t: Tables, e: RawEdge) {
    var segs := Split(e.to, '.');
    e.kind.Calls? && |segs| == 2 && Candidates(t.recv, e.to) == [] && |Candidates(t.bare, segs[1])| == 1
  }

  lemma {:induction false} TablesAlike(t: Tables, u: Tables, e: RawEdge)
    requires forall name :: Alike(Candidates(t.bare, name), Candidates(u.bare, name))
    requires forall name :: Alike(Candidates(t.recv, name), Candidates(u.recv, name))
    ensures Judge(t, e) == Judge(u, e) <==>
              (AsksFiles(u, e) ==> (Split(e.to, '.')[0] in t.files <==> Split(e.to, '.')[0] in u.files))
  {
    var segs := Split(e.to, '.');
    assert Alike(Candidates(t.bare, e.to), Candidates(u.bare, e.to));
    assert Alike(Candidates(t.recv, e.to), Candidates(u.recv, e.to));
    if |segs| == 2 {
      assert Alike(Candidates(t.bare, segs[1]), Candidates(u.bare, segs[1]));
    }
  }

  /** In two orders a call fares alike unless it goes through a file that only one of them knows. */
  lemma {:induction false} JudgedAlike(t: Tables, u: Tables, a: seq<string>, b: seq<string>, project: string,
          e: RawEdge)
    requires multiset(a) == multiset(b) && TablesFor(t, a, project) && TablesFor(u, b, project)
    ensures Judge(t, e) == Judge(u, e) <==>
              forall file | Through(b, project, e, file) :: file in FilesOf(a, project) <==> file in FilesOf(b, project)
  {
    forall name ensures Alike(Candidates(t.bare, name), Candidates(u.bare, name)) {
      LabelledAlike(a, b, SimpleName(project), name);
    }
    forall name ensures Alike(Candidates(t.recv, name), Candidates(u.recv, name)) {
      LabelledAlike(a, b, TypeMethod(project), name);
    }
    TablesAlike(t, u, e);
    AsksAreThrough(u, b, project, e);
  }

  lemma {:induction false} AsksAreThrough(u: Tables, defs: seq<string>, project: string, e: RawEdge)
    requires TablesFor(u, defs, project)
    ensures forall file :: Through(defs, project, e, file) <==> AsksFiles(u, e) && file == Split(e.to, '.')[0]
  {
    var segs := Split(e.to, '.');
    assert Candidates(u.recv, e.to) == Labelled(defs, TypeMethod(project), e.to);
    if |segs| == 2 {
      assert Candidates(u.bare, segs[1]) == Labelled(defs, SimpleName(project), segs[1]);
    }
  }

  // ----- the condition on the definitions -----

  predicate Unmatched(defs: seq<string>, project: string, callee: string) {
    forall j | 0 <= j < |defs| :: TypeMethod(project)(defs[j]) != Some(callee)
  }

  /** The i-th definition is the only one under its simple name. */
  predicate OnlyOne(defs: seq<string>, project: string, i: nat)
    requires i < |defs|
  {
    && SimpleName(project)(defs[i]).Some?
    && forall j | 0 <= j < |defs| && j != i :: SimpleName(project)(defs[j]) != SimpleName(project)(defs[i])
  }

  /** Through this file the i-th definition, and nothing else, can be called. */
  predicate Reaches(defs: seq<string>, project: string, file: string, i: nat)
    requires i < |defs|
  {
    OnlyOne(defs, project, i) && Unmatched(defs, project, file + "." + SimpleName(project)(defs[i]).value)
  }

  /** Whatever a file without a name of its own is called with, some definition's `receiver.method` or
      another bearer of the name stands against it. */
  predicate NothingThroughUnowned(defs: seq<string>, project: string) {
    forall k, i | 0 <= k < |defs| && 0 <= i < |defs| && Named(defs[k]) && Home(defs[k], project).Some? ::
      HasOwn(defs, project, Home(defs[k], project).value) || !Reaches(defs, project, Home(defs[k], project).value, i)
  }

  lemma {:induction false} OneBearer(defs: seq<string>, project: string, name: string) returns (i: nat)
    requires |Labelled(defs, SimpleName(project), name)| == 1
    ensures i < |defs| && OnlyOne(defs, project, i) && SimpleName(project)(defs[i]) == Some(name)
  {
    var target := Labelled(defs, SimpleName(project), name)[0];
    OneLabelled(defs, SimpleName(project), name, target);
    i :| 0 <= i < |defs| && SoleAt(defs, SimpleName(project), name, target, i);
  }

  lemma {:induction false} ThroughReaches(defs: seq<string>, project: string, e: RawEdge, file: string) returns (i: nat)
    requires Through(defs, project, e, file)
    ensures i < |defs| && Reaches(defs, project, file, i)
  {
    var segs := Split(e.to, '.');
    i := OneBearer(defs, project, segs[1]);
    JoinSplit(e.to, '.');
    assert segs == [file, segs[1]];
    JoinCons(file, [segs[1]], '.');
    assert e.to == file + "." + segs[1];
    NoneLabelled(defs, TypeMethod(project), e.to);
  }

  function CallTo(callee: string): RawEdge {
    RawEdge(Calls, "", callee, None, "", 0)
  }

  lemma {:induction false} ReachedThrough(defs: seq<string>, project: string, file: string, i: nat) returns (e: RawEdge)
    requires i < |defs| && Reaches(defs, project, file, i) && '.' !in file
    ensures Through(defs, project, e, file)
  {
    var name := SimpleName(project)(defs[i]).value;
    e := CallTo(file + "." + name);
    assert '.' !in name;
    SplitAppend(file, '.', name);
    assert file + ['.'] + name == file + "." + name;
    assert Split(e.to, '.') == [file, name];
    NoneLabelled(defs, TypeMethod(project), e.to);
    assert SoleAt(defs, SimpleName(project), name, defs[i], i);
    OneLabelled(defs, SimpleName(project), name, defs[i]);
  }

  // ----- the theorem -----

  /** Every edge gets the same verdict from the tables of the one list and from those of the other. */
  ghost predicate SameVerdicts(a: seq<string>, b: seq<string>, project: string) {
    forall t, u, e | TablesFor(t, a, project) && TablesFor(u, b, project) :: Judge(t, e) == Judge(u, e)
  }

  function Index(defs: seq<string>, f: Labelling): (m: map<string, seq<string>>)
    ensures Indexes(m, defs, f)
  {
    if defs == [] then map[]
    else
      var front, d := defs[..|defs| - 1], defs[|defs| - 1];
      var m := Index(front, f);
      assert Indexes(File(m, f(d), d), defs, f) by {
        FileKeepsIndexes(m, front, f, d);
        assert defs == front + [d];
      }
      File(m, f(d), d)
  }

  function TablesOf(defs: seq<string>, project: string): (t: Tables)
    ensures TablesFor(t, defs, project)
  {
    Tables(Index(defs, SimpleName(project)), Index(defs, TypeMethod(project)), FilesOf(defs, project))
  }

  lemma {:induction false} UnownedChangesNothing(order: seq<string>, defs: seq<string>, project: string, e: RawEdge,
          file: string)
    requires multiset(order) == multiset(defs) && NothingThroughUnowned(defs, project) &&
          Through(defs, project, e, file)
    ensures file in FilesOf(order, project) <==> file in FilesOf(defs, project)
  {
    var i := ThroughReaches(defs, project, e, file);
    OwnIsOrderFree(order, defs, project, file);
    OwnIsOrderFree(defs, order, project, file);
    if HasFile(defs, project, file) {
      var k :| 0 <= k < |defs| && Named(defs[k]) && Home(defs[k], project) == Some(file);
      assert HasOwn(defs, project, file);
      OwnedIsKnown(defs, project, file);
      OwnedIsKnown(order, project, file);
    } else {
      assert !HasFile(order, project, file);
    }
  }

  /** A call through an unowned file that reaches something fares differently in two orders. */
  lemma {:induction false} UnownedFlips(defs: seq<string>, project: string, file: string, i: nat)
    requires i < |defs| && Reaches(defs, project, file, i) && '.' !in file
    requires HasFile(defs, project, file) && !HasOwn(defs, project, file)
    ensures exists order :: multiset(order) == multiset(defs) && !SameVerdicts(order, defs, project)
  {
    var e := ReachedThrough(defs, project, file, i);
    WhereSplits(defs, Lives(project, file));
    FileFirstIsKnown(defs, project, file);
    FileLastIsUnknown(defs, project, file);
    var first, last := FileFirst(defs, project, file), FileLast(defs, project, file);
    var order := if file in FilesOf(defs, project) then last else first;
    JudgedAlike(TablesOf(order, project), TablesOf(defs, project), order, defs, project, e);
    assert !SameVerdicts(order, defs, project);
  }

  /** The verdicts are the same for every order of the definitions exactly when nothing is reached through
      a file that has no name of its own. */
  lemma {:induction false} VerdictsDependOnOrder(defs: seq<string>, project: string)
    ensures (forall order | multiset(order) == multiset(defs) :: SameVerdicts(order, defs, project))
      <==> NothingThroughUnowned(defs, project)
  {
    if NothingThroughUnowned(defs, project) {
      forall order, t, u, e | multiset(order) == multiset(defs) && TablesFor(t, order, project) &&
        TablesFor(u, defs, project)
        ensures Judge(t, e) == Judge(u, e)
      {
        forall file | Through(defs, project, e, file)
          ensures file in FilesOf(order, project) <==> file in FilesOf(defs, project)
        {
          UnownedChangesNothing(order, defs, project, e, file);
        }
        JudgedAlike(t, u, order, defs, project, e);
      }
    } else {
      var k, i :| 0 <= k < |defs| && 0 <= i < |defs| && Named(defs[k]) && Home(defs[k], project).Some?
                  && !HasOwn(defs, project, Home(defs[k], project).value)
                  && Reaches(defs, project, Home(defs[k], project).value, i);
      UnownedFlips(defs, project, Home(defs[k], project).value, i);
    }
  }
}
