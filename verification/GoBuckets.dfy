/** Which counter a raw edge goes to in the Go resolver, on the definitions themselves. */
module GoBuckets {
  import opened Outcomes
  import opened Text
  import opened CallEdges
  import opened GoResolver

  // ----- definitions -----

  /** A definition of the project whose last segment is this name. */
  ghost predicate Bears(d: string, project: string, name: string) {
    name != "" && exists rest :: d == project + ['.'] + rest && LastPart(rest, '.', name)
  }

  /** A definition of the project, below its first segment, that ends in this `Type.method`. */
  ghost predicate Carries(d: string, project: string, typeName: string, method_: string) {
    && '.' !in typeName && '.' !in method_
    && exists front :: d == project + ['.'] + (front + ['.'] + (typeName + ['.'] + method_))
  }

  lemma {:induction false} RestOf(d: string, project: string, rest: string)
    requires d == project + ['.'] + rest
    ensures InProject(d, project) && Rest(d, project) == Split(rest, '.')
  {
    assert project + ['.'] == project + ".";
    assert d[|project| + 1..] == rest;
  }

  lemma {:induction false} ProjectCut(d: string, project: string) returns (rest: string)
    requires InProject(d, project)
    ensures d == project + ['.'] + rest && Rest(d, project) == Split(rest, '.')
  {
    rest := d[|project| + 1..];
    assert d == project + "." + rest;
    assert project + "." == project + ['.'];
  }

  lemma {:induction false} BearsIsName(d: string, project: string, name: string)
    ensures SimpleName(project)(d) == Some(name) <==> Bears(d, project, name)
  {
    if InProject(d, project) {
      var rest := ProjectCut(d, project);
      LastMeans(rest, '.', name);
    }
    if rest :| d == project + ['.'] + rest && LastPart(rest, '.', name) {
      RestOf(d, project, rest);
      LastMeans(rest, '.', name);
    }
  }

  lemma {:induction false} CarriesIsMethod(d: string, project: string, typeName: string, method_: string)
    requires '.' !in typeName && '.' !in method_
    ensures TypeMethod(project)(d) == Some(typeName + ['.'] + method_) <==> Carries(d, project, typeName, method_)
  {
    if TypeMethod(project)(d) == Some(typeName + ['.'] + method_) {
      LabelCarries(d, project, typeName, method_);
    }
    if front :| d == project + ['.'] + (front + ['.'] + (typeName + ['.'] + method_)) {
      CarriesLabel(d, project, typeName, method_, front);
    }
  }

  lemma {:induction false} CarriesLabel(d: string, project: string, typeName: string, method_: string, front: string)
    requires '.' !in typeName && '.' !in method_
    requires d == project + ['.'] + (front + ['.'] + (typeName + ['.'] + method_))
    ensures TypeMethod(project)(d) == Some(typeName + ['.'] + method_)
  {
    var tail := typeName + ['.'] + method_;
    RestOf(d, project, front + ['.'] + tail);
    SplitConcat(front, '.', tail);
    SplitAppend(typeName, '.', method_);
    assert Split(method_, '.') == [method_] && Split(tail, '.') == [typeName, method_];
    assert typeName + "." + method_ == tail;
  }

  lemma {:induction false} LabelCarries(d: string, project: string, typeName: string, method_: string)
    requires '.' !in typeName && '.' !in method_
    requires TypeMethod(project)(d) == Some(typeName + ['.'] + method_)
    ensures Carries(d, project, typeName, method_)
  {
    var rest := ProjectCut(d, project);
    var parts := Split(rest, '.');
    var t, m := parts[|parts| - 2], parts[|parts| - 1];
    SameParts(t, m, typeName, method_);
    LastTwoMean(rest, '.', typeName, method_);
    SplitAppend(typeName, '.', method_);
    assert Split(method_, '.') == [method_];
    assert Split(typeName + ['.'] + method_, '.') == [typeName, method_];
    var front :| rest == front + ['.'] + (typeName + ['.'] + method_);
    assert d == project + ['.'] + (front + ['.'] + (typeName + ['.'] + method_));
  }

  lemma {:induction false} SameParts(t: string, m: string, typeName: string, method_: string)
    requires '.' !in t && '.' !in typeName && '.' !in m && '.' !in method_
    requires t + "." + m == typeName + ['.'] + method_
    ensures t == typeName && m == method_
  {
    var s := typeName + ['.'] + method_;
    assert s == t + ['.'] + m;
    SplitAppend(t, '.', m);
    SplitAppend(typeName, '.', method_);
    assert Split(m, '.') == [m] && Split(method_, '.') == [method_];
    var parts := Split(s, '.');
    assert parts == [t] + [m] && parts == [typeName] + [method_];
    assert parts[0] == t && parts[1] == m;
  }

  ghost predicate NoneBears(defs: seq<string>, project: string, name: string) {
    forall i | 0 <= i < |defs| :: !Bears(defs[i], project, name)
  }

  ghost predicate TwoBear(defs: seq<string>, project: string, name: string) {
    exists i, j :: 0 <= i < j < |defs| && Bears(defs[i], project, name) && Bears(defs[j], project, name)
  }

  ghost predicate NoneCarries(defs: seq<string>, project: string, typeName: string, method_: string) {
    forall i | 0 <= i < |defs| :: !Carries(defs[i], project, typeName, method_)
  }

  ghost predicate TwoCarry(defs: seq<string>, project: string, typeName: string, method_: string) {
    exists i, j :: 0 <= i < j < |defs| && Carries(defs[i], project, typeName, method_)
                   && Carries(defs[j], project, typeName, method_)
  }

  lemma {:induction false} BareSize(defs: seq<string>, bare: map<string, seq<string>>, project: string, name: string)
    requires Indexes(bare, defs, SimpleName(project))
    ensures |Candidates(bare, name)| == 0 <==> NoneBears(defs, project, name)
    ensures |Candidates(bare, name)| >= 2 <==> TwoBear(defs, project, name)
    ensures forall d | d in Candidates(bare, name) :: d in defs && Bears(d, project, name)
  {
    LabelledSize(defs, SimpleName(project), name);
    forall d
      ensures SimpleName(project)(d) == Some(name) <==> Bears(d, project, name)
      ensures d in Candidates(bare, name) ==> d in defs && Bears(d, project, name)
    {
      BearsIsName(d, project, name);
      LabelledMembers(defs, SimpleName(project), name, d);
    }
  }

  lemma {:induction false} MethodSize(defs: seq<string>, recv: map<string, seq<string>>, project: string,
          typeName: string, method_: string)
    requires Indexes(recv, defs, TypeMethod(project)) && '.' !in typeName && '.' !in method_
    ensures var found := Candidates(recv, typeName + ['.'] + method_);
      && (|found| == 0 <==> NoneCarries(defs, project, typeName, method_))
      && (|found| >= 2 <==> TwoCarry(defs, project, typeName, method_))
      && forall d | d in found :: d in defs && Carries(d, project, typeName, method_)
  {
    var callee := typeName + ['.'] + method_;
    LabelledSize(defs, TypeMethod(project), callee);
    forall d
      ensures TypeMethod(project)(d) == Some(callee) <==> Carries(d, project, typeName, method_)
      ensures d in Candidates(recv, callee) ==> d in defs && Carries(d, project, typeName, method_)
    {
      CarriesIsMethod(d, project, typeName, method_);
      LabelledMembers(defs, TypeMethod(project), callee, d);
    }
  }

  // ----- the counters -----

  ghost predicate Tabulated(t: Tables, defs: seq<string>, project: string) {
    Indexes(t.bare, defs, SimpleName(project)) && Indexes(t.recv, defs, TypeMethod(project))
  }

  ghost predicate IsKept(v: Verdict<Bucket>, b: Bucket) {
    v.Keep? && v.bucket == b
  }

  /** Every bare call goes to the counter of the project's definitions of that name. */
  lemma {:induction false} BareBuckets(t: Tables, defs: seq<string>, project: string, e: RawEdge)
    requires Tabulated(t, defs, project)
    ensures var v, bare := Judge(t, e), e.kind.Calls? && '.' !in e.to;
      && (v == Drop(BareUnresolved) <==> bare && NoneBears(defs, project, e.to))
      && (v == Drop(BareAmbiguous) <==> bare && TwoBear(defs, project, e.to))
      && (IsKept(v, BareResolved) <==> bare && !NoneBears(defs, project, e.to) && !TwoBear(defs, project, e.to))
      && (IsKept(v, BareResolved) ==>
            Targets(v.edge, e) && v.edge.to in defs && Bears(v.edge.to, project, e.to))
  {
    BareSize(defs, t.bare, project, e.to);
  }

  /** A call in two parts goes first by the methods of that receiver, and then, if the first part is a known
      file, by the name alone. */
  lemma {:induction false} TwoPartBuckets(t: Tables, defs: seq<string>, project: string, e: RawEdge, a: string,
          b: string)
    requires Tabulated(t, defs, project) && e.kind.Calls?
    requires '.' !in a && '.' !in b && e.to == a + ['.'] + b
    ensures var v, none := Judge(t, e), NoneCarries(defs, project, a, b);
      var found := a in t.files && !NoneBears(defs, project, b) && !TwoBear(defs, project, b);
      && (v == Drop(RecvMethodAmbiguous) <==> TwoCarry(defs, project, a, b))
      && (IsKept(v, RecvMethodResolved) <==> !none && !TwoCarry(defs, project, a, b))
      && (IsKept(v, RecvMethodResolved) ==>
            Targets(v.edge, e) && v.edge.to in defs && Carries(v.edge.to, project, a, b))
      && (IsKept(v, PathResolved) <==> none && found)
      && (IsKept(v, PathResolved) ==>
            Targets(v.edge, e) && v.edge.to in defs && Bears(v.edge.to, project, b))
      && (v == Drop(PathDropped) <==> none && !found)
  {
    SplitAppend(a, '.', b);
    assert Split(b, '.') == [b] && Split(e.to, '.') == [a, b];
    MethodSize(defs, t.recv, project, a, b);
    BareSize(defs, t.bare, project, b);
    TwoPartByTable(t, e, a, b);
  }

  /** The same in terms of the tables. */
  lemma {:induction false} TwoPartByTable(t: Tables, e: RawEdge, a: string, b: string)
    requires e.kind.Calls? && Split(e.to, '.') == [a, b]
    ensures var v, methods, names := Judge(t, e), Candidates(t.recv, e.to), Candidates(t.bare, b);
      var found := a in t.files && |names| == 1;
      && (v == Drop(RecvMethodAmbiguous) <==> |methods| >= 2)
      && (IsKept(v, RecvMethodResolved) <==> |methods| == 1)
      && (IsKept(v, RecvMethodResolved) ==> Targets(v.edge, e) && v.edge.to == methods[0])
      && (IsKept(v, PathResolved) <==> |methods| == 0 && found)
      && (IsKept(v, PathResolved) ==> Targets(v.edge, e) && v.edge.to == names[0])
      && (v == Drop(PathDropped) <==> |methods| == 0 && !found)
  {
  }

  /** A longer path is dropped. */
  lemma {:induction false} LongPathBuckets(t: Tables, e: RawEdge, a: string, b: string, c: string)
    requires e.kind.Calls? && e.to == a + ['.'] + (b + ['.'] + c)
    ensures Judge(t, e) == Drop(PathDropped)
  {
    SplitConcat(a, '.', b + ['.'] + c);
    SplitConcat(b, '.', c);
  }
}
