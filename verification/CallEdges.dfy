/** Edges, verdicts and their bookkeeping, shared by the two call resolvers. */
module CallEdges {
  import opened Outcomes
  import opened Text

  datatype Kind = Calls | Imports | OtherKind

  /** An edge as the oracle binary emits it. */
  datatype RawEdge = RawEdge(kind: Kind, from: string, to: string, chainRoot: Option<string>, file: string, line: int)

  /** A resolved CALLS edge. */
  datatype Edge = Edge(from: string, to: string, file: string, line: int)

  function Resolved(e: RawEdge, target: string): Edge {
    Edge(e.from, target, e.file, e.line)
  }

  /** What becomes of one raw edge: nothing, or one bucket and possibly a kept edge. */
  datatype Verdict<B> = Ignore | Drop(bucket: B) | Keep(bucket: B, edge: Edge)

  predicate InBucket<B(==)>(v: Verdict<B>, b: B) {
    !v.Ignore? && v.bucket == b
  }

  function Tally<B(==)>(vs: seq<Verdict<B>>, b: B): nat {
    if vs == [] then 0 else Tally(vs[..|vs| - 1], b) + if InBucket(vs[|vs| - 1], b) then 1 else 0
  }

  function KeptOf<B>(vs: seq<Verdict<B>>): seq<Edge> {
    if vs == [] then []
    else KeptOf(vs[..|vs| - 1]) + if vs[|vs| - 1].Keep? then [vs[|vs| - 1].edge] else []
  }

  lemma {:induction false} VerdictsSnoc<B>(vs: seq<Verdict<B>>, v: Verdict<B>)
    ensures KeptOf(vs + [v]) == KeptOf(vs) + if v.Keep? then [v.edge] else []
    ensures forall b :: Tally(vs + [v], b) == Tally(vs, b) + if InBucket(v, b) then 1 else 0
  {
    assert (vs + [v])[..|vs|] == vs;
  }

  /** How many of the first n raw edges are of this kind. */
  function CountKind(raw: seq<RawEdge>, n: nat, kind: Kind): nat
    requires n <= |raw|
  {
    if n == 0 then 0 else CountKind(raw, n - 1, kind) + if raw[n - 1].kind == kind then 1 else 0
  }

  /** Every kept edge comes from a Keep verdict. */
  lemma {:induction false} KeptIsFromKeep<B>(vs: seq<Verdict<B>>, e: Edge) returns (i: nat)
    requires e in KeptOf(vs)
    ensures i < |vs| && vs[i].Keep? && vs[i].edge == e
  {
    var n := |vs| - 1;
    if vs[n].Keep? && vs[n].edge == e {
      i := n;
    } else {
      i := KeptIsFromKeep(vs[..n], e);
    }
  }

  /** `a` arises from `b` by leaving elements out. */
  predicate Subsequence(a: seq<Edge>, b: seq<Edge>)
    decreases |b|
  {
    if a == [] then true
    else if b == [] then false
    else if a[|a| - 1] == b[|b| - 1] then Subsequence(a[..|a| - 1], b[..|b| - 1])
    else Subsequence(a, b[..|b| - 1])
  }

  lemma {:induction false} SubsequenceExtra(a: seq<Edge>, b: seq<Edge>, e: Edge)
    requires Subsequence(a, b)
    ensures Subsequence(a, b + [e])
    decreases |b|, 1
  {
    assert (b + [e])[..|b|] == b;
    if a != [] && a[|a| - 1] == e {
      SubsequenceFront(a, b);
    }
  }

  lemma {:induction false} SubsequenceFront(a: seq<Edge>, b: seq<Edge>)
    requires Subsequence(a, b) && a != []
    ensures Subsequence(a[..|a| - 1], b)
    decreases |b|, 0
  {
    var front := b[..|b| - 1];
    assert front + [b[|b| - 1]] == b;
    if a[|a| - 1] == b[|b| - 1] {
      SubsequenceExtra(a[..|a| - 1], front, b[|b| - 1]);
    } else {
      SubsequenceFront(a, front);
      SubsequenceExtra(a[..|a| - 1], front, b[|b| - 1]);
    }
  }

  lemma {:induction false} SubsequenceBoth(a: seq<Edge>, b: seq<Edge>, e: Edge)
    requires Subsequence(a, b)
    ensures Subsequence(a + [e], b + [e])
  {
    assert (a + [e])[..|a|] == a && (b + [e])[..|b|] == b;
  }

  /** Verdicts that agree wherever the first keeps an edge. */
  lemma {:induction false} KeptSubsequence<B>(a: seq<Verdict<B>>, b: seq<Verdict<B>>)
    requires |a| == |b| && forall i | 0 <= i < |a| :: a[i].Keep? ==> b[i] == a[i]
    ensures Subsequence(KeptOf(a), KeptOf(b))
  {
    if a != [] {
      var n := |a| - 1;
      KeptSubsequence(a[..n], b[..n]);
      var ka, kb := KeptOf(a[..n]), KeptOf(b[..n]);
      if a[n].Keep? {
        SubsequenceBoth(ka, kb, a[n].edge);
      } else if b[n].Keep? {
        SubsequenceExtra(ka, kb, b[n].edge);
        assert ka + [] == ka;
      } else {
        assert ka + [] == ka && kb + [] == kb;
      }
    }
  }

  // ----- indexes of definitions by a label -----

  /** The label a definition is filed under, if any. */
  type Labelling = string -> Option<string>

  /** The definitions filed under a name, in order, repetitions included. */
  function Labelled(defs: seq<string>, f: Labelling, name: string): seq<string> {
    if defs == [] then []
    else Labelled(defs[..|defs| - 1], f, name)
         + if f(defs[|defs| - 1]) == Some(name) then [defs[|defs| - 1]] else []
  }

  function Candidates(m: map<string, seq<string>>, name: string): seq<string> {
    if name in m then m[name] else []
  }

  /** `m.setdefault(key, []).append(d)`, when there is a key. */
  function File(m: map<string, seq<string>>, key: Option<string>, d: string): map<string, seq<string>> {
    if key.None? then m else m[key.value := Candidates(m, key.value) + [d]]
  }

  /** The index returns, for every name, exactly the definitions filed under it, in order. */
  ghost predicate Indexes(m: map<string, seq<string>>, defs: seq<string>, f: Labelling) {
    forall name :: Candidates(m, name) == Labelled(defs, f, name)
  }

  lemma {:induction false} FileKeepsIndexes(m: map<string, seq<string>>, defs: seq<string>, f: Labelling, d: string)
    requires Indexes(m, defs, f)
    ensures Indexes(File(m, f(d), d), defs + [d], f)
  {
    forall name ensures Candidates(File(m, f(d), d), name) == Labelled(defs + [d], f, name) {
      FileOne(m, defs, f, d, name);
    }
  }

  lemma {:induction false} FileOne(m: map<string, seq<string>>, defs: seq<string>, f: Labelling, d: string,
          name: string)
    requires Candidates(m, name) == Labelled(defs, f, name)
    ensures Candidates(File(m, f(d), d), name) == Labelled(defs + [d], f, name)
  {
    assert (defs + [d])[..|defs|] == defs;
  }

  lemma {:induction false} LabelledMembers(defs: seq<string>, f: Labelling, name: string, d: string)
    ensures d in Labelled(defs, f, name) <==> d in defs && f(d) == Some(name)
  {
    if defs != [] {
      var n := |defs| - 1;
      LabelledMembers(defs[..n], f, name, d);
      assert defs == defs[..n] + [defs[n]];
    }
  }

  /** The target occurs once among the definitions and no other one has this label. */
  predicate Sole(defs: seq<string>, f: Labelling, name: string, target: string) {
    exists i :: 0 <= i < |defs| && SoleAt(defs, f, name, target, i)
  }

  predicate SoleAt(defs: seq<string>, f: Labelling, name: string, target: string, i: nat)
    requires i < |defs|
  {
    && defs[i] == target && f(target) == Some(name)
    && forall j | 0 <= j < |defs| && j != i :: f(defs[j]) != Some(name)
  }

  lemma {:induction false} NoneLabelled(defs: seq<string>, f: Labelling, name: string)
    ensures Labelled(defs, f, name) == [] <==> forall j | 0 <= j < |defs| :: f(defs[j]) != Some(name)
  {
    if defs != [] {
      var front := defs[..|defs| - 1];
      NoneLabelled(front, f, name);
      assert forall j | 0 <= j < |front| :: front[j] == defs[j];
    }
  }

  lemma {:induction false} SoleFront(defs: seq<string>, f: Labelling, name: string, target: string)
    requires defs != [] && f(defs[|defs| - 1]) != Some(name)
    ensures Sole(defs, f, name, target) <==> Sole(defs[..|defs| - 1], f, name, target)
  {
    var front := defs[..|defs| - 1];
    assert forall j | 0 <= j < |front| :: front[j] == defs[j];
    if Sole(defs, f, name, target) {
      var i :| 0 <= i < |defs| && SoleAt(defs, f, name, target, i);
      assert SoleAt(front, f, name, target, i);
    }
    if Sole(front, f, name, target) {
      var i :| 0 <= i < |front| && SoleAt(front, f, name, target, i);
      assert SoleAt(defs, f, name, target, i);
    }
  }

  /** But for its target the kept edge is the raw one. */
  predicate Targets(kept: Edge, e: RawEdge) {
    kept.from == e.from && kept.file == e.file && kept.line == e.line
  }

  /** An index holds exactly one definition for a name just when that definition is the sole one. */
  lemma {:induction false} OneLabelled(defs: seq<string>, f: Labelling, name: string, target: string)
    ensures Labelled(defs, f, name) == [target] <==> Sole(defs, f, name, target)
  {
    if defs != [] {
      var n := |defs| - 1;
      if f(defs[n]) == Some(name) {
        LastLabelled(defs, f, name, target);
      } else {
        OneLabelled(defs[..n], f, name, target);
        SoleFront(defs, f, name, target);
      }
    }
  }

  lemma {:induction false} LastLabelled(defs: seq<string>, f: Labelling, name: string, target: string)
    requires defs != [] && f(defs[|defs| - 1]) == Some(name)
    ensures Labelled(defs, f, name) == [target] <==> Sole(defs, f, name, target)
  {
    var n := |defs| - 1;
    var front := defs[..n];
    NoneLabelled(front, f, name);
    assert forall j | 0 <= j < n :: front[j] == defs[j];
    if Labelled(defs, f, name) == [target] {
      var before := Labelled(front, f, name);
      assert |before + [defs[n]]| == |before| + 1;
      assert before == [] && [defs[n]] == [target];
      assert [defs[n]][0] == [target][0];
      assert SoleAt(defs, f, name, target, n);
    }
    if Sole(defs, f, name, target) {
      var i :| 0 <= i < |defs| && SoleAt(defs, f, name, target, i);
      assert i == n;
      assert [] + [target] == [target];
    }
  }

  /** A candidate list is empty, or longer than one, just when none or two of the positions are filed there. */
  lemma {:induction false} LabelledSize(defs: seq<string>, f: Labelling, name: string)
    ensures |Labelled(defs, f, name)| == 0 <==> forall i | 0 <= i < |defs| :: f(defs[i]) != Some(name)
    ensures |Labelled(defs, f, name)| >= 2 <==>
              exists i, j :: 0 <= i < j < |defs| && f(defs[i]) == Some(name) == f(defs[j])
  {
    NoneLabelled(defs, f, name);
    if defs == [] {
    } else {
      var n := |defs| - 1;
      var front := defs[..n];
      LabelledSize(front, f, name);
      assert forall i | 0 <= i < n :: front[i] == defs[i];
      if f(defs[n]) == Some(name) && |Labelled(front, f, name)| > 0 {
        var i :| 0 <= i < n && f(front[i]) == Some(name);
        assert f(defs[i]) == Some(name) == f(defs[n]);
      }
      if i, j :| 0 <= i < j < |defs| && f(defs[i]) == Some(name) == f(defs[j]) {
        assert f(front[i]) == Some(name);
      }
    }
  }

  /** The segment before the last one is this type. */
  predicate ParentIs(qn: string, typeName: string) {
    var parts := Split(qn, '.');
    |parts| >= 2 && parts[|parts| - 2] == typeName
  }
}
