/** The Go call resolver (oracle_go_ast.py). */
module GoResolver {
  import opened Outcomes
  import opened Text
  import opened CallEdges

  datatype Bucket =
    | BareResolved | BareUnresolved | BareAmbiguous
    | RecvMethodResolved | RecvMethodAmbiguous
    | PathResolved | PathDropped
    | ImportsDropped

  const ZERO_STATS: map<Bucket, nat> :=
    map[BareResolved := 0, BareUnresolved := 0, BareAmbiguous := 0, RecvMethodResolved := 0,
        RecvMethodAmbiguous := 0, PathResolved := 0, PathDropped := 0, ImportsDropped := 0]

  lemma {:induction false} ZeroIsTotal(b: Bucket)
    ensures b in ZERO_STATS && ZERO_STATS[b] == 0
  {
    match b {
      case BareResolved => case BareUnresolved => case BareAmbiguous => case RecvMethodResolved =>
      case RecvMethodAmbiguous => case PathResolved => case PathDropped => case ImportsDropped =>
    }
  }

  // ----- names inside a project -----

  predicate InProject(qn: string, project: string) {
    StartsWith(qn, project + ".")
  }

  /** Segments after the project prefix. */
  function Rest(qn: string, project: string): seq<string>
    requires InProject(qn, project)
  {
    Split(qn[|project| + 1..], '.')
  }

  /** Definitions of the project are filed under their simple name, unless it is empty. */
  function SimpleName(project: string): Labelling {
    d => if !InProject(d, project) || Last(Rest(d, project)) == "" then None else Some(Last(Rest(d, project)))
  }

  /** Those of at least three segments also under `Type.method`. */
  function TypeMethod(project: string): Labelling {
    d =>
      if !InProject(d, project) || |Rest(d, project)| < 3 then None
      else
        var rest := Rest(d, project);
        Some(rest[|rest| - 2] + "." + rest[|rest| - 1])
  }

  // ----- the indexes -----

  /** `_build_def_indexes`. */
  method BuildDefIndexes(defs: seq<string>, project: string)
      returns (bare: map<string, seq<string>>, recv: map<string, seq<string>>)
    ensures Indexes(bare, defs, SimpleName(project)) && Indexes(recv, defs, TypeMethod(project))
  {
    bare, recv := map[], map[];
    for i := 0 to |defs|
      invariant Indexes(bare, defs[..i], SimpleName(project)) && Indexes(recv, defs[..i], TypeMethod(project))
    {
      assert defs[..i + 1] == defs[..i] + [defs[i]];
      FileKeepsIndexes(bare, defs[..i], SimpleName(project), defs[i]);
      FileKeepsIndexes(recv, defs[..i], TypeMethod(project), defs[i]);
      bare := File(bare, SimpleName(project)(defs[i]), defs[i]);
      recv := File(recv, TypeMethod(project)(defs[i]), defs[i]);
    }
    assert defs[..|defs|] == defs;
  }

  function BareName(d: string): string {
    Last(Split(d, '.'))
  }

  /** No definition before the i-th has its last segment. */
  predicate IsFirst(defs: seq<string>, i: nat)
    requires i < |defs|
  {
    forall j | 0 <= j < i :: BareName(defs[j]) != BareName(defs[i])
  }

  ghost predicate KnowsNames(m: map<string, string>, defs: seq<string>) {
    forall n :: n in m <==> n != "" && exists i :: 0 <= i < |defs| && BareName(defs[i]) == n
  }

  ghost predicate KeepsFirsts(m: map<string, string>, defs: seq<string>) {
    forall i | 0 <= i < |defs| && IsFirst(defs, i) && BareName(defs[i]) != "" ::
      BareName(defs[i]) in m && m[BareName(defs[i])] == defs[i]
  }

  /** The map knows exactly the non-empty last segments, and for each the first definition that has it. */
  ghost predicate MapsFirst(m: map<string, string>, defs: seq<string>) {
    KnowsNames(m, defs) && KeepsFirsts(m, defs)
  }

  function WithName(m: map<string, string>, d: string): map<string, string> {
    if BareName(d) != "" && BareName(d) !in m then m[BareName(d) := d] else m
  }

  lemma {:induction false} OneMoreName(m: map<string, string>, defs: seq<string>, d: string)
    requires KnowsNames(m, defs)
    ensures KnowsNames(WithName(m, d), defs + [d])
  {
    var more := defs + [d];
    assert more[|defs|] == d && forall i | 0 <= i < |defs| :: more[i] == defs[i];
  }

  lemma {:induction false} OneMoreFirst(m: map<string, string>, defs: seq<string>, d: string)
    requires MapsFirst(m, defs)
    ensures KeepsFirsts(WithName(m, d), defs + [d])
  {
    var more, n := defs + [d], |defs|;
    assert more[n] == d && forall i | 0 <= i < n :: more[i] == defs[i];
    forall i | 0 <= i <= n && IsFirst(more, i) && BareName(more[i]) != ""
      ensures BareName(more[i]) in WithName(m, d) && WithName(m, d)[BareName(more[i])] == more[i]
    {
      if i < n {
        assert IsFirst(defs, i);
      }
    }
  }

  lemma {:induction false} OneMoreDefinition(m: map<string, string>, defs: seq<string>, i: nat)
    requires i < |defs| && MapsFirst(m, defs[..i])
    ensures MapsFirst(WithName(m, defs[i]), defs[..i + 1])
  {
    OneMoreName(m, defs[..i], defs[i]);
    OneMoreFirst(m, defs[..i], defs[i]);
    assert defs[..i + 1] == defs[..i] + [defs[i]];
  }

  /** `build_fn_def_map_from_binary`. */
  method BuildDefMap(defs: seq<string>) returns (m: map<string, string>)
    ensures MapsFirst(m, defs)
  {
    m := map[];
    for i := 0 to |defs|
      invariant MapsFirst(m, defs[..i])
    {
      OneMoreDefinition(m, defs, i);
      var last := Last(Split(defs[i], '.'));
      if last != "" && last !in m {
        m := m[last := defs[i]];
      }
    }
    assert defs[..|defs|] == defs;
  }

  /** First segments, after the project, of the mapped definitions that have at least two. */
  function FileSegments(fnDefMap: map<string, string>, project: string): set<string> {
    set qn | qn in fnDefMap.Values && InProject(qn, project) && |Rest(qn, project)| >= 2 :: Rest(qn, project)[0]
  }

  // ----- judging one edge -----

  datatype Tables = Tables(bare: map<string, seq<string>>, recv: map<string, seq<string>>, files: set<string>)

  function Judge(t: Tables, e: RawEdge): Verdict<Bucket> {
    match e.kind
    case Imports => Drop(ImportsDropped)
    case OtherKind => Ignore
    case Calls =>
      var segs := Split(e.to, '.');
      if |segs| == 1 then
        var candidates := Candidates(t.bare, e.to);
        if |candidates| == 1 then Keep(BareResolved, Resolved(e, candidates[0]))
        else if |candidates| > 1 then Drop(BareAmbiguous)
        else Drop(BareUnresolved)
      else if |segs| == 2 then
        var methods := Candidates(t.recv, e.to);
        if |methods| == 1 then Keep(RecvMethodResolved, Resolved(e, methods[0]))
        else if |methods| > 1 then Drop(RecvMethodAmbiguous)
        else if segs[0] in t.files && |Candidates(t.bare, segs[1])| == 1 then
          Keep(PathResolved, Resolved(e, Candidates(t.bare, segs[1])[0]))
        else Drop(PathDropped)
      else Drop(PathDropped)
  }

  function Verdicts(t: Tables, raw: seq<RawEdge>, n: nat): seq<Verdict<Bucket>>
    requires n <= |raw|
  {
    seq(n, i requires 0 <= i < n => Judge(t, raw[i]))
  }

  /** `resolve_and_filter`, with the tables it built.  Without `defs` the indexes are the single-valued map itself. */
  method ResolveAndFilter(raw: seq<RawEdge>, fnDefMap: map<string, string>, project: string, defs: Option<seq<string>>)
      returns (kept: seq<Edge>, stats: map<Bucket, nat>, t: Tables)
    ensures t.files == FileSegments(fnDefMap, project)
    ensures defs.Some? ==>
              Indexes(t.bare, defs.value, SimpleName(project)) && Indexes(t.recv, defs.value, TypeMethod(project))
    ensures defs.None? ==> t.recv == map[] && t.bare == map name | name in fnDefMap :: [fnDefMap[name]]
    ensures kept == KeptOf(Verdicts(t, raw, |raw|))
    ensures Counts(stats, Verdicts(t, raw, |raw|))
  {
    var bare, recv: map<string, seq<string>>;
    if defs.Some? {
      bare, recv := BuildDefIndexes(defs.value, project);
    } else {
      bare, recv := map name | name in fnDefMap :: [fnDefMap[name]], map[];
    }
    t := Tables(bare, recv, FileSegments(fnDefMap, project));
    kept, stats := FilterEdges(raw, t);
  }

  /** Every counter counts its verdicts. */
  ghost predicate Counts(stats: map<Bucket, nat>, vs: seq<Verdict<Bucket>>) {
    forall b :: b in stats && stats[b] == Tally(vs, b)
  }

  lemma {:induction false} CountOne(stats: map<Bucket, nat>, vs: seq<Verdict<Bucket>>, v: Verdict<Bucket>)
    requires Counts(stats, vs)
    ensures Counts(if v.Ignore? then stats else stats[v.bucket := stats[v.bucket] + 1], vs + [v])
  {
    VerdictsSnoc(vs, v);
  }

  /** The loop over the raw edges. */
  method FilterEdges(raw: seq<RawEdge>, t: Tables) returns (kept: seq<Edge>, stats: map<Bucket, nat>)
    ensures kept == KeptOf(Verdicts(t, raw, |raw|))
    ensures Counts(stats, Verdicts(t, raw, |raw|))
  {
    kept, stats := [], ZERO_STATS;
    forall b { ZeroIsTotal(b); }
    for i := 0 to |raw|
      invariant kept == KeptOf(Verdicts(t, raw, i))
      invariant Counts(stats, Verdicts(t, raw, i))
    {
      var v := JudgeEdge(t.bare, t.recv, t.files, raw[i]);
      assert Verdicts(t, raw, i + 1) == Verdicts(t, raw, i) + [v];
      VerdictsSnoc(Verdicts(t, raw, i), v);
      CountOne(stats, Verdicts(t, raw, i), v);
      if !v.Ignore? {
        stats := stats[v.bucket := stats[v.bucket] + 1];
      }
      if v.Keep? {
        kept := kept + [v.edge];
      }
    }
  }

  /** The body of the loop, branch by branch. */
  method JudgeEdge(bare: map<string, seq<string>>, recv: map<string, seq<string>>, files: set<string>, e: RawEdge)
      returns (v: Verdict<Bucket>)
    ensures v == Judge(Tables(bare, recv, files), e)
  {
    if e.kind.Imports? {
      return Drop(ImportsDropped);
    }
    if !e.kind.Calls? {
      return Ignore;
    }
    var segs := Split(e.to, '.');
    if |segs| == 1 {
      var candidates := Candidates(bare, e.to);
      if |candidates| == 1 {
        return Keep(BareResolved, Resolved(e, candidates[0]));
      } else if |candidates| > 1 {
        return Drop(BareAmbiguous);
      }
      return Drop(BareUnresolved);
    } else if |segs| == 2 {
      var methods := Candidates(recv, e.to);
      if |methods| == 1 {
        return Keep(RecvMethodResolved, Resolved(e, methods[0]));
      } else if |methods| > 1 {
        return Drop(RecvMethodAmbiguous);
      }
      if segs[0] in files {
        var resolved := Candidates(bare, segs[1]);
        if |resolved| == 1 {
          return Keep(PathResolved, Resolved(e, resolved[0]));
        }
      }
      return Drop(PathDropped);
    }
    return Drop(PathDropped);
  }

  // ----- soundness -----

  /** The rule by which a call may resolve to the target. */
  predicate Admits(defs: seq<string>, project: string, files: set<string>, e: RawEdge, target: string) {
    var segs := Split(e.to, '.');
    || (|segs| == 1 && Sole(defs, SimpleName(project), e.to, target))
    || (|segs| == 2 && Sole(defs, TypeMethod(project), e.to, target))
    || (|segs| == 2 && (forall j | 0 <= j < |defs| :: TypeMethod(project)(defs[j]) != Some(e.to))
        && segs[0] in files && Sole(defs, SimpleName(project), segs[1], target))
  }

  /** With the definitions given, an edge is kept exactly when one of the three rules admits its
      target as the only candidate. */
  lemma {:induction false} KeptExactly(t: Tables, defs: seq<string>, project: string, e: RawEdge, target: string)
    requires Indexes(t.bare, defs, SimpleName(project)) && Indexes(t.recv, defs, TypeMethod(project))
    ensures Judge(t, e).Keep? && Judge(t, e).edge == Resolved(e, target)
      <==> e.kind.Calls? && Admits(defs, project, t.files, e, target)
  {
    var segs := Split(e.to, '.');
    KeptByCandidates(t, e, target);
    if |segs| == 1 {
      OneLabelled(defs, SimpleName(project), e.to, target);
      assert Candidates(t.bare, e.to) == Labelled(defs, SimpleName(project), e.to);
    } else if |segs| == 2 {
      OneLabelled(defs, TypeMethod(project), e.to, target);
      NoneLabelled(defs, TypeMethod(project), e.to);
      OneLabelled(defs, SimpleName(project), segs[1], target);
      assert Candidates(t.recv, e.to) == Labelled(defs, TypeMethod(project), e.to);
      assert Candidates(t.bare, segs[1]) == Labelled(defs, SimpleName(project), segs[1]);
    }
  }

  /** The same in terms of the tables. */
  lemma {:induction false} KeptByCandidates(t: Tables, e: RawEdge, target: string)
    ensures Judge(t, e).Keep? && Judge(t, e).edge == Resolved(e, target) <==>
      var segs := Split(e.to, '.');
      e.kind.Calls? &&
      ((|segs| == 1 && Candidates(t.bare, e.to) == [target])
       || (|segs| == 2 && Candidates(t.recv, e.to) == [target])
       || (|segs| == 2 && Candidates(t.recv, e.to) == [] && segs[0] in t.files
           && Candidates(t.bare, segs[1]) == [target]))
  {
  }

  /** Every kept edge targets a definition of the project, by one of the rules. */
  lemma {:induction false} KeptEdgesAreSound(t: Tables, defs: seq<string>, project: string, raw: seq<RawEdge>,
          kept: Edge)
    requires Indexes(t.bare, defs, SimpleName(project)) && Indexes(t.recv, defs, TypeMethod(project))
    requires kept in KeptOf(Verdicts(t, raw, |raw|))
    ensures kept.to in defs && InProject(kept.to, project)
    ensures exists i :: 0 <= i < |raw| && Justifies(defs, project, t.files, raw[i], kept)
  {
    var i := KeptIsFromKeep(Verdicts(t, raw, |raw|), kept);
    VerdictKept(t, raw, i, kept);
    KeptExactly(t, defs, project, raw[i], kept.to);
    assert Justifies(defs, project, t.files, raw[i], kept);
  }

  lemma {:induction false} VerdictKept(t: Tables, raw: seq<RawEdge>, i: nat, kept: Edge)
    requires i < |raw| && Verdicts(t, raw, |raw|)[i].Keep? && Verdicts(t, raw, |raw|)[i].edge == kept
    ensures Judge(t, raw[i]).Keep? && Judge(t, raw[i]).edge == kept == Resolved(raw[i], kept.to)
  {
  }

  predicate Justifies(defs: seq<string>, project: string, files: set<string>, e: RawEdge, kept: Edge) {
    e.kind.Calls? && kept == Resolved(e, kept.to) && Admits(defs, project, files, e, kept.to)
  }

  // ----- conservation -----

  ghost predicate Conserved(vs: seq<Verdict<Bucket>>, calls: nat, imports: nat) {
    && Tally(vs, ImportsDropped) == imports
    && Tally(vs, BareResolved) + Tally(vs, BareUnresolved) + Tally(vs, BareAmbiguous)
       + Tally(vs, RecvMethodResolved) + Tally(vs, RecvMethodAmbiguous)
       + Tally(vs, PathResolved) + Tally(vs, PathDropped) == calls
    && |KeptOf(vs)| == Tally(vs, BareResolved) + Tally(vs, RecvMethodResolved) + Tally(vs, PathResolved)
  }

  predicate IsResolved(b: Bucket) {
    b == BareResolved || b == RecvMethodResolved || b == PathResolved
  }

  lemma {:induction false} ConservedSnoc(vs: seq<Verdict<Bucket>>, v: Verdict<Bucket>, calls: nat, imports: nat)
    requires Conserved(vs, calls, imports)
    requires v.Keep? <==> !v.Ignore? && IsResolved(v.bucket)
    ensures Conserved(vs + [v], calls + (if !v.Ignore? && v.bucket != ImportsDropped then 1 else 0),
                      imports + if !v.Ignore? && v.bucket == ImportsDropped then 1 else 0)
  {
    VerdictsSnoc(vs, v);
    if !v.Ignore? {
      match v.bucket {
        case BareResolved =>
        case BareUnresolved =>
        case BareAmbiguous =>
        case RecvMethodResolved =>
        case RecvMethodAmbiguous =>
        case PathResolved =>
        case PathDropped =>
        case ImportsDropped =>
      }
    }
  }

  lemma {:induction false} JudgeShape(t: Tables, e: RawEdge)
    ensures var v := Judge(t, e);
      && (e.kind.Imports? <==> v == Drop(ImportsDropped))
      && (e.kind.Calls? <==> !v.Ignore? && v.bucket != ImportsDropped)
      && (v.Keep? <==> !v.Ignore? && IsResolved(v.bucket))
  {
  }

  /** Every CALLS edge lands in exactly one of the call counters, every IMPORTS edge in its own, and
      the kept edges are those counted as resolved. */
  lemma {:induction false} CountersConserve(t: Tables, raw: seq<RawEdge>, n: nat)
    requires n <= |raw|
    ensures Conserved(Verdicts(t, raw, n), CountKind(raw, n, Calls), CountKind(raw, n, Imports))
  {
    if n > 0 {
      CountersConserve(t, raw, n - 1);
      JudgeShape(t, raw[n - 1]);
      var v, front := Judge(t, raw[n - 1]), Verdicts(t, raw, n - 1);
      assert Verdicts(t, raw, n) == front + [v];
      ConservedSnoc(front, v, CountKind(raw, n - 1, Calls), CountKind(raw, n - 1, Imports));
    }
  }
}
