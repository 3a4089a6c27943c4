/** The Rust call resolver (oracle_rust_syn.py): from raw syntactic edges to unique definitions. */
module RustResolver {
  import opened Outcomes
  import opened Text
  import opened CallEdges

  /** Crate names as cargo metadata classifies them; both sets empty when there is no metadata. */
  datatype Cargo = Cargo(external: set<string>, workspace: set<string>)

  const NO_CARGO := Cargo({}, {})

  datatype Bucket =
    | ImportsDropped
    | BareResolved | BareUnresolved | BareAmbiguous
    | MethodExternalChain | BareImportedExternal
    | ScopedResolved | ScopedExternal | ScopedAmbiguous

  const ZERO_STATS: map<Bucket, nat> :=
    map[ImportsDropped := 0, BareResolved := 0, BareUnresolved := 0, BareAmbiguous := 0, MethodExternalChain := 0,
        ScopedResolved := 0, ScopedExternal := 0, ScopedAmbiguous := 0, BareImportedExternal := 0]

  lemma {:induction false} ZeroIsTotal(b: Bucket)
    ensures b in ZERO_STATS && ZERO_STATS[b] == 0
  {
    match b {
      case ImportsDropped => case BareResolved => case BareUnresolved => case BareAmbiguous =>
      case MethodExternalChain => case BareImportedExternal =>
      case ScopedResolved => case ScopedExternal => case ScopedAmbiguous =>
    }
  }

  // ----- the definition index -----

  /** Definitions are filed under their last segment, unless that is empty. */
  function LastSegment(): Labelling {
    d => var last := Last(Split(d, '.')); if last == "" then None else Some(last)
  }

  /** `build_fn_def_map_from_binary`. */
  method BuildDefMap(defs: seq<string>) returns (m: map<string, seq<string>>)
    ensures Indexes(m, defs, LastSegment())
  {
    m := map[];
    for i := 0 to |defs|
      invariant Indexes(m, defs[..i], LastSegment())
    {
      assert defs[..i + 1] == defs[..i] + [defs[i]];
      FileKeepsIndexes(m, defs[..i], LastSegment(), defs[i]);
      m := File(m, LastSegment()(defs[i]), defs[i]);
    }
    assert defs[..|defs|] == defs;
  }

  // ----- imports -----

  /** An IMPORTS edge the resolver uses: a module, and a path of at least two segments with a
      non-empty first and last one. */
  predicate UsableImport(e: RawEdge) {
    && e.kind.Imports? && e.from != "" && '.' in e.to
    && Split(e.to, '.')[0] != "" && Last(Split(e.to, '.')) != ""
  }

  /** Where the module says this name comes from: its last usable import of it. */
  function ImportRoot(raw: seq<RawEdge>, mod: string, name: string): Option<string> {
    if raw == [] then None
    else
      var e := raw[|raw| - 1];
      if UsableImport(e) && e.from == mod && Last(Split(e.to, '.')) == name then Some(Split(e.to, '.')[0])
      else ImportRoot(raw[..|raw| - 1], mod, name)
  }

  function Modules(raw: seq<RawEdge>): set<string> {
    set i | 0 <= i < |raw| && UsableImport(raw[i]) :: raw[i].from
  }

  function LookUp(m: map<string, map<string, string>>, mod: string, name: string): Option<string> {
    if mod in m && name in m[mod] then Some(m[mod][name]) else None
  }

  /** The table answers every question about usable imports. */
  ghost predicate Tabulates(m: map<string, map<string, string>>, raw: seq<RawEdge>) {
    && m.Keys == Modules(raw)
    && forall mod, name :: LookUp(m, mod, name) == ImportRoot(raw, mod, name)
  }

  /** Pass 1 of `resolve_and_filter`. */
  method BuildImports(raw: seq<RawEdge>) returns (m: map<string, map<string, string>>)
    ensures Tabulates(m, raw)
  {
    m := map[];
    for i := 0 to |raw|
      invariant Tabulates(m, raw[..i])
    {
      var e := raw[i];
      assert raw[..i + 1] == raw[..i] + [e];
      TableGrows(m, raw[..i], e);
      if !e.kind.Imports? || !(e.from != "" && '.' in e.to) {
        continue;
      }
      var parts := Split(e.to, '.');
      var firstSegment, localName := parts[0], Last(parts);
      if firstSegment == "" || localName == "" {
        continue;
      }
      var inner := if e.from in m then m[e.from] else map[];
      m := m[e.from := inner[localName := firstSegment]];
    }
    assert raw[..|raw|] == raw;
  }

  lemma {:induction false} TableGrows(m: map<string, map<string, string>>, raw: seq<RawEdge>, e: RawEdge)
    requires Tabulates(m, raw)
    ensures !UsableImport(e) ==> Tabulates(m, raw + [e])
    ensures UsableImport(e) ==> Tabulates(WithImport(m, e), raw + [e])
  {
    ModulesSnoc(raw, e);
    assert UsableImport(e) ==> WithImport(m, e).Keys == m.Keys + {e.from};
    forall mod, name {
      LookUpGrows(m, raw, e, mod, name);
    }
  }

  function WithImport(m: map<string, map<string, string>>, e: RawEdge): map<string, map<string, string>> {
    var inner := if e.from in m then m[e.from] else map[];
    m[e.from := inner[Last(Split(e.to, '.')) := Split(e.to, '.')[0]]]
  }

  lemma {:induction false} LookUpGrows(m: map<string, map<string, string>>, raw: seq<RawEdge>, e: RawEdge, mod: string,
          name: string)
    requires LookUp(m, mod, name) == ImportRoot(raw, mod, name)
    ensures LookUp(if UsableImport(e) then WithImport(m, e) else m, mod, name) == ImportRoot(raw + [e], mod, name)
  {
    assert (raw + [e])[..|raw|] == raw;
  }

  lemma {:induction false} ModulesSnoc(raw: seq<RawEdge>, e: RawEdge)
    ensures Modules(raw + [e]) == Modules(raw) + if UsableImport(e) then {e.from} else {}
  {
    var more := raw + [e];
    assert more[|raw|] == e;
    assert forall j | 0 <= j < |raw| :: more[j] == raw[j];
  }

  /** The longest prefix of `parts`, joined, that is a module; empty when there is none. */
  function LongestModule(parts: seq<string>, modules: set<string>): string {
    if parts == [] then ""
    else if Join(parts, '.') in modules then Join(parts, '.')
    else LongestModule(parts[..|parts| - 1], modules)
  }

  /** `caller_module`, popping segments until what is left is a module. */
  method CallerModule(caller: string, modules: set<string>) returns (mod: string)
    ensures mod == LongestModule(Split(caller, '.'), modules)
  {
    var parts := Split(caller, '.');
    while parts != []
      invariant LongestModule(parts, modules) == LongestModule(Split(caller, '.'), modules)
    {
      var candidate := Join(parts, '.');
      if candidate in modules {
        return candidate;
      }
      parts := parts[..|parts| - 1];
    }
    return "";
  }

  predicate LongestAt(parts: seq<string>, k: nat, mod: string, modules: set<string>)
    requires k <= |parts|
  {
    mod == Join(parts[..k], '.') && forall j | k < j <= |parts| :: Join(parts[..j], '.') !in modules
  }

  /** What it finds is the longest segment-aligned prefix of the caller that emitted imports, or
      nothing when no prefix did. */
  lemma {:induction false} LongestModuleIsLongest(parts: seq<string>, modules: set<string>)
    requires "" !in modules
    ensures var mod := LongestModule(parts, modules);
      && (mod == "" <==> forall k | 1 <= k <= |parts| :: Join(parts[..k], '.') !in modules)
      && (mod != "" ==> mod in modules && exists k :: 1 <= k <= |parts| && LongestAt(parts, k, mod, modules))
  {
    if parts != [] {
      var n := |parts|;
      assert parts[..n] == parts;
      if Join(parts, '.') !in modules {
        var front := parts[..n - 1];
        LongestModuleIsLongest(front, modules);
        assert forall k | 1 <= k < n :: front[..k] == parts[..k];
        var mod := LongestModule(front, modules);
        if mod != "" {
          var k :| 1 <= k < n && LongestAt(front, k, mod, modules);
          assert LongestAt(parts, k, mod, modules);
        }
      } else {
        assert LongestAt(parts, n, Join(parts, '.'), modules);
      }
    }
  }

  // ----- judging one edge -----

  /** `external_crates` membership after normalising dashes; workspace members are never external. */
  predicate External(root: string, cargo: Cargo) {
    root != "" &&
    var norm := ReplaceChar(root, '-', '_');
    norm !in cargo.workspace && norm in cargo.external
  }

  predicate ExternalChain(e: RawEdge, cargo: Cargo) {
    e.chainRoot.Some? && External(e.chainRoot.value, cargo)
  }

  predicate ExternalImport(raw: seq<RawEdge>, e: RawEdge, cargo: Cargo) {
    var mod := LongestModule(Split(e.from, '.'), Modules(raw));
    && mod != ""
    && ImportRoot(raw, mod, e.to).Some?
    && External(ImportRoot(raw, mod, e.to).value, cargo)
  }

  /** Distinct definitions of the method whose parent segment is the type. */
  function Scoped(candidates: seq<string>, typeName: string): set<string> {
    set i | 0 <= i < |candidates| && ParentIs(candidates[i], typeName) :: candidates[i]
  }

  function TheOne(s: set<string>): (x: string)
    requires |s| == 1
    ensures s == {x}
  {
    OneExists(s);
    var x :| x in s && s == {x};
    x
  }

  lemma {:induction false} OneExists(s: set<string>)
    requires |s| == 1
    ensures exists x :: x in s && s == {x}
  {
    var x :| x in s;
    assert |s - {x}| == 0;
    assert s == {x};
  }

  /** The verdict on one raw edge, given the whole input for its imports. */
  function Judge(raw: seq<RawEdge>, m: map<string, seq<string>>, cargo: Cargo, e: RawEdge): Verdict<Bucket> {
    match e.kind
    case Imports => Drop(ImportsDropped)
    case OtherKind => Ignore
    case Calls =>
      if '.' !in e.to then
        if ExternalChain(e, cargo) then Drop(MethodExternalChain)
        else if ExternalImport(raw, e, cargo) then Drop(BareImportedExternal)
        else
          var candidates := Candidates(m, e.to);
          if |candidates| == 0 then Drop(BareUnresolved)
          else if |candidates| > 1 then Drop(BareAmbiguous)
          else Keep(BareResolved, Resolved(e, candidates[0]))
      else
        var parts := Split(e.to, '.');
        var matches := Scoped(Candidates(m, Last(parts)), parts[0]);
        if |matches| == 0 then Drop(ScopedExternal)
        else if |matches| > 1 then Drop(ScopedAmbiguous)
        else Keep(ScopedResolved, Resolved(e, TheOne(matches)))
  }

  function Verdicts(raw: seq<RawEdge>, m: map<string, seq<string>>, cargo: Cargo, n: nat): seq<Verdict<Bucket>>
    requires n <= |raw|
  {
    seq(n, i requires 0 <= i < n => Judge(raw, m, cargo, raw[i]))
  }

  /** The body of the second pass: the branches in the source's order, on the tables it built. */
  method JudgeEdge(ghost raw: seq<RawEdge>, imports: map<string, map<string, string>>, m: map<string, seq<string>>,
          cargo: Cargo, e: RawEdge) returns (v: Verdict<Bucket>)
    requires Tabulates(imports, raw)
    ensures v == Judge(raw, m, cargo, e)
  {
    if e.kind.Imports? {
      return Drop(ImportsDropped);
    }
    if !e.kind.Calls? {
      return Ignore;
    }
    if '.' !in e.to {
      if ExternalChain(e, cargo) {
        return Drop(MethodExternalChain);
      }
      var mod := CallerModule(e.from, imports.Keys);
      var root := if mod == "" then None else LookUp(imports, mod, e.to);
      if root.Some? && External(root.value, cargo) {
        return Drop(BareImportedExternal);
      }
      var candidates := Candidates(m, e.to);
      if candidates == [] {
        return Drop(BareUnresolved);
      }
      if |candidates| > 1 {
        return Drop(BareAmbiguous);
      }
      return Keep(BareResolved, Resolved(e, candidates[0]));
    }
    var parts := Split(e.to, '.');
    var matches := Scoped(Candidates(m, Last(parts)), parts[0]);
    if matches == {} {
      return Drop(ScopedExternal);
    }
    if |matches| > 1 {
      return Drop(ScopedAmbiguous);
    }
    return Keep(ScopedResolved, Resolved(e, TheOne(matches)));
  }

  /** `resolve_and_filter`: the counters count verdicts, the kept list is that of the Keep verdicts,
      in order. */
  method ResolveAndFilter(raw: seq<RawEdge>, m: map<string, seq<string>>, cargo: Cargo)
      returns (kept: seq<Edge>, stats: map<Bucket, nat>)
    ensures kept == KeptOf(Verdicts(raw, m, cargo, |raw|))
    ensures forall b :: b in stats && stats[b] == Tally(Verdicts(raw, m, cargo, |raw|), b)
  {
    var imports := BuildImports(raw);
    kept, stats := [], ZERO_STATS;
    forall b { ZeroIsTotal(b); }
    for i := 0 to |raw|
      invariant kept == KeptOf(Verdicts(raw, m, cargo, i))
      invariant forall b :: b in stats && stats[b] == Tally(Verdicts(raw, m, cargo, i), b)
    {
      var v := JudgeEdge(raw, imports, m, cargo, raw[i]);
      assert Verdicts(raw, m, cargo, i + 1) == Verdicts(raw, m, cargo, i) + [v];
      VerdictsSnoc(Verdicts(raw, m, cargo, i), v);
      if !v.Ignore? {
        stats := stats[v.bucket := stats[v.bucket] + 1];
      }
      if v.Keep? {
        kept := kept + [v.edge];
      }
    }
  }

  // ----- soundness -----

  /** The target is the only definition a bare call may mean. */
  predicate OnlyBare(defs: seq<string>, e: RawEdge, target: string) {
    '.' !in e.to && Sole(defs, LastSegment(), e.to, target)
  }

  /** Some definition carries this method name in this type, and every one that does is the target. */
  predicate OnlyScoped(defs: seq<string>, e: RawEdge, target: string) {
    var parts := Split(e.to, '.');
    && '.' in e.to && Last(parts) != ""
    && target in defs && Last(Split(target, '.')) == Last(parts) && ParentIs(target, parts[0])
    && forall i | 0 <= i < |defs| && Last(Split(defs[i], '.')) == Last(parts) && ParentIs(defs[i], parts[0]) ::
         defs[i] == target
  }

  /** An edge is kept exactly when it is an internal call with a sole admissible definition, and then
      it points there. */
  lemma {:induction false} KeptExactly(raw: seq<RawEdge>, defs: seq<string>, m: map<string, seq<string>>, cargo: Cargo,
          e: RawEdge, target: string)
    requires Indexes(m, defs, LastSegment())
    ensures var v := Judge(raw, m, cargo, e);
      v.Keep? && v.edge == Resolved(e, target) <==>
        e.kind.Calls? &&
        ((!ExternalChain(e, cargo) && !ExternalImport(raw, e, cargo) && OnlyBare(defs, e, target))
         || OnlyScoped(defs, e, target))
  {
    KeptByCandidates(raw, m, cargo, e, target);
    if '.' !in e.to {
      BareExactly(defs, m, e, target);
    } else {
      ScopedExactly(defs, m, e, target);
    }
  }

  /** The same in terms of the table. */
  lemma {:induction false} KeptByCandidates(raw: seq<RawEdge>, m: map<string, seq<string>>, cargo: Cargo, e: RawEdge,
          target: string)
    ensures var v, parts := Judge(raw, m, cargo, e), Split(e.to, '.');
      v.Keep? && v.edge == Resolved(e, target) <==>
        e.kind.Calls? &&
        (if '.' in e.to then Scoped(Candidates(m, Last(parts)), parts[0]) == {target}
         else !ExternalChain(e, cargo) && !ExternalImport(raw, e, cargo) && Candidates(m, e.to) == [target])
  {
    if e.kind.Calls? && '.' in e.to {
      var matches := Scoped(Candidates(m, Last(Split(e.to, '.'))), Split(e.to, '.')[0]);
      OneElement(matches, target);
    }
  }

  lemma {:induction false} OneElement(s: set<string>, x: string)
    ensures s == {x} <==> |s| == 1 && TheOne(s) == x
  {
    if |s| == 1 {
      assert s == {TheOne(s)};
    }
  }

  lemma {:induction false} BareExactly(defs: seq<string>, m: map<string, seq<string>>, e: RawEdge, target: string)
    requires Indexes(m, defs, LastSegment()) && '.' !in e.to
    ensures Candidates(m, e.to) == [target] <==> OnlyBare(defs, e, target)
  {
    OneLabelled(defs, LastSegment(), e.to, target);
  }

  lemma {:induction false} ScopedExactly(defs: seq<string>, m: map<string, seq<string>>, e: RawEdge, target: string)
    requires Indexes(m, defs, LastSegment()) && '.' in e.to
    ensures var parts := Split(e.to, '.');
      Scoped(Candidates(m, Last(parts)), parts[0]) == {target} <==> OnlyScoped(defs, e, target)
  {
    var parts := Split(e.to, '.');
    var candidates := Candidates(m, Last(parts));
    var matches := Scoped(candidates, parts[0]);
    forall d ensures d in matches <==>
      Last(parts) != "" && d in defs && Last(Split(d, '.')) == Last(parts) && ParentIs(d, parts[0]) {
      LabelledMembers(defs, LastSegment(), Last(parts), d);
      if d in matches {
        var i :| 0 <= i < |candidates| && ParentIs(candidates[i], parts[0]) && candidates[i] == d;
        assert d in candidates;
      }
      if d in candidates && ParentIs(d, parts[0]) {
        var i :| 0 <= i < |candidates| && candidates[i] == d;
        assert candidates[i] in matches;
      }
    }
    if OnlyScoped(defs, e, target) {
      assert forall d | d in matches :: d == target;
    }
    if matches == {target} {
      assert target in matches;
      forall i | 0 <= i < |defs| && Last(Split(defs[i], '.')) == Last(parts) && ParentIs(defs[i], parts[0])
        ensures defs[i] == target
      {
        assert defs[i] in matches;
      }
    }
  }

  /** The raw edge is a call whose sole admissible definition the kept edge targets. */
  predicate Justifies(defs: seq<string>, e: RawEdge, kept: Edge) {
    e.kind.Calls? && kept == Resolved(e, kept.to) && (OnlyBare(defs, e, kept.to) || OnlyScoped(defs, e, kept.to))
  }

  /** Every kept edge is sound. */
  lemma {:induction false} KeptEdgesAreSound(raw: seq<RawEdge>, defs: seq<string>, m: map<string, seq<string>>,
          cargo: Cargo, kept: Edge)
    requires Indexes(m, defs, LastSegment()) && kept in KeptOf(Verdicts(raw, m, cargo, |raw|))
    ensures kept.to in defs
    ensures exists i :: 0 <= i < |raw| && Justifies(defs, raw[i], kept)
  {
    var i := KeptIsFromKeep(Verdicts(raw, m, cargo, |raw|), kept);
    VerdictKept(raw, m, cargo, i, kept);
    KeptExactly(raw, defs, m, cargo, raw[i], kept.to);
    assert Justifies(defs, raw[i], kept);
    TargetIsDefined(defs, raw[i], kept);
  }

  lemma {:induction false} VerdictKept(raw: seq<RawEdge>, m: map<string, seq<string>>, cargo: Cargo, i: nat, kept: Edge)
    requires i < |raw|
    requires Verdicts(raw, m, cargo, |raw|)[i].Keep? && Verdicts(raw, m, cargo, |raw|)[i].edge == kept
    ensures var v := Judge(raw, m, cargo, raw[i]);
      v.Keep? && v.edge == kept == Resolved(raw[i], kept.to)
  {
  }

  lemma {:induction false} TargetIsDefined(defs: seq<string>, e: RawEdge, kept: Edge)
    requires Justifies(defs, e, kept)
    ensures kept.to in defs
  {
  }

  // ----- conservation -----

  /** The verdict fits the kind of the edge, and keeping goes with the two resolved buckets. */
  lemma {:induction false} JudgeShape(raw: seq<RawEdge>, m: map<string, seq<string>>, cargo: Cargo, e: RawEdge)
    ensures var v := Judge(raw, m, cargo, e);
      && (e.kind.Imports? <==> v == Drop(ImportsDropped))
      && (e.kind.Calls? <==> !v.Ignore? && v.bucket != ImportsDropped)
      && (v.Keep? <==> !v.Ignore? && (v.bucket == BareResolved || v.bucket == ScopedResolved))
  {
  }

  /** The counters account for so many CALLS and IMPORTS edges. */
  ghost predicate Conserved(vs: seq<Verdict<Bucket>>, calls: nat, imports: nat) {
    && Tally(vs, ImportsDropped) == imports
    && Tally(vs, BareResolved) + Tally(vs, BareUnresolved) + Tally(vs, BareAmbiguous)
       + Tally(vs, MethodExternalChain) + Tally(vs, BareImportedExternal)
       + Tally(vs, ScopedResolved) + Tally(vs, ScopedExternal) + Tally(vs, ScopedAmbiguous) == calls
    && |KeptOf(vs)| == Tally(vs, BareResolved) + Tally(vs, ScopedResolved)
  }

  lemma {:induction false} ConservedSnoc(vs: seq<Verdict<Bucket>>, v: Verdict<Bucket>, calls: nat, imports: nat)
    requires Conserved(vs, calls, imports)
    requires v.Keep? <==> !v.Ignore? && (v.bucket == BareResolved || v.bucket == ScopedResolved)
    ensures Conserved(vs + [v], calls + (if !v.Ignore? && v.bucket != ImportsDropped then 1 else 0),
                      imports + if !v.Ignore? && v.bucket == ImportsDropped then 1 else 0)
  {
    VerdictsSnoc(vs, v);
    if !v.Ignore? {
      match v.bucket {
        case ImportsDropped =>
        case BareResolved =>
        case BareUnresolved =>
        case BareAmbiguous =>
        case MethodExternalChain =>
        case BareImportedExternal =>
        case ScopedResolved =>
        case ScopedExternal =>
        case ScopedAmbiguous =>
      }
    }
  }

  /** Every CALLS edge lands in exactly one of the call counters, every IMPORTS edge in its own, and
      the kept edges are those counted as resolved. */
  lemma {:induction false} CountersConserve(raw: seq<RawEdge>, m: map<string, seq<string>>, cargo: Cargo, n: nat)
    requires n <= |raw|
    ensures Conserved(Verdicts(raw, m, cargo, n), CountKind(raw, n, Calls), CountKind(raw, n, Imports))
  {
    if n > 0 {
      CountersConserve(raw, m, cargo, n - 1);
      JudgeShape(raw, m, cargo, raw[n - 1]);
      var v, front := Judge(raw, m, cargo, raw[n - 1]), Verdicts(raw, m, cargo, n - 1);
      assert Verdicts(raw, m, cargo, n) == front + [v];
      ConservedSnoc(front, v, CountKind(raw, n - 1, Calls), CountKind(raw, n - 1, Imports));
    }
  }

  // ----- refinement -----

  /** Cargo metadata only takes edges away: what is kept under any classification is a subsequence
      of what is kept without one. */
  lemma {:induction false} CargoOnlyRemoves(raw: seq<RawEdge>, m: map<string, seq<string>>, cargo: Cargo)
    ensures Subsequence(KeptOf(Verdicts(raw, m, cargo, |raw|)), KeptOf(Verdicts(raw, m, NO_CARGO, |raw|)))
  {
    var a, b := Verdicts(raw, m, cargo, |raw|), Verdicts(raw, m, NO_CARGO, |raw|);
    forall i | 0 <= i < |raw| ensures a[i].Keep? ==> b[i] == a[i] {
    }
    KeptSubsequence(a, b);
  }
}
