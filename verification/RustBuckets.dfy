/** Which counter a raw edge goes to in the Rust resolver, on the definitions and the imports themselves. */
module RustBuckets {
  import opened Outcomes
  import opened Text
  import opened CallEdges
  import opened RustResolver

  // ----- definitions -----

  /** The definition's last segment is this name. */
  ghost predicate Ends(d: string, name: string) {
    name != "" && LastPart(d, '.', name)
  }

  ghost predicate NoneEnds(defs: seq<string>, name: string) {
    forall i | 0 <= i < |defs| :: !Ends(defs[i], name)
  }

  ghost predicate TwoEnd(defs: seq<string>, name: string) {
    exists i, j :: 0 <= i < j < |defs| && Ends(defs[i], name) && Ends(defs[j], name)
  }

  lemma {:induction false} EndsIsLabel(d: string, name: string)
    ensures LastSegment()(d) == Some(name) <==> Ends(d, name)
  {
    LastMeans(d, '.', name);
  }

  lemma {:induction false} CandidateSize(defs: seq<string>, m: map<string, seq<string>>, name: string)
    requires Indexes(m, defs, LastSegment())
    ensures |Candidates(m, name)| == 0 <==> NoneEnds(defs, name)
    ensures |Candidates(m, name)| >= 2 <==> TwoEnd(defs, name)
  {
    LabelledSize(defs, LastSegment(), name);
    forall d ensures LastSegment()(d) == Some(name) <==> Ends(d, name) {
      EndsIsLabel(d, name);
    }
  }

  /** `Type.method`, at the end of a longer name or by itself. */
  ghost predicate MethodOf(d: string, typeName: string, method_: string) {
    method_ != "" && LastParts(d, '.', typeName, method_)
  }

  lemma {:induction false} MethodIsScoped(defs: seq<string>, m: map<string, seq<string>>, typeName: string,
          method_: string, d: string)
    requires Indexes(m, defs, LastSegment())
    ensures d in Scoped(Candidates(m, method_), typeName) <==> d in defs && MethodOf(d, typeName, method_)
  {
    LabelledMembers(defs, LastSegment(), method_, d);
    LastTwoMean(d, '.', typeName, method_);
    ScopedMember(Candidates(m, method_), typeName, d);
  }

  lemma {:induction false} ScopedMember(candidates: seq<string>, typeName: string, d: string)
    ensures d in Scoped(candidates, typeName) <==> d in candidates && ParentIs(d, typeName)
  {
    if d in candidates {
      var i :| 0 <= i < |candidates| && candidates[i] == d;
    }
  }

  ghost predicate TwoMethods(defs: seq<string>, typeName: string, method_: string) {
    exists c, d :: c in defs && d in defs && c != d && MethodOf(c, typeName, method_) && MethodOf(d, typeName, method_)
  }

  lemma {:induction false} SetSize(s: set<string>)
    ensures |s| == 0 <==> forall d :: d !in s
    ensures |s| >= 2 <==> exists c, d :: c in s && d in s && c != d
  {
    if |s| == 1 {
      var x :| x in s;
      assert |s - {x}| == 0;
      assert forall d | d in s :: d == x || d in s - {x};
    } else if |s| >= 2 {
      var x :| x in s;
      assert |s - {x}| >= 1;
      var y :| y in s - {x};
    }
  }

  lemma {:induction false} ScopedSize(defs: seq<string>, m: map<string, seq<string>>, typeName: string, method_: string)
    requires Indexes(m, defs, LastSegment())
    ensures |Scoped(Candidates(m, method_), typeName)| == 0 <==> forall d | d in defs :: !MethodOf(d, typeName, method_)
    ensures |Scoped(Candidates(m, method_), typeName)| >= 2 <==> TwoMethods(defs, typeName, method_)
  {
    forall d ensures d in Scoped(Candidates(m, method_), typeName) <==> d in defs && MethodOf(d, typeName, method_) {
      MethodIsScoped(defs, m, typeName, method_, d);
    }
    SetSize(Scoped(Candidates(m, method_), typeName));
  }

  // ----- external names -----

  /** With dashes read as underscores the crate is external and not of the workspace. */
  ghost predicate Foreign(root: string, cargo: Cargo) {
    root != "" && exists norm | norm in cargo.external && norm !in cargo.workspace :: Underscored(root, norm)
  }

  predicate Underscored(root: string, norm: string) {
    |norm| == |root| && forall i | 0 <= i < |root| :: norm[i] == if root[i] == '-' then '_' else root[i]
  }

  lemma {:induction false} ForeignIsExternal(root: string, cargo: Cargo)
    ensures External(root, cargo) <==> Foreign(root, cargo)
  {
    assert Underscored(root, ReplaceChar(root, '-', '_'));
    forall norm | Underscored(root, norm) ensures norm == ReplaceChar(root, '-', '_') {
    }
  }

  /** The edge imports `root.….name` into the module. */
  ghost predicate Brings(e: RawEdge, mod: string, root: string, name: string) {
    && e.kind.Imports? && e.from == mod && mod != "" && root != "" && name != ""
    && '.' !in root && (exists rest :: e.to == root + ['.'] + rest) && LastPart(e.to, '.', name)
  }

  lemma {:induction false} BringsIsUsable(e: RawEdge, mod: string, root: string, name: string)
    ensures Brings(e, mod, root, name) <==>
              UsableImport(e) && e.from == mod && Split(e.to, '.')[0] == root && Last(Split(e.to, '.')) == name
  {
    LastMeans(e.to, '.', name);
    if rest :| '.' !in root && e.to == root + ['.'] + rest {
      SplitAppend(root, '.', rest);
      assert e.to[|root|] == '.';
    }
    if '.' in e.to && Split(e.to, '.')[0] == root {
      var i := IndexOf(e.to, '.');
      CutAt(e.to, i);
    }
  }

  ghost predicate Importing(raw: seq<RawEdge>, mod: string) {
    exists i, root, name :: 0 <= i < |raw| && Brings(raw[i], mod, root, name)
  }

  lemma {:induction false} ModulesImport(raw: seq<RawEdge>, mod: string)
    ensures mod in Modules(raw) <==> Importing(raw, mod)
  {
    if mod in Modules(raw) {
      var i :| 0 <= i < |raw| && UsableImport(raw[i]) && raw[i].from == mod;
      BringsIsUsable(raw[i], mod, Split(raw[i].to, '.')[0], Last(Split(raw[i].to, '.')));
    }
    if i, root, name :| 0 <= i < |raw| && Brings(raw[i], mod, root, name) {
      BringsIsUsable(raw[i], mod, root, name);
    }
  }

  /** The module's last import of the name is from this root. */
  ghost predicate LastBrings(raw: seq<RawEdge>, mod: string, name: string, root: string) {
    exists i :: 0 <= i < |raw| && Brings(raw[i], mod, root, name) && NoneBrings(raw[i + 1..], mod, name)
  }

  ghost predicate NoneBrings(raw: seq<RawEdge>, mod: string, name: string) {
    forall j, root | 0 <= j < |raw| :: !Brings(raw[j], mod, root, name)
  }

  lemma {:induction false} NoneBringsSnoc(raw: seq<RawEdge>, e: RawEdge, mod: string, name: string)
    ensures NoneBrings(raw + [e], mod, name) <==>
              NoneBrings(raw, mod, name) && forall root :: !Brings(e, mod, root, name)
  {
    var more := raw + [e];
    assert more[|raw|] == e && forall j | 0 <= j < |raw| :: more[j] == raw[j];
  }

  lemma {:induction false} LastBringsSnoc(raw: seq<RawEdge>, e: RawEdge, mod: string, name: string, root: string)
    ensures LastBrings(raw + [e], mod, name, root) <==>
              Brings(e, mod, root, name)
              || (LastBrings(raw, mod, name, root) && forall other :: !Brings(e, mod, other, name))
  {
    var more, n := raw + [e], |raw|;
    assert more[n] == e && more[n + 1..] == [];
    forall i | 0 <= i < n
      ensures more[i] == raw[i]
      ensures NoneBrings(more[i + 1..], mod, name)
          <==> NoneBrings(raw[i + 1..], mod, name) && forall other :: !Brings(e, mod, other, name)
    {
      assert more[i + 1..] == raw[i + 1..] + [e];
      NoneBringsSnoc(raw[i + 1..], e, mod, name);
    }
    if Brings(e, mod, root, name) {
      assert NoneBrings(more[n + 1..], mod, name);
    }
  }

  lemma {:induction false} ImportRootIsLast(raw: seq<RawEdge>, mod: string, name: string, root: string)
    ensures ImportRoot(raw, mod, name) == Some(root) <==> LastBrings(raw, mod, name, root)
  {
    if raw == [] {
    } else {
      var front, e := raw[..|raw| - 1], raw[|raw| - 1];
      assert raw == front + [e];
      LastBringsSnoc(front, e, mod, name, root);
      ImportRootIsLast(front, mod, name, root);
      OnlyRoot(e, mod, name);
      if UsableImport(e) && e.from == mod && Last(Split(e.to, '.')) == name {
        assert Brings(e, mod, Split(e.to, '.')[0], name);
      }
    }
  }

  /** An edge brings a name into a module from its first part or not at all. */
  lemma {:induction false} OnlyRoot(e: RawEdge, mod: string, name: string)
    ensures var usable := UsableImport(e) && e.from == mod && Last(Split(e.to, '.')) == name;
      forall root :: Brings(e, mod, root, name) <==> usable && root == Split(e.to, '.')[0]
  {
    forall root
      ensures Brings(e, mod, root, name) <==>
                UsableImport(e) && e.from == mod && Last(Split(e.to, '.')) == name && root == Split(e.to, '.')[0]
    {
      BringsIsUsable(e, mod, root, name);
    }
  }

  /** The innermost enclosing module of the caller that imports anything. */
  ghost predicate Encloses(raw: seq<RawEdge>, caller: string, mod: string) {
    exists k :: 1 <= k <= |Split(caller, '.')| && EnclosesAt(raw, Split(caller, '.'), k, mod)
  }

  ghost predicate EnclosesAt(raw: seq<RawEdge>, parts: seq<string>, k: nat, mod: string)
    requires k <= |parts|
  {
    && mod == Join(parts[..k], '.') && Importing(raw, mod)
    && forall j | k < j <= |parts| :: !Importing(raw, Join(parts[..j], '.'))
  }

  lemma {:induction false} EnclosingIsLongest(raw: seq<RawEdge>, caller: string, mod: string)
    ensures Encloses(raw, caller, mod) <==> mod != "" && LongestModule(Split(caller, '.'), Modules(raw)) == mod
  {
    var parts, modules := Split(caller, '.'), Modules(raw);
    forall x ensures x in modules <==> Importing(raw, x) {
      ModulesImport(raw, x);
    }
    assert "" !in modules;
    LongestModuleIsLongest(parts, modules);
    var longest := LongestModule(parts, modules);
    if longest != "" {
      var k :| 1 <= k <= |parts| && LongestAt(parts, k, longest, modules);
      assert EnclosesAt(raw, parts, k, longest);
    }
    if l :| 1 <= l <= |parts| && EnclosesAt(raw, parts, l, mod) {
      assert Join(parts[..l], '.') in modules;
      var k :| 1 <= k <= |parts| && LongestAt(parts, k, longest, modules);
      assert Join(parts[..k], '.') in modules;
      assert l == k;
    }
  }

  /** The caller's innermost importing module has the called name from a foreign crate. */
  ghost predicate ImportedForeign(raw: seq<RawEdge>, e: RawEdge, cargo: Cargo) {
    exists mod, root :: Encloses(raw, e.from, mod) && LastBrings(raw, mod, e.to, root) && Foreign(root, cargo)
  }

  ghost predicate ChainForeign(e: RawEdge, cargo: Cargo) {
    e.chainRoot.Some? && Foreign(e.chainRoot.value, cargo)
  }

  lemma {:induction false} ImportedIsExternal(raw: seq<RawEdge>, e: RawEdge, cargo: Cargo)
    ensures ExternalImport(raw, e, cargo) <==> ImportedForeign(raw, e, cargo)
  {
    var longest := LongestModule(Split(e.from, '.'), Modules(raw));
    forall mod ensures Encloses(raw, e.from, mod) <==> mod != "" && longest == mod {
      EnclosingIsLongest(raw, e.from, mod);
    }
    forall root
      ensures ImportRoot(raw, longest, e.to) == Some(root) <==> LastBrings(raw, longest, e.to, root)
      ensures External(root, cargo) <==> Foreign(root, cargo)
    {
      ImportRootIsLast(raw, longest, e.to, root);
      ForeignIsExternal(root, cargo);
    }
    if ExternalImport(raw, e, cargo) {
      assert LastBrings(raw, longest, e.to, ImportRoot(raw, longest, e.to).value);
    }
  }

  // ----- the counters -----

  /** A bare call that is not known to leave the workspace. */
  ghost predicate InternalBare(raw: seq<RawEdge>, cargo: Cargo, e: RawEdge) {
    e.kind.Calls? && '.' !in e.to && !ChainForeign(e, cargo) && !ImportedForeign(raw, e, cargo)
  }

  /** Every bare call goes to the counter of its definitions, unless its chain or its import is foreign. */
  lemma {:induction false} BareBuckets(raw: seq<RawEdge>, defs: seq<string>, m: map<string, seq<string>>, cargo: Cargo,
          e: RawEdge)
    requires Indexes(m, defs, LastSegment())
    ensures var v := Judge(raw, m, cargo, e);
      && (v == Drop(MethodExternalChain) <==> e.kind.Calls? && '.' !in e.to && ChainForeign(e, cargo))
      && (v == Drop(BareImportedExternal) <==>
            e.kind.Calls? && '.' !in e.to && !ChainForeign(e, cargo) && ImportedForeign(raw, e, cargo))
      && (v == Drop(BareUnresolved) <==> InternalBare(raw, cargo, e) && NoneEnds(defs, e.to))
      && (v == Drop(BareAmbiguous) <==> InternalBare(raw, cargo, e) && TwoEnd(defs, e.to))
      && (v.Keep? && v.bucket == BareResolved <==>
            InternalBare(raw, cargo, e) && !NoneEnds(defs, e.to) && !TwoEnd(defs, e.to))
      && (v.Keep? && v.bucket == BareResolved ==> Targets(v.edge, e) && v.edge.to in defs && Ends(v.edge.to, e.to))
  {
    if |Candidates(m, e.to)| == 1 {
      LabelledMembers(defs, LastSegment(), e.to, Candidates(m, e.to)[0]);
      EndsIsLabel(Candidates(m, e.to)[0], e.to);
    }
    BareByTable(raw, m, cargo, e);
    ChainIsExternal(e, cargo);
    ImportedIsExternal(raw, e, cargo);
    CandidateSize(defs, m, e.to);
  }

  lemma {:induction false} ChainIsExternal(e: RawEdge, cargo: Cargo)
    ensures ExternalChain(e, cargo) <==> ChainForeign(e, cargo)
  {
    if e.chainRoot.Some? {
      ForeignIsExternal(e.chainRoot.value, cargo);
    }
  }

  /** The same in terms of the table. */
  lemma {:induction false} BareByTable(raw: seq<RawEdge>, m: map<string, seq<string>>, cargo: Cargo, e: RawEdge)
    ensures var v, bare, n := Judge(raw, m, cargo, e), e.kind.Calls? && '.' !in e.to, |Candidates(m, e.to)|;
      var chain, imported := ExternalChain(e, cargo), ExternalImport(raw, e, cargo);
      && (v == Drop(MethodExternalChain) <==> bare && chain)
      && (v == Drop(BareImportedExternal) <==> bare && !chain && imported)
      && (v == Drop(BareUnresolved) <==> bare && !chain && !imported && n == 0)
      && (v == Drop(BareAmbiguous) <==> bare && !chain && !imported && n >= 2)
      && (v.Keep? && v.bucket == BareResolved <==> bare && !chain && !imported && n == 1)
      && (v.Keep? && v.bucket == BareResolved ==> Targets(v.edge, e) && v.edge.to == Candidates(m, e.to)[0])
  {
  }

  /** The call is written `typeName.….method_`. */
  ghost predicate ScopedCall(e: RawEdge, typeName: string, method_: string) {
    && e.kind.Calls? && '.' !in typeName && LastPart(e.to, '.', method_)
    && exists rest :: e.to == typeName + ['.'] + rest
  }

  /** Every scoped call goes to the counter of the methods of that name in that type. */
  lemma {:induction false} ScopedBuckets(raw: seq<RawEdge>, defs: seq<string>, m: map<string, seq<string>>,
          cargo: Cargo, e: RawEdge, typeName: string, method_: string)
    requires Indexes(m, defs, LastSegment()) && ScopedCall(e, typeName, method_)
    ensures var v := Judge(raw, m, cargo, e);
      && (v == Drop(ScopedExternal) <==> forall d | d in defs :: !MethodOf(d, typeName, method_))
      && (v == Drop(ScopedAmbiguous) <==> TwoMethods(defs, typeName, method_))
      && (v.Keep? && v.bucket == ScopedResolved <==>
            (exists d :: d in defs && MethodOf(d, typeName, method_)) && !TwoMethods(defs, typeName, method_))
      && (v.Keep? ==> Targets(v.edge, e) && v.edge.to in defs && MethodOf(v.edge.to, typeName, method_))
  {
    var rest :| e.to == typeName + ['.'] + rest;
    SplitAppend(typeName, '.', rest);
    assert e.to[|typeName|] == '.';
    LastMeans(e.to, '.', method_);
    ScopedSize(defs, m, typeName, method_);
    forall d ensures d in Scoped(Candidates(m, method_), typeName) <==> d in defs && MethodOf(d, typeName, method_) {
      MethodIsScoped(defs, m, typeName, method_, d);
    }
  }

  /** A dotted call is a scoped call of one type and one method. */
  lemma {:induction false} DottedIsScoped(e: RawEdge) returns (typeName: string, method_: string)
    requires e.kind.Calls? && '.' in e.to
    ensures ScopedCall(e, typeName, method_)
  {
    typeName, method_ := Split(e.to, '.')[0], Last(Split(e.to, '.'));
    LastMeans(e.to, '.', method_);
    CutAt(e.to, IndexOf(e.to, '.'));
  }
}
