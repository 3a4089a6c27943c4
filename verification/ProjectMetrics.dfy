/** The per-project breakdown of the accuracy report: the comparison under each project's prefix. */
module ProjectMetrics {
  import opened EdgeMetrics
  import opened Outcomes
  import opened Text

  datatype Row = Row(project: string, oracleCount: nat, measuredCount: nat, tp: nat, fp: nat, fn: nat, scores: Scores)

  function Prefix(project: string): string {
    project + "."
  }

  function Under(edges: seq<Edge>, prefix: string): (r: seq<Edge>)
    ensures forall e :: e in r <==> e in edges && prefix <= e.key.caller
    ensures |r| <= |edges|
  {
    if edges == [] then []
    else
      var front, e := Under(edges[..|edges| - 1], prefix), edges[|edges| - 1];
      assert edges == edges[..|edges| - 1] + [e];
      if prefix <= e.key.caller then front + [e] else front
  }

  function Comparing(oracle: seq<Edge>, measured: seq<Edge>, prefix: string): Comparison<Key> {
    var o, m := Under(oracle, prefix), Under(measured, prefix);
    Compare(InScope(Keys(o), Callers(o)), InScope(Keys(m), Callers(o)))
  }

  function RowOf(oracle: seq<Edge>, measured: seq<Edge>, project: string): Row {
    var c := Comparing(oracle, measured, Prefix(project));
    Row(project, |Under(oracle, Prefix(project))|, |Under(measured, Prefix(project))|, |c.tp|, |c.fp|, |c.fn|,
      ScoreOf(c))
  }

  method ComputeRow(oracle: seq<Edge>, measured: seq<Edge>, project: string) returns (row: Row)
    ensures row == RowOf(oracle, measured, project)
  {
    var prefix := Prefix(project);
    var o, m := Under(oracle, prefix), Under(measured, prefix);
    var oScoped, mScoped := InScope(Keys(o), Callers(o)), InScope(Keys(m), Callers(o));
    var tp, fp, fn := |oScoped * mScoped|, |mScoped - oScoped|, |oScoped - mScoped|;
    row := Row(project, |o|, |m|, tp, fp, fn, Score(tp, fp, fn));
  }

  /** One row per project, in their order. */
  function RowsOf(oracle: seq<Edge>, measured: seq<Edge>, projects: seq<string>): seq<Row> {
    if projects == [] then []
    else RowsOf(oracle, measured, projects[..|projects| - 1]) + [RowOf(oracle, measured, projects[|projects| - 1])]
  }

  lemma {:induction false} RowsStep(oracle: seq<Edge>, measured: seq<Edge>, projects: seq<string>, k: nat)
    requires k < |projects|
    ensures RowsOf(oracle, measured, projects[..k + 1])
         == RowsOf(oracle, measured, projects[..k]) + [RowOf(oracle, measured, projects[k])]
  {
    assert projects[..k + 1][..k] == projects[..k];
  }

  method ComputePerProjectMetrics(oracle: seq<Edge>, measured: seq<Edge>, projects: seq<string>)
      returns (rows: seq<Row>)
    ensures rows == RowsOf(oracle, measured, projects)
  {
    rows := [];
    for k := 0 to |projects|
      invariant rows == RowsOf(oracle, measured, projects[..k])
    {
      var row := ComputeRow(oracle, measured, projects[k]);
      RowsStep(oracle, measured, projects, k);
      rows := rows + [row];
    }
    assert projects[..|projects|] == projects;
  }

  // The columns of the rows, added up.

  function TotalTp(rows: seq<Row>): nat {
    if rows == [] then 0 else TotalTp(rows[..|rows| - 1]) + rows[|rows| - 1].tp
  }

  function TotalFp(rows: seq<Row>): nat {
    if rows == [] then 0 else TotalFp(rows[..|rows| - 1]) + rows[|rows| - 1].fp
  }

  function TotalFn(rows: seq<Row>): nat {
    if rows == [] then 0 else TotalFn(rows[..|rows| - 1]) + rows[|rows| - 1].fn
  }

  function Restricted(keys: set<Key>, prefix: string): set<Key> {
    set k | k in keys && prefix <= k.caller
  }

  /** A project's row is the exact comparison restricted to its callers, less the false positives of
      callers the oracle never analysed. */
  lemma {:induction false} RowIsRestriction(oracle: seq<Edge>, measured: seq<Edge>, prefix: string)
    ensures var exact, row := Exact(oracle, measured), Comparing(oracle, measured, prefix);
            && row.tp == Restricted(exact.tp, prefix)
            && row.fn == Restricted(exact.fn, prefix)
            && row.fp == Restricted(InScope(exact.fp, Callers(oracle)), prefix)
  {
    var o, m := Under(oracle, prefix), Under(measured, prefix);
    assert Keys(o) == Restricted(Keys(oracle), prefix);
    assert Keys(m) == Restricted(Keys(measured), prefix);
    assert forall k :: k in Keys(m) ==> (k.caller in Callers(o) <==> k.caller in Callers(oracle));
    assert InScope(Keys(o), Callers(o)) == Keys(o);
    var row := Comparing(oracle, measured, prefix);
    assert row.fp == Restricted(InScope(Exact(oracle, measured).fp, Callers(oracle)), prefix);
  }

  /** The caller is of the project: below its name and a dot. */
  ghost predicate CallerOf(caller: string, project: string) {
    exists rest :: caller == project + ['.'] + rest
  }

  lemma {:induction false} PrefixMeans(caller: string, project: string)
    ensures Prefix(project) <= caller <==> CallerOf(caller, project)
  {
    if Prefix(project) <= caller {
      assert caller == project + ['.'] + caller[|project| + 1..];
    }
  }

  lemma {:induction false} UnderCounts(edges: seq<Edge>, prefix: string)
    ensures |Under(edges, prefix)| == |Indices(edges, (e: Edge) => prefix <= e.key.caller)|
  {
    if edges == [] {
    } else {
      UnderCounts(edges[..|edges| - 1], prefix);
      IndicesSnoc(edges, (e: Edge) => prefix <= e.key.caller);
    }
  }

  /** The edges of the project, by position, and its keys. */
  ghost function EdgesOf(edges: seq<Edge>, project: string): set<int> {
    set i | 0 <= i < |edges| && CallerOf(edges[i].key.caller, project)
  }

  ghost function KeysOf(keys: set<Key>, project: string): set<Key> {
    set k | k in keys && CallerOf(k.caller, project)
  }

  /** A project's row counts its edges on both sides, and its keys that both, only one, or only the other has,
      of those only the measured side has no more than the oracle analysed the caller of. */
  lemma {:induction false} RowExactly(oracle: seq<Edge>, measured: seq<Edge>, project: string)
    ensures var row, o, m := RowOf(oracle, measured, project), Keys(oracle), Keys(measured);
      && row.project == project
      && row.oracleCount == |EdgesOf(oracle, project)| && row.measuredCount == |EdgesOf(measured, project)|
      && row.tp == |KeysOf(o * m, project)| && row.fn == |KeysOf(o - m, project)|
      && row.fp == |KeysOf(InScope(m - o, Callers(oracle)), project)|
      && row.scores == Score(row.tp, row.fp, row.fn)
  {
    forall caller ensures Prefix(project) <= caller <==> CallerOf(caller, project) {
      PrefixMeans(caller, project);
    }
    UnderCounts(oracle, Prefix(project));
    UnderCounts(measured, Prefix(project));
    assert EdgesOf(oracle, project) == Indices(oracle, (e: Edge) => Prefix(project) <= e.key.caller);
    assert EdgesOf(measured, project) == Indices(measured, (e: Edge) => Prefix(project) <= e.key.caller);
    RowIsRestriction(oracle, measured, Prefix(project));
    var exact := Exact(oracle, measured);
    assert KeysOf(exact.tp, project) == Restricted(exact.tp, Prefix(project));
    assert KeysOf(exact.fn, project) == Restricted(exact.fn, Prefix(project));
    var fp := InScope(exact.fp, Callers(oracle));
    assert KeysOf(fp, project) == Restricted(fp, Prefix(project));
  }

  /** No project's prefix extends another's. */
  predicate Apart(projects: seq<string>) {
    forall i, j :: 0 <= i < j < |projects| ==>
      !(Prefix(projects[i]) <= Prefix(projects[j])) && !(Prefix(projects[j]) <= Prefix(projects[i]))
  }

  predicate Belongs(k: Key, projects: seq<string>) {
    exists i :: 0 <= i < |projects| && Prefix(projects[i]) <= k.caller
  }

  function Covered(keys: set<Key>, projects: seq<string>): set<Key> {
    set k | k in keys && Belongs(k, projects)
  }

  /** The sizes of the projects' shares of these keys, added up. */
  function ShareSum(keys: set<Key>, projects: seq<string>): nat {
    if projects == [] then 0
    else ShareSum(keys, projects[..|projects| - 1]) + |Restricted(keys, Prefix(projects[|projects| - 1]))|
  }

  lemma {:induction false} BelongsSnoc(k: Key, projects: seq<string>, p: string)
    ensures Belongs(k, projects + [p]) <==> Belongs(k, projects) || Prefix(p) <= k.caller
  {
    var all := projects + [p];
    assert all[|projects|] == p && forall i :: 0 <= i < |projects| ==> all[i] == projects[i];
  }

  lemma {:induction false} NotMine(projects: seq<string>, k: Key)
    requires projects != [] && Apart(projects) && Prefix(projects[|projects| - 1]) <= k.caller
    ensures !Belongs(k, projects[..|projects| - 1])
  {
    forall i | 0 <= i < |projects| - 1 ensures !(Prefix(projects[i]) <= k.caller) {
    }
  }

  /** Projects that lie apart share out the keys they cover without counting any twice. */
  lemma {:induction false} SharesAddUp(keys: set<Key>, projects: seq<string>)
    requires Apart(projects)
    ensures ShareSum(keys, projects) == |Covered(keys, projects)|
    decreases |projects|
  {
    if projects == [] {
      assert Covered(keys, projects) == {};
    } else {
      var front, p := projects[..|projects| - 1], projects[|projects| - 1];
      assert projects == front + [p];
      SharesAddUp(keys, front);
      var mine := Restricted(keys, Prefix(p));
      forall k | k in keys ensures Belongs(k, projects) <==> Belongs(k, front) || Prefix(p) <= k.caller {
        BelongsSnoc(k, front, p);
      }
      forall k | k in mine ensures k !in Covered(keys, front) {
        NotMine(projects, k);
      }
      assert Covered(keys, projects) == Covered(keys, front) + mine;
      assert Covered(keys, front) * mine == {};
    }
  }

  lemma {:induction false} RowSizes(oracle: seq<Edge>, measured: seq<Edge>, project: string)
    ensures var exact, row := Exact(oracle, measured), RowOf(oracle, measured, project);
            && row.tp == |Restricted(exact.tp, Prefix(project))|
            && row.fn == |Restricted(exact.fn, Prefix(project))|
            && row.fp == |Restricted(InScope(exact.fp, Callers(oracle)), Prefix(project))|
  {
    RowIsRestriction(oracle, measured, Prefix(project));
  }

  lemma {:induction false} TotalsAreShares(oracle: seq<Edge>, measured: seq<Edge>, projects: seq<string>)
    ensures var exact, rows := Exact(oracle, measured), RowsOf(oracle, measured, projects);
            && TotalTp(rows) == ShareSum(exact.tp, projects)
            && TotalFn(rows) == ShareSum(exact.fn, projects)
            && TotalFp(rows) == ShareSum(InScope(exact.fp, Callers(oracle)), projects)
    decreases |projects|
  {
    if projects != [] {
      var front, p := projects[..|projects| - 1], projects[|projects| - 1];
      TotalsAreShares(oracle, measured, front);
      RowSizes(oracle, measured, p);
    }
  }

  /** The rows' totals: with projects that lie apart, the true positives and false negatives of all rows
      are those of the exact comparison that some project covers, each counted once. */
  lemma {:induction false} RowsAddUp(oracle: seq<Edge>, measured: seq<Edge>, projects: seq<string>)
    requires Apart(projects)
    ensures var exact, rows := Exact(oracle, measured), RowsOf(oracle, measured, projects);
            && TotalTp(rows) == |Covered(exact.tp, projects)|
            && TotalFn(rows) == |Covered(exact.fn, projects)|
            && TotalFp(rows) == |Covered(InScope(exact.fp, Callers(oracle)), projects)|
  {
    var exact := Exact(oracle, measured);
    SharesAddUp(exact.tp, projects);
    SharesAddUp(exact.fn, projects);
    SharesAddUp(InScope(exact.fp, Callers(oracle)), projects);
    TotalsAreShares(oracle, measured, projects);
  }
}
