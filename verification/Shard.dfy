/** From the selected rows to the repositories the run walks: the `by_repo` grouping of armC_retrieval.py. */
module Shard {
  import opened RetrievalArtifact
  import opened ShardRun
  import opened Resumption
  import opened RowsDecide

  predicate NonEmpty(groups: seq<seq<Row>>) {
    forall i | 0 <= i < |groups| :: groups[i] != []
  }

  /** `by_repo[row["repo"]].append(row)`. */
  function Append(groups: seq<seq<Row>>, row: Row): (r: seq<seq<Row>>)
    requires NonEmpty(groups)
    ensures NonEmpty(r)
  {
    if groups == [] then [[row]]
    else if groups[0][0].repo == row.repo then [groups[0] + [row]] + groups[1..]
    else [groups[0]] + Append(groups[1..], row)
  }

  function ByRepo(rows: seq<Row>): (r: seq<seq<Row>>)
    ensures NonEmpty(r)
  {
    if rows == [] then [] else Append(ByRepo(rows[..|rows| - 1]), rows[|rows| - 1])
  }

  /** The loop that fills the dictionary. */
  method GroupRows(rows: seq<Row>) returns (groups: seq<seq<Row>>)
    ensures groups == ByRepo(rows)
  {
    groups := [];
    for i := 0 to |rows|
      invariant groups == ByRepo(rows[..i])
    {
      assert rows[..i + 1][..i] == rows[..i];
      groups := Append(groups, rows[i]);
    }
    assert rows[..|rows|] == rows;
  }

  predicate DistinctRepos(groups: seq<seq<Row>>) {
    && NonEmpty(groups)
    && forall i, j | 0 <= i < j < |groups| :: groups[i][0].repo != groups[j][0].repo
  }

  predicate HasRepo(groups: seq<seq<Row>>, repo: string)
    requires NonEmpty(groups)
  {
    exists i :: 0 <= i < |groups| && groups[i][0].repo == repo
  }

  function OfRepo(rows: seq<Row>, repo: string): seq<Row> {
    if rows == [] then []
    else OfRepo(rows[..|rows| - 1], repo) + if rows[|rows| - 1].repo == repo then [rows[|rows| - 1]] else []
  }

  lemma {:induction false} AppendGroups(groups: seq<seq<Row>>, rows: seq<Row>, row: Row)
    requires DistinctRepos(groups)
    requires forall i | 0 <= i < |groups| :: groups[i] == OfRepo(rows, groups[i][0].repo)
    requires !HasRepo(groups, row.repo) ==> OfRepo(rows, row.repo) == []
    ensures var r := Append(groups, row);
      && DistinctRepos(r)
      && (forall i | 0 <= i < |r| :: r[i] == OfRepo(rows + [row], r[i][0].repo))
  {
    assert (rows + [row])[..|rows|] == rows;
    if groups == [] || groups[0][0].repo == row.repo {
    } else {
      var later: seq<seq<Row>>, tail: seq<seq<Row>> := groups[1..], Append(groups[1..], row);
      HasRepoSplit(groups, row.repo);
      AppendGroups(later, rows, row);
      assert !HasRepo(later, groups[0][0].repo) by {
        assert forall i | 0 <= i < |later| :: later[i] == groups[i + 1];
      }
      forall i | 0 <= i < |tail| ensures tail[i][0].repo != groups[0][0].repo {
        AppendRepos(later, row, tail[i][0].repo);
      }
    }
  }

  /** Appending adds at most the row's own repository and drops none. */
  lemma {:induction false} AppendRepos(groups: seq<seq<Row>>, row: Row, repo: string)
    requires NonEmpty(groups)
    ensures HasRepo(Append(groups, row), repo) <==> HasRepo(groups, repo) || repo == row.repo
  {
    var r: seq<seq<Row>> := Append(groups, row);
    if groups == [] {
      assert r[0][0] == row;
    } else {
      var rest: seq<seq<Row>> := groups[1..];
      HasRepoSplit(groups, repo);
      HasRepoSplit(r, repo);
      if groups[0][0].repo == row.repo {
        assert r[1..] == rest;
      } else {
        AppendRepos(rest, row, repo);
        assert r[1..] == Append(rest, row);
      }
    }
  }

  lemma {:induction false} HasRepoSplit(groups: seq<seq<Row>>, repo: string)
    requires NonEmpty(groups) && groups != []
    ensures HasRepo(groups, repo) <==> groups[0][0].repo == repo || HasRepo(groups[1..], repo)
  {
    if HasRepo(groups[1..], repo) {
      var i :| 0 <= i < |groups[1..]| && groups[1..][i][0].repo == repo;
      assert groups[i + 1][0].repo == repo;
    }
    if HasRepo(groups, repo) && groups[0][0].repo != repo {
      var i :| 0 <= i < |groups| && groups[i][0].repo == repo;
      assert groups[1..][i - 1][0].repo == repo;
    }
  }

  lemma {:induction false} OfRepoNone(rows: seq<Row>, repo: string)
    requires forall i | 0 <= i < |rows| :: rows[i].repo != repo
    ensures OfRepo(rows, repo) == []
  {
    if rows != [] {
      OfRepoNone(rows[..|rows| - 1], repo);
    }
  }

  lemma {:induction false} AppendMembers(groups: seq<seq<Row>>, row: Row, x: Row)
    requires NonEmpty(groups)
    ensures x in Flatten(Append(groups, row)) <==> x in Flatten(groups) || x == row
  {
    if groups != [] && groups[0][0].repo != row.repo {
      AppendMembers(groups[1..], row, x);
      assert Append(groups, row)[1..] == Append(groups[1..], row);
    } else if groups != [] {
      assert Append(groups, row)[1..] == groups[1..];
    } else {
      assert Flatten([[row]]) == [row] + Flatten([]);
    }
  }

  lemma {:induction false} DistinctConcat(a: seq<Row>, b: seq<Row>)
    ensures DistinctRows(a + b) <==>
      DistinctRows(a) && DistinctRows(b) && forall x, y | x in a && y in b :: x.id != y.id
  {
    var all := a + b;
    assert forall i | 0 <= i < |a| :: all[i] == a[i];
    assert forall j | 0 <= j < |b| :: all[|a| + j] == b[j];
    if DistinctRows(all) {
      forall x, y | x in a && y in b ensures x.id != y.id {
        var i :| 0 <= i < |a| && a[i] == x;
        var j :| 0 <= j < |b| && b[j] == y;
        assert all[i].id != all[|a| + j].id;
      }
    }
  }

  lemma {:induction false} FlattenDistinct(groups: seq<seq<Row>>, row: Row)
    requires NonEmpty(groups)
    requires DistinctRows(Flatten(groups)) && forall x | x in Flatten(groups) :: x.id != row.id
    ensures DistinctRows(Flatten(Append(groups, row)))
  {
    if groups == [] {
      assert Flatten([[row]]) == [row] + Flatten([]) == [row];
    } else {
      var tail := Flatten(groups[1..]);
      DistinctConcat(groups[0], tail);
      if groups[0][0].repo == row.repo {
        assert Append(groups, row)[1..] == groups[1..];
        DistinctConcat(groups[0], [row]);
        DistinctConcat(groups[0] + [row], tail);
      } else {
        FlattenDistinct(groups[1..], row);
        assert Append(groups, row)[1..] == Append(groups[1..], row);
        var rest := Flatten(Append(groups[1..], row));
        forall x, y | x in groups[0] && y in rest ensures x.id != y.id {
          AppendMembers(groups[1..], row, y);
        }
        DistinctConcat(groups[0], rest);
      }
    }
  }

  /** Grouping neither loses nor invents nor reorders rows within a repository, and visits every
      repository once. */
  lemma {:induction false} GroupingIsFaithful(rows: seq<Row>)
    requires DistinctRows(rows)
    ensures var groups := ByRepo(rows);
      && DistinctRepos(groups)
      && (forall i | 0 <= i < |groups| :: groups[i] == OfRepo(rows, groups[i][0].repo))
      && (forall row :: row in rows <==> row in Flatten(groups))
      && DistinctRows(Flatten(groups))
      && (forall i | 0 <= i < |rows| :: HasRepo(groups, rows[i].repo))
  {
    if rows == [] {
    } else {
      var front, last := rows[..|rows| - 1], rows[|rows| - 1];
      GroupingIsFaithful(front);
      var before: seq<seq<Row>>, groups: seq<seq<Row>> := ByRepo(front), ByRepo(rows);
      assert front + [last] == rows;
      if !HasRepo(before, last.repo) {
        OfRepoNone(front, last.repo);
      }
      AppendGroups(before, front, last);
      forall row ensures row in rows <==> row in Flatten(groups) {
        AppendMembers(before, last, row);
      }
      forall x | x in Flatten(before) ensures x.id != last.id {
        assert x in front;
      }
      FlattenDistinct(before, last);
      forall i | 0 <= i < |rows| ensures HasRepo(groups, rows[i].repo) {
        AppendRepos(before, last, rows[i].repo);
      }
    }
  }

  function ExpectedIds(rows: seq<Row>): seq<string> {
    seq(|rows|, i requires 0 <= i < |rows| => rows[i].id)
  }

  lemma {:induction false} OfRepoMembers(rows: seq<Row>, repo: string, row: Row)
    ensures row in OfRepo(rows, repo) <==> row in rows && row.repo == repo
  {
    if rows != [] {
      OfRepoMembers(rows[..|rows| - 1], repo, row);
      assert rows == rows[..|rows| - 1] + [rows[|rows| - 1]];
    }
  }

  lemma {:induction false} GroupingMakesGoodShards(rows: seq<Row>)
    requires DistinctRows(rows)
    ensures GoodShard(ByRepo(rows), ExpectedIds(rows))
  {
    GroupingIsFaithful(rows);
    MembersExpected(rows, Flatten(ByRepo(rows)));
  }

  lemma {:induction false} MembersExpected(rows: seq<Row>, all: seq<Row>)
    requires forall row :: row in rows <==> row in all
    ensures forall i | 0 <= i < |all| :: all[i].id in ExpectedIds(rows)
  {
    forall i | 0 <= i < |all| ensures all[i].id in ExpectedIds(rows) {
      assert all[i] in all && all[i] in rows;
      var j :| 0 <= j < |rows| && rows[j] == all[i];
      assert ExpectedIds(rows)[j] == all[i].id;
    }
  }

  // ----- what the rows must be like -----

  predicate PairIn(rows: seq<Row>, a: Row, b: Row) {
    exists i, j :: 0 <= i < j < |rows| && rows[i] == a && rows[j] == b
  }

  lemma {:induction false} PairSplit(rows: seq<Row>, a: Row, b: Row)
    requires rows != []
    ensures PairIn(rows, a, b) <==>
          PairIn(rows[..|rows| - 1], a, b) || (a in rows[..|rows| - 1] && b == rows[|rows| - 1])
  {
    var front := rows[..|rows| - 1];
    if i, j :| 0 <= i < j < |rows| && rows[i] == a && rows[j] == b {
      assert front[i] == a && (j < |front| ==> front[j] == b);
    }
    if i, j :| 0 <= i < j < |front| && front[i] == a && front[j] == b {
      assert rows[i] == a && rows[j] == b;
    }
    if i :| 0 <= i < |front| && front[i] == a {
      assert rows[i] == a;
    }
  }

  /** Rows keep their order within their repository. */
  lemma {:induction false} OfRepoPairs(rows: seq<Row>, repo: string, a: Row, b: Row)
    ensures PairIn(OfRepo(rows, repo), a, b) <==> PairIn(rows, a, b) && a.repo == b.repo == repo
  {
    if rows == [] {
    } else {
      var front, last := rows[..|rows| - 1], rows[|rows| - 1];
      var group := OfRepo(rows, repo);
      OfRepoPairs(front, repo, a, b);
      OfRepoMembers(front, repo, a);
      PairSplit(rows, a, b);
      if last.repo == repo {
        assert group[..|group| - 1] == OfRepo(front, repo);
        PairSplit(group, a, b);
      } else {
        assert group == OfRepo(front, repo);
      }
    }
  }

  /** No row clashes with an earlier one of its repository. */
  predicate NoClash(rows: seq<Row>) {
    forall i, j | 0 <= i < j < |rows| && rows[i].repo == rows[j].repo :: !Clash(rows[i], rows[j])
  }

  lemma {:induction false} ClashFreeGroup(rows: seq<Row>, group: seq<Row>, repo: string)
    requires NoClash(rows) && group == OfRepo(rows, repo)
    ensures ClashFree(group)
  {
    forall i, j | 0 <= i < j < |group| ensures !Clash(group[i], group[j]) {
      assert PairIn(group, group[i], group[j]);
      OfRepoPairs(rows, repo, group[i], group[j]);
    }
  }

  lemma {:induction false} ClashInGroup(rows: seq<Row>, group: seq<Row>, i: nat, j: nat)
    requires i < j < |rows| && rows[i].repo == rows[j].repo && Clash(rows[i], rows[j])
    requires group == OfRepo(rows, rows[i].repo)
    ensures !ClashFree(group)
  {
    assert PairIn(rows, rows[i], rows[j]);
    OfRepoPairs(rows, rows[i].repo, rows[i], rows[j]);
  }

  lemma {:induction false} ClashGrouped(rows: seq<Row>)
    requires DistinctRows(rows)
    ensures NoClash(rows) <==> forall g | 0 <= g < |ByRepo(rows)| :: ClashFree(ByRepo(rows)[g])
  {
    var groups: seq<seq<Row>> := ByRepo(rows);
    GroupingIsFaithful(rows);
    if NoClash(rows) {
      forall g | 0 <= g < |groups| ensures ClashFree(groups[g]) {
        ClashFreeGroup(rows, groups[g], groups[g][0].repo);
      }
    } else {
      var i, j :| 0 <= i < j < |rows| && rows[i].repo == rows[j].repo && Clash(rows[i], rows[j]);
      assert HasRepo(groups, rows[i].repo);
      var g :| 0 <= g < |groups| && groups[g][0].repo == rows[i].repo;
      ClashInGroup(rows, groups[g], i, j);
    }
  }

  lemma {:induction false} SpoilsGrouped(rows: seq<Row>, g: nat)
    requires DistinctRows(rows) && g < |ByRepo(rows)| && !SomeSpoils(rows)
    ensures !SomeSpoils(ByRepo(rows)[g])
  {
    var groups: seq<seq<Row>> := ByRepo(rows);
    GroupingIsFaithful(rows);
    forall i | 0 <= i < |groups[g]| ensures !Spoils(groups[g][i]) {
      OfRepoMembers(rows, groups[g][0].repo, groups[g][i]);
    }
  }

  /** The run over grouped rows resumes identically from every checkpoint, whatever the budget, if no row
      clashes with an earlier one of its repository; where no row is invalid, only then. */
  lemma {:induction false} ShardSurvivesKills(rows: seq<Row>)
    requires DistinctRows(rows)
    ensures NoClash(rows) ==> AlwaysResumes(ByRepo(rows))
    ensures AlwaysResumes(ByRepo(rows)) && !SomeSpoils(rows) ==> NoClash(rows)
  {
    var groups: seq<seq<Row>> := ByRepo(rows);
    GroupingMakesGoodShards(rows);
    RowsDecideResumption(groups, ExpectedIds(rows));
    ClashGrouped(rows);
    forall g | 0 <= g < |groups| ensures ClashFree(groups[g]) ==> !Breaks(groups[g])
                                 ensures Resumable(groups) && !SomeSpoils(rows) ==> ClashFree(groups[g])
    {
      ClashFreeGroups(groups[g]);
      if !SomeSpoils(rows) {
        SpoilsGrouped(rows, g);
        assert Resumable(groups) ==> !Breaks(groups[g]) by {
          forall k | 0 <= k < g ensures !SomeSpoils(groups[k]) {
            SpoilsGrouped(rows, k);
          }
        }
      }
    }
  }
}
