/** Which shards resume identically whatever the budget, read off the rows. */
module RowsDecide {
  import opened Outcomes
  import opened RetrievalArtifact
  import opened ShardRun
  import opened Resumption

  // ----- the condition -----

  /** A later row of the same repository, recorded once the earlier one has been, would fare otherwise in a
      run that starts between the two: the earlier one was cloned, and bailed out, or the later one cannot
      be cloned, does not fit, cannot be checked out, or is indexed otherwise from scratch than on top. */
  predicate Clash(earlier: Row, row: Row) {
    && earlier.cloneOk
    && (|| earlier.tooLarge || row.tooLarge || !row.cloneOk || !row.checkoutOk
        || (earlier.full.Indexed? && row.full != row.incremental))
  }

  /** The row records an invalid experiment when it is tried. */
  predicate Spoils(row: Row) {
    Try(row, FRESH).case_.failure == InvalidExperiment
  }

  predicate SomeSpoils(group: seq<Row>) {
    exists i :: 0 <= i < |group| && Spoils(group[i])
  }

  /** The i-th row clashes with an earlier one, and no row before it ends the run. */
  predicate ClashesAt(group: seq<Row>, i: nat)
    requires i < |group|
  {
    && (exists j :: 0 <= j < i && Clash(group[j], group[i]))
    && !SomeSpoils(group[..i])
  }

  predicate Breaks(group: seq<Row>) {
    exists i :: 0 <= i < |group| && ClashesAt(group, i)
  }

  /** Rows of which none clashes with an earlier one. */
  predicate ClashFree(group: seq<Row>) {
    forall i, j | 0 <= i < j < |group| :: !Clash(group[i], group[j])
  }

  lemma {:induction false} ClashFreeGroups(group: seq<Row>)
    ensures ClashFree(group) ==> !Breaks(group)
    ensures !Breaks(group) && !SomeSpoils(group) ==> ClashFree(group)
  {
    if !Breaks(group) && !SomeSpoils(group) {
      forall i, j | 0 <= i < j < |group| ensures !Clash(group[i], group[j]) {
        assert forall k | 0 <= k < j :: group[..j][k] == group[k];
        assert !ClashesAt(group, j);
      }
    }
  }

  /** Every breaking repository stands behind one with an invalid row. */
  predicate Resumable(groups: seq<seq<Row>>) {
    forall i | 0 <= i < |groups| && Breaks(groups[i]) :: exists k :: 0 <= k < i && SomeSpoils(groups[k])
  }

  // ----- the same, row by row as the run goes -----

  /** What the flags say about the rows before: a clash with one of them. */
  predicate ClashesBefore(repo: RepoState, row: Row) {
    && repo.cloned
    && (row.tooLarge || !row.cloneOk || !row.checkoutOk || (!repo.firstInRepo && row.full != row.incremental))
  }

  predicate StraysAt(group: seq<Row>, repo: RepoState, i: nat)
    requires i < |group|
  {
    && (ClashesBefore(repo, group[i]) || exists j :: 0 <= j < i && Clash(group[j], group[i]))
    && !SomeSpoils(group[..i])
  }

  /** Some row on the way is shifted or lost. */
  predicate Strays(group: seq<Row>, repo: RepoState) {
    if group == [] then false
    else
      var a := Try(group[0], repo);
      || a.case_ != Try(group[0], FRESH).case_
      || (a.bail && |group| > 1)
      || (!Spoils(group[0]) && Strays(group[1..], a.repo))
  }

  /** The first row is shifted exactly when it clashes with what was done before. */
  lemma {:induction false} ShiftedExactly(row: Row, repo: RepoState)
    requires FlagsFit(repo)
    ensures Try(row, repo).case_ != Try(row, FRESH).case_ <==> ClashesBefore(repo, row)
  {
    if repo.cloned && !row.cloneOk {
      assert |"clone_failed"| != |"checkout_failed"| && |"clone_failed"| != |"retrieval_error"|;
    }
    if repo.cloned && !row.checkoutOk {
      assert |"checkout_failed"| == |"retrieval_error"| && "checkout_failed"[0] != "retrieval_error"[0];
    }
  }

  lemma {:induction false} SpoilsTail(group: seq<Row>, i: nat)
    requires 0 < i <= |group|
    ensures SomeSpoils(group[..i]) <==> Spoils(group[0]) || SomeSpoils(group[1..][..i - 1])
  {
    var front, later := group[..i], group[1..][..i - 1];
    assert forall k | 0 < k < i :: front[k] == later[k - 1];
    assert front[0] == group[0];
  }

  /** Past a row that is neither shifted nor lost, its clashes are those its flags leave behind. */
  lemma {:induction false} StraysLater(group: seq<Row>, repo: RepoState, i: nat)
    requires group != [] && FlagsFit(repo) && !ClashesBefore(repo, group[0]) && !Try(group[0], repo).bail
    requires 0 < i < |group|
    ensures StraysAt(group, repo, i) <==> !Spoils(group[0]) && StraysAt(group[1..], Try(group[0], repo).repo, i - 1)
  {
    var later, row := group[1..], group[i];
    SpoilsTail(group, i);
    assert later[i - 1] == row && forall j | 0 < j < i :: group[j] == later[j - 1];
    var a := Try(group[0], repo);
    assert ClashesBefore(a.repo, row) <==> ClashesBefore(repo, row) || Clash(group[0], row);
    if j :| 0 < j < i && Clash(group[j], row) {
      assert Clash(later[j - 1], row);
    }
    if j :| 0 <= j < i - 1 && Clash(later[j], row) {
      assert Clash(group[j + 1], row);
    }
  }

  lemma {:induction false} StraysExactly(group: seq<Row>, repo: RepoState)
    requires FlagsFit(repo)
    ensures Strays(group, repo) <==> exists i :: 0 <= i < |group| && StraysAt(group, repo, i)
  {
    if group == [] {
    } else {
      var row, a := group[0], Try(group[0], repo);
      ShiftedExactly(row, repo);
      assert group[..0] == [];
      if ClashesBefore(repo, row) {
        assert StraysAt(group, repo, 0);
      } else if a.bail {
        BailStrays(group, repo);
      } else {
        StraysExactly(group[1..], a.repo);
        assert !StraysAt(group, repo, 0);
        forall i | 0 < i < |group|
          ensures StraysAt(group, repo, i) <==> !Spoils(row) && StraysAt(group[1..], a.repo, i - 1)
        {
          StraysLater(group, repo, i);
        }
        if Strays(group, repo) {
          var i :| 0 <= i < |group[1..]| && StraysAt(group[1..], a.repo, i);
          assert StraysAt(group, repo, i + 1);
        }
      }
    }
  }

  /** A bail-out strays exactly when another row follows. */
  lemma {:induction false} BailStrays(group: seq<Row>, repo: RepoState)
    requires group != [] && FlagsFit(repo) && Try(group[0], repo).bail
    ensures Strays(group, repo) <==> exists i :: 0 <= i < |group| && StraysAt(group, repo, i)
  {
    var row := group[0];
    if |group| > 1 {
      assert group[..1] == [row];
      assert Clash(group[0], group[1]);
      assert StraysAt(group, repo, 1);
    }
  }

  lemma {:induction false} BreaksExactly(group: seq<Row>)
    ensures Strays(group, FRESH) <==> Breaks(group)
  {
    StraysExactly(group, FRESH);
    assert forall i | 0 <= i < |group| :: StraysAt(group, FRESH, i) <==> ClashesAt(group, i);
  }

  predicate Safe(groups: seq<seq<Row>>) {
    groups == [] || (!Strays(groups[0], FRESH) && (SomeSpoils(groups[0]) || Safe(groups[1..])))
  }

  /** The recursive check is the condition on repositories and their predecessors. */
  lemma {:induction false} SafeMeans(groups: seq<seq<Row>>)
    ensures Safe(groups) <==> Resumable(groups)
  {
    if groups == [] {
    } else {
      var later := groups[1..];
      BreaksExactly(groups[0]);
      SafeMeans(later);
      assert forall i | 0 <= i < |later| :: later[i] == groups[i + 1];
      if !Breaks(groups[0]) && !SomeSpoils(groups[0]) {
        if Resumable(later) {
          forall i | 0 <= i < |groups| && Breaks(groups[i]) ensures exists k :: 0 <= k < i && SomeSpoils(groups[k]) {
            assert later[i - 1] == groups[i];
            var k :| 0 <= k < i - 1 && SomeSpoils(later[k]);
            assert SomeSpoils(groups[k + 1]);
          }
        }
        if Resumable(groups) {
          forall i | 0 <= i < |later| && Breaks(later[i]) ensures exists k :: 0 <= k < i && SomeSpoils(later[k]) {
            assert Breaks(groups[i + 1]);
            var k :| 0 <= k < i + 1 && SomeSpoils(groups[k]);
            assert SomeSpoils(later[k - 1]);
          }
        }
      }
    }
  }

  predicate SafeFrom(c: Cursor) {
    !Strays(c.group, c.repo) && (SomeSpoils(c.group) || Safe(c.rest))
  }

  // ----- safe shards never lose or shift a row -----

  lemma {:induction false} SomeSpoilsTail(group: seq<Row>)
    requires group != []
    ensures SomeSpoils(group) <==> Spoils(group[0]) || SomeSpoils(group[1..])
  {
    SpoilsTail(group, |group|);
    assert group[..|group|] == group && group[1..][..|group| - 1] == group[1..];
  }

  lemma {:induction false} SafeSurvives(c: Cursor, budget: int)
    requires c.aborted.NotAborted? ==> SafeFrom(c)
    ensures Survives(c, {}, budget)
    decreases |c.rest|, |c.group|, c.aborted.NotAborted?
  {
    if Finished(c) {
    } else {
      if c.group != [] {
        SomeSpoilsTail(c.group);
      }
      SafeSurvives(Step(c, {}, budget), budget);
    }
  }

  // ----- unsafe shards do, given the budget -----

  function Price(row: Row): (p: int)
    ensures p >= 0
  {
    TotalOf(Try(row, FRESH).case_)
  }

  function Prices(rows: seq<Row>): (p: int)
    ensures p >= 0
  {
    if rows == [] then 0 else Price(rows[0]) + Prices(rows[1..])
  }

  function AllPrices(groups: seq<seq<Row>>): (p: int)
    ensures p >= 0
  {
    if groups == [] then 0 else Prices(groups[0]) + AllPrices(groups[1..])
  }

  lemma {:induction false} UnsafeFails(c: Cursor, budget: int)
    requires c.aborted.NotAborted? && !SafeFrom(c)
    requires Total(c.cases) + Prices(c.group) + AllPrices(c.rest) < budget
    ensures !Survives(c, {}, budget)
    decreases |c.rest|, |c.group|
  {
    if c.group != [] {
      SomeSpoilsTail(c.group);
      TotalSnoc(c.cases, Try(c.group[0], FRESH).case_);
      if |c.group| > 1 {
        assert c.group[1].id !in {};
      }
    }
    if !LosesRows(c, {}, budget) && !Shifts(c, {}, budget) {
      UnsafeFails(Step(c, {}, budget), budget);
    }
  }

  // ----- the theorem -----

  /** Resuming reproduces the undisturbed run at every checkpoint and for every budget. */
  ghost predicate AlwaysResumes(groups: seq<seq<Row>>) {
    forall budget, k: nat | Loadable(groups, budget, k) ::
      OutcomeOf(ResumeFrom(groups, budget, k)) == OutcomeOf(Run(groups, [], budget))
  }

  /** That is so exactly when every repository in which a row clashes with an earlier one stands behind an
      invalid row. */
  lemma {:induction false} RowsDecideResumption(groups: seq<seq<Row>>, expected: seq<string>)
    requires GoodShard(groups, expected)
    ensures AlwaysResumes(groups) <==> Resumable(groups)
  {
    var begin := Begin(groups, []);
    SafeMeans(groups);
    if Safe(groups) {
      forall budget, k: nat | Loadable(groups, budget, k)
        ensures OutcomeOf(ResumeFrom(groups, budget, k)) == OutcomeOf(Run(groups, [], budget))
      {
        SafeSurvives(begin, budget);
        ResumesExactly(groups, budget, expected);
      }
    } else {
      var budget := AllPrices(groups) + 1;
      UnsafeFails(begin, budget);
      ResumesExactly(groups, budget, expected);
    }
  }

  // ----- two rows of one repository -----

  /** For two rows of a repository the condition is the clash itself, unless the first is invalid. */
  lemma {:induction false} PairResumesExactly(a: Row, b: Row)
    requires a.id != b.id
    ensures AlwaysResumes([[a, b]]) <==> Spoils(a) || !Clash(a, b)
  {
    var group, expected := [a, b], [a.id, b.id];
    assert Flatten([group]) == group + Flatten([]) == group;
    RowsDecideResumption([group], expected);
    assert group[..1] == [a] && (SomeSpoils([a]) <==> Spoils(a)) by { assert [a][0] == a; }
    assert ClashesAt(group, 1) <==> Clash(a, b) && !Spoils(a);
    forall i | 0 <= i < |group| ensures ClashesAt(group, i) ==> i == 1 {
      if ClashesAt(group, i) {
        var j :| 0 <= j < i && Clash(group[j], group[i]);
      }
    }
    assert [group][0] == group;
  }

  lemma {:induction false} PairUndisturbed(a: Row, b: Row, budget: int)
    requires a.cloneOk && !a.tooLarge && !Spoils(a) && Price(a) < budget
    ensures Run([[a, b]], [], budget).cases == [Try(a, FRESH).case_, Try(b, Try(a, FRESH).repo).case_]
  {
    var first := Try(a, FRESH);
    var c0 := Cursor([a, b], [], FRESH, [], NotAborted);
    var c1 := Cursor([b], [], first.repo, [first.case_], NotAborted);
    assert Ids([]) == {} && [] + [first.case_] == [first.case_];
    assert Step(Begin([[a, b]], []), {}, budget) == c0 && Step(c0, {}, budget) == c1;
    assert [first.case_][..0] == [] && Total([first.case_]) == Price(a);
    var c2 := Step(c1, {}, budget);
    assert Final(c0, {}, budget) == Final(c1, {}, budget) == Final(c2, {}, budget) == c2;
  }

  lemma {:induction false} PairResumed(a: Row, b: Row, budget: int)
    requires a.id != b.id && Price(a) < budget
    ensures Run([[a, b]], [Try(a, FRESH).case_], budget).cases == [Try(a, FRESH).case_, Try(b, FRESH).case_]
  {
    var recorded := [Try(a, FRESH).case_];
    assert recorded[0].id == a.id;
    assert Ids(recorded) == {a.id};
    assert recorded[..0] == [] && Total(recorded) == Price(a);
    var d0 := Cursor([a, b], [], FRESH, recorded, NotAborted);
    var d1 := Cursor([b], [], FRESH, recorded, NotAborted);
    assert Step(Begin([[a, b]], recorded), {a.id}, budget) == d0 && Step(d0, {a.id}, budget) == d1;
    var d2 := Step(d1, {a.id}, budget);
    assert Final(d0, {a.id}, budget) == Final(d1, {a.id}, budget) == Final(d2, {a.id}, budget) == d2;
  }

  /** What the second of two rows comes to, undisturbed and resumed after the first. */
  lemma {:induction false} SecondOfPair(a: Row, b: Row, budget: int)
    requires a.id != b.id && a.cloneOk && !a.tooLarge && !Spoils(a) && Price(a) < budget
    ensures var groups := [[a, b]];
      && Loadable(groups, budget, 1)
      && Run(groups, [], budget).cases == [Try(a, FRESH).case_, Try(b, Try(a, FRESH).repo).case_]
      && ResumeFrom(groups, budget, 1).cases == [Try(a, FRESH).case_, Try(b, FRESH).case_]
  {
    PairUndisturbed(a, b, budget);
    PairResumed(a, b, budget);
    assert Run([[a, b]], [], budget).cases[..1] == [Try(a, FRESH).case_];
  }

  function FoundRow(id: string, cloneOk: bool, full: nat, incremental: nat): Row {
    Row(id, "r", cloneOk, false, true, Indexed(full), Indexed(incremental), Found(Hits(true, true, true)))
  }

  /** Nothing is oversized here.  The undisturbed run clones the repository for the first row and finds the
      second; resumed in between it has to clone again, and fails. */
  lemma {:induction false} LateCloneDiverges(full: nat, incremental: nat, budget: int)
    requires budget > MICROS_PER_CHUNK * full + MICROS_PER_QUERY
    ensures var groups := [[FoundRow("a", true, full, incremental), FoundRow("b", false, full, incremental)]];
      && Loadable(groups, budget, 1)
      && |Run(groups, [], budget).cases| == 2 && Run(groups, [], budget).cases[1].ok
      && |ResumeFrom(groups, budget, 1).cases| == 2 && ResumeFrom(groups, budget, 1).cases[1].code == "clone_failed"
  {
    assert "a"[0] != "b"[0];
    SecondOfPair(FoundRow("a", true, full, incremental), FoundRow("b", false, full, incremental), budget);
  }

  /** Nothing fails here.  The resumed run indexes the second row from scratch and pays for all its chunks. */
  lemma {:induction false} ResumingPaysForFullIndex(full: nat, incremental: nat, budget: int)
    requires budget > MICROS_PER_CHUNK * full + MICROS_PER_QUERY
    ensures var groups := [[FoundRow("a", true, full, incremental), FoundRow("b", true, full, incremental)]];
      && Loadable(groups, budget, 1)
      && Total(ResumeFrom(groups, budget, 1).cases) - Total(Run(groups, [], budget).cases)
         == MICROS_PER_CHUNK * (full - incremental)
  {
    var a, b := FoundRow("a", true, full, incremental), FoundRow("b", true, full, incremental);
    assert "a"[0] != "b"[0];
    SecondOfPair(a, b, budget);
    var first, undisturbed, resumed := Try(a, FRESH).case_, Try(b, Try(a, FRESH).repo).case_, Try(b, FRESH).case_;
    assert [first, undisturbed] == [first] + [undisturbed] && [first, resumed] == [first] + [resumed];
    TotalSnoc([first], undisturbed);
    TotalSnoc([first], resumed);
  }
}
