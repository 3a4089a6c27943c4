/** When being killed and resuming changes nothing. */
module Resumption {

  // A kill after the k-th checkpoint leaves the first k cases; resuming from them is `Run` with those
  // cases loaded.  The world's answers to a row stay what they are, so the two runs differ in one thing:
  // the resumed one enters the repository it is killed in from scratch.  The theorem says exactly for
  // which runs every such resumption ends with the cases and the abort decision of the uninterrupted one.

  import opened Outcomes
  import opened RetrievalArtifact
  import opened ShardRun

  /** The result a run leaves behind. */
  datatype Outcome = Outcome(cases: seq<Case>, aborted: Abort)

  function OutcomeOf(c: Cursor): Outcome {
    Outcome(c.cases, c.aborted)
  }

  // ----- the condition -----

  /** This step bails out of a repository that still has a row nobody has recorded. */
  predicate LosesRows(c: Cursor, done: set<string>, budget: int) {
    && Records(c, done, budget)
    && Try(c.group[0], c.repo).bail
    && exists i :: 1 <= i < |c.group| && c.group[i].id !in done
  }

  /** This step records a row otherwise than a run that has just entered the repository would. */
  predicate Shifts(c: Cursor, done: set<string>, budget: int) {
    Records(c, done, budget) && Try(c.group[0], c.repo).case_ != Try(c.group[0], FRESH).case_
  }

  /** No step on the way from here loses a row or shifts one. */
  predicate Survives(c: Cursor, done: set<string>, budget: int)
    decreases |c.rest|, |c.group|, c.aborted.NotAborted?
  {
    || Finished(c)
    || (!LosesRows(c, done, budget) && !Shifts(c, done, budget) && Survives(Step(c, done, budget), done, budget))
  }

  // ----- skipping what is recorded -----

  predicate AllIn(rows: seq<Row>, ids: set<string>) {
    forall i | 0 <= i < |rows| :: rows[i].id in ids
  }

  /** The cursor stands inside `groups` and every row it has passed is in `ids`. */
  predicate Covered(groups: seq<seq<Row>>, c: Cursor, ids: set<string>) {
    if |groups| <= |c.rest| then groups == c.rest && c.group == []
    else if |groups| == |c.rest| + 1 then
      && groups[1..] == c.rest
      && |c.group| <= |groups[0]|
      && c.group == groups[0][|groups[0]| - |c.group|..]
      && AllIn(groups[0][..|groups[0]| - |c.group|], ids)
    else AllIn(groups[0], ids) && Covered(groups[1..], c, ids)
  }

  lemma {:induction false} SkipRows(skip: seq<Row>, c: Cursor, done: set<string>, budget: int)
    requires AllIn(skip, done) && c.aborted.NotAborted?
    ensures Final(c.(group := skip + c.group), done, budget) == Final(c, done, budget)
  {
    if skip == [] {
      assert skip + c.group == c.group;
    } else {
      var whole := c.(group := skip + c.group);
      assert whole.group[1..] == skip[1..] + c.group;
      SkipRows(skip[1..], c, done, budget);
    }
  }

  lemma {:induction false} SkipCovered(groups: seq<seq<Row>>, c: Cursor, done: set<string>, budget: int)
    requires Covered(groups, c, done) && c.aborted.NotAborted? && c.repo == FRESH
    ensures Final(Cursor([], groups, FRESH, c.cases, NotAborted), done, budget) == Final(c, done, budget)
  {
    if |groups| > |c.rest| {
      var start := Cursor([], groups, FRESH, c.cases, NotAborted);
      var entered := Step(start, done, budget);
      if |groups| == |c.rest| + 1 {
        var skip := groups[0][..|groups[0]| - |c.group|];
        assert skip + c.group == groups[0];
        SkipRows(skip, c, done, budget);
      } else {
        var next := Cursor([], groups[1..], FRESH, c.cases, NotAborted);
        assert groups[0] + next.group == groups[0];
        SkipRows(groups[0], next, done, budget);
        SkipCovered(groups[1..], c, done, budget);
      }
    }
  }

  // ----- a restarted run keeps up -----

  /** The flags a run has within a repository: nothing is indexed before the clone. */
  predicate FlagsFit(repo: RepoState) {
    repo.cloned || repo == FRESH
  }

  /** A run restarted within the repository has done at most as much in it. */
  predicate Behind(restarted: RepoState, repo: RepoState) {
    restarted == repo || restarted == FRESH || (restarted == RepoState(true, true) && repo.cloned)
  }

  /** A row recorded alike from scratch is recorded alike by every run that is behind, which stays behind. */
  lemma {:induction false} BehindRecordsAlike(row: Row, restarted: RepoState, repo: RepoState)
    requires FlagsFit(repo) && Behind(restarted, repo) && Try(row, repo).case_ == Try(row, FRESH).case_
    ensures var a, b := Try(row, restarted), Try(row, repo);
      a.case_ == b.case_ && a.bail == b.bail && FlagsFit(b.repo) && Behind(a.repo, b.repo)
  {
  }

  predicate Agree(rows: seq<Row>, a: set<string>, b: set<string>) {
    forall i | 0 <= i < |rows| :: rows[i].id in a <==> rows[i].id in b
  }

  /** One step of a run and of one that is behind: they still differ in nothing but the flags. */
  lemma {:induction false} StepsAgree(c: Cursor, other: Cursor, done: set<string>, done': set<string>, budget: int)
    requires FlagsFit(c.repo) && Behind(other.repo, c.repo) && other == c.(repo := other.repo) && !Finished(c)
    requires c.group != [] ==> (c.group[0].id in done <==> c.group[0].id in done')
    requires !Shifts(c, done, budget)
    ensures var next, next' := Step(c, done, budget), Step(other, done', budget);
      next' == next.(repo := next'.repo) && FlagsFit(next.repo) && Behind(next'.repo, next.repo)
  {
    if Records(c, done, budget) {
      BehindRecordsAlike(c.group[0], other.repo, c.repo);
    }
  }

  lemma {:induction false} AgreeLater(c: Cursor, done: set<string>, done': set<string>, budget: int)
    requires !Finished(c) && Agree(Ahead(c), done, done')
    ensures c.group != [] ==> (c.group[0].id in done <==> c.group[0].id in done')
    ensures Agree(Ahead(Step(c, done, budget)), done, done')
  {
    AheadSteps(c, done, budget);
    if c.group != [] {
      assert Ahead(c)[0] == c.group[0];
    }
  }

  /** A run that is behind in the repository at hand ends with the same cases and the same abort decision
      as one that loses and shifts no row. */
  lemma {:induction false} RestartKeepsUp(c: Cursor, other: Cursor, done: set<string>, done': set<string>, budget: int)
    requires FlagsFit(c.repo) && Behind(other.repo, c.repo) && other == c.(repo := other.repo)
    requires Agree(Ahead(c), done, done') && Survives(c, done, budget)
    ensures OutcomeOf(Final(c, done, budget)) == OutcomeOf(Final(other, done', budget))
    decreases |c.rest|, |c.group|, c.aborted.NotAborted?
  {
    if Finished(c) {
    } else {
      AgreeLater(c, done, done', budget);
      StepsAgree(c, other, done, done', budget);
      RestartKeepsUp(Step(c, done, budget), Step(other, done', budget), done, done', budget);
    }
  }

  // ----- covered cursors -----

  lemma {:induction false} CoveredGrows(groups: seq<seq<Row>>, c: Cursor, ids: set<string>, more: set<string>)
    requires Covered(groups, c, ids) && ids <= more
    ensures Covered(groups, c, more)
  {
    if |groups| > |c.rest| + 1 {
      CoveredGrows(groups[1..], c, ids, more);
    }
  }

  /** Entering the next repository, or dropping rows that are recorded, keeps the cursor covered. */
  lemma {:induction false} CoveredMoves(groups: seq<seq<Row>>, c: Cursor, c': Cursor, ids: set<string>)
    requires Covered(groups, c, ids)
    requires
      || (c.group == [] && c.rest != [] && c'.group == c.rest[0] && c'.rest == c.rest[1..])
      || (c'.rest == c.rest && |c'.group| <= |c.group| && c'.group == c.group[|c.group| - |c'.group|..]
          && AllIn(c.group[..|c.group| - |c'.group|], ids))
    ensures Covered(groups, c', ids)
  {
    if |groups| == |c.rest| + 1 {
      if c'.rest == c.rest {
        var n, m, g := |c.group|, |c'.group|, groups[0];
        assert c'.group == g[|g| - m..];
        forall i | 0 <= i < |g| - m ensures g[i].id in ids {
          if i >= |g| - n {
            assert g[i] == c.group[i - (|g| - n)];
            assert g[i] == c.group[..n - m][i - (|g| - n)];
          } else {
            assert g[i] == g[..|g| - n][i];
          }
        }
      } else {
        assert groups[0][..|groups[0]| - |c.group|] == groups[0];
        assert groups[1..] == c.rest;
        assert groups[1..][1..] == c'.rest;
      }
    } else if |groups| > |c.rest| + 1 {
      CoveredMoves(groups[1..], c, c', ids);
    }
  }

  lemma {:induction false} CoveredAhead(groups: seq<seq<Row>>, c: Cursor, ids: set<string>, row: Row)
    requires Covered(groups, c, ids) && row in Ahead(c)
    ensures row in Flatten(groups)
  {
    if |groups| == |c.rest| + 1 {
      assert Flatten(groups) == groups[0] + Flatten(c.rest);
      if row in c.group {
        assert row in groups[0];
      }
    } else if |groups| > |c.rest| + 1 {
      CoveredAhead(groups[1..], c, ids, row);
      assert Flatten(groups) == groups[0] + Flatten(groups[1..]);
    } else {
      assert Ahead(c) == Flatten(groups);
    }
  }

  lemma {:induction false} StepKeepsCovered(groups: seq<seq<Row>>, c: Cursor, done: set<string>, budget: int,
          expected: seq<string>)
    requires RunInv(c, done, expected) && !Finished(c)
    requires Covered(groups, c, Ids(c.cases)) && !LosesRows(c, done, budget)
    ensures Covered(groups, Step(c, done, budget), Ids(Step(c, done, budget).cases))
  {
    var c' := Step(c, done, budget);
    if Records(c, done, budget) {
      RecordStep(c, done, budget);
      IdsSnoc(c.cases, Try(c.group[0], c.repo).case_);
      CoveredGrows(groups, c, Ids(c.cases), Ids(c'.cases));
      forall i | 0 <= i < |c.group| - |c'.group| ensures c.group[i].id in Ids(c'.cases) {
        if i > 0 {
          assert c.group[i].id in done;
        }
      }
    }
    CoveredMoves(groups, c, c', Ids(c'.cases));
  }

  // ----- one resumption -----

  /** The run resumed from the cases of a covered cursor gets to where that cursor stands. */
  lemma {:induction false} ResumeSkips(groups: seq<seq<Row>>, c: Cursor, budget: int)
    requires c.aborted.NotAborted? && Covered(groups, c, Ids(c.cases))
    ensures Run(groups, c.cases, budget) == Final(c.(repo := FRESH), Ids(c.cases), budget)
  {
    var restarted := c.(repo := FRESH);
    CoveredMoves(groups, c, restarted, Ids(c.cases));
    SkipCovered(groups, restarted, Ids(c.cases), budget);
  }

  /** Resuming from the cases of a covered cursor ends like the run the cursor belongs to. */
  lemma {:induction false} ResumeAt(groups: seq<seq<Row>>, c: Cursor, done: set<string>, budget: int,
          expected: seq<string>)
    requires RunInv(c, done, expected) && c.aborted.NotAborted? && FlagsFit(c.repo)
    requires Covered(groups, c, Ids(c.cases)) && Survives(c, done, budget)
    ensures OutcomeOf(Run(groups, c.cases, budget)) == OutcomeOf(Final(c, done, budget))
  {
    ResumeSkips(groups, c, budget);
    RestartKeepsUp(c, c.(repo := FRESH), done, Ids(c.cases), budget);
  }

  /** What a run that survives keeps when it goes on. */
  lemma {:induction false} GoesOn(groups: seq<seq<Row>>, c: Cursor, done: set<string>, budget: int,
          expected: seq<string>)
    requires RunInv(c, done, expected) && !Finished(c) && FlagsFit(c.repo)
    requires Covered(groups, c, Ids(c.cases)) && Survives(c, done, budget)
    ensures var c' := Step(c, done, budget);
      && RunInv(c', done, expected) && FlagsFit(c'.repo)
      && Covered(groups, c', Ids(c'.cases)) && Survives(c', done, budget)
  {
    StepKeepsRunInv(c, done, budget, expected);
    StepKeepsCovered(groups, c, done, budget, expected);
  }

  /** Every loadable prefix of the cases of a run that loses and shifts no row resumes to the same outcome. */
  lemma {:induction false} PrefixesResume(groups: seq<seq<Row>>, c: Cursor, done: set<string>, budget: int,
          expected: seq<string>, k: nat)
    requires RunInv(c, done, expected) && c.aborted.NotAborted? && FlagsFit(c.repo)
    requires Covered(groups, c, Ids(c.cases)) && Survives(c, done, budget)
    requires |c.cases| <= k <= |Final(c, done, budget).cases|
    requires !HasInvalid(Final(c, done, budget).cases[..k])
    ensures OutcomeOf(Run(groups, Final(c, done, budget).cases[..k], budget)) == OutcomeOf(Final(c, done, budget))
    decreases |c.rest|, |c.group|
  {
    var f := Final(c, done, budget);
    FinalKeepsRunInv(c, done, budget, expected);
    if k == |c.cases| {
      assert f.cases[..k] == c.cases;
      ResumeAt(groups, c, done, budget, expected);
    } else {
      LoadableStep(c, done, budget, expected, k);
      GoesOn(groups, c, done, budget, expected);
      assert Final(Step(c, done, budget), done, budget) == f;
      PrefixesResume(groups, Step(c, done, budget), done, budget, expected, k);
    }
  }

  /** A run that goes on to record loadable cases is not aborted by its next step. */
  lemma {:induction false} LoadableStep(c: Cursor, done: set<string>, budget: int, expected: seq<string>, k: nat)
    requires RunInv(c, done, expected) && c.aborted.NotAborted?
    requires |c.cases| < k <= |Final(c, done, budget).cases|
    requires !HasInvalid(Final(c, done, budget).cases[..k])
    ensures !Finished(c) && Step(c, done, budget).aborted.NotAborted?
    ensures |Step(c, done, budget).cases| <= k
  {
    var c' := Step(c, done, budget);
    StepKeepsRunInv(c, done, budget, expected);
    FinalKeepsRunInv(c', done, budget, expected);
    StepCaseCount(c, done, budget);
  }

  // ----- the other direction -----

  /** With budget left, a run entering a group that holds an unrecorded row records one of them next. */
  lemma {:induction false} RecordsNext(c: Cursor, done: set<string>, budget: int)
    requires c.aborted.NotAborted? && Total(c.cases) < budget
    requires exists i :: 0 <= i < |c.group| && c.group[i].id !in done
    ensures var f := Final(c, done, budget);
      && c.cases < f.cases
      && exists i :: 0 <= i < |c.group| && c.group[i].id == f.cases[|c.cases|].id
    decreases |c.group|
  {
    var c' := Step(c, done, budget);
    BudgetIsHeld(c', done, budget);
    if c.group[0].id in done {
      var i :| 0 <= i < |c.group| && c.group[i].id !in done;
      assert c'.group[i - 1] == c.group[i];
      RecordsNext(c', done, budget);
      var f := Final(c, done, budget);
      var j :| 0 <= j < |c'.group| && c'.group[j].id == f.cases[|c.cases|].id;
      assert c.group[j + 1] == c'.group[j];
    } else {
      assert c'.cases[|c.cases|].id == c.group[0].id;
    }
  }

  /** The case a step records comes next in the run's result. */
  lemma {:induction false} RecordedNext(c: Cursor, done: set<string>, budget: int)
    requires Records(c, done, budget)
    ensures var f := Final(c, done, budget);
      |f.cases| > |c.cases| && f.cases[|c.cases|] == Try(c.group[0], c.repo).case_
  {
    RecordStep(c, done, budget);
    BudgetIsHeld(Step(c, done, budget), done, budget);
    assert Final(c, done, budget) == Final(Step(c, done, budget), done, budget);
  }

  lemma {:induction false} SuffixAt(all: seq<Row>, later: seq<Row>, j: nat)
    requires |later| <= |all| && later == all[|all| - |later|..] && j < |later|
    ensures all[|all| - |later| + j] == later[j]
  {
  }

  /** What lies ahead of the next step lies ahead of this one. */
  lemma {:induction false} AheadBefore(c: Cursor, done: set<string>, budget: int, j: nat) returns (i: nat)
    requires !Finished(c) && j < |Ahead(Step(c, done, budget))|
    ensures i < |Ahead(c)| && Ahead(c)[i] == Ahead(Step(c, done, budget))[j]
  {
    AheadSteps(c, done, budget);
    SuffixAt(Ahead(c), Ahead(Step(c, done, budget)), j);
    i := |Ahead(c)| - |Ahead(Step(c, done, budget))| + j;
  }

  /** Whatever a run records from here on lies ahead of it. */
  lemma {:induction false} RecordsAhead(c: Cursor, done: set<string>, budget: int, n: nat) returns (i: nat)
    requires |c.cases| <= n < |Final(c, done, budget).cases|
    ensures i < |Ahead(c)| && Ahead(c)[i].id == Final(c, done, budget).cases[n].id
    decreases |c.rest|, |c.group|, c.aborted.NotAborted?
  {
    if Records(c, done, budget) && n == |c.cases| {
      RecordedNext(c, done, budget);
      AheadSteps(c, done, budget);
      i := 0;
    } else {
      StepCaseCount(c, done, budget);
      var j := RecordsAhead(Step(c, done, budget), done, budget, n);
      i := AheadBefore(c, done, budget, j);
    }
  }

  lemma {:induction false} StepCaseCount(c: Cursor, done: set<string>, budget: int)
    requires !Finished(c)
    ensures |Step(c, done, budget).cases| == |c.cases| + if Records(c, done, budget) then 1 else 0
  {
  }

  /** Where a losing bail-out leaves things: the lost row is not recorded, and there is budget for it. */
  lemma {:induction false} LossLeaves(groups: seq<seq<Row>>, c: Cursor, done: set<string>, budget: int,
          expected: seq<string>, lost: nat)
    requires RunInv(c, done, expected) && Covered(groups, c, Ids(c.cases)) && LosesRows(c, done, budget)
    requires 1 <= lost < |c.group| && c.group[lost].id !in done
    ensures var cases := Step(c, done, budget).cases;
      && |cases| == |c.cases| + 1 && c.group[lost].id !in Ids(cases) && Total(cases) < budget
      && Covered(groups, Cursor(c.group[1..], c.rest, FRESH, cases, NotAborted), Ids(cases))
  {
    var recorded := Try(c.group[0], c.repo).case_;
    RecordStep(c, done, budget);
    IdsSnoc(c.cases, recorded);
    TotalSnoc(c.cases, recorded);
    assert Ahead(c)[lost] == c.group[lost] && Ahead(c)[0] == c.group[0];
    var ids := Ids(c.cases + [recorded]);
    CoveredGrows(groups, c, Ids(c.cases), ids);
    CoveredMoves(groups, c, Cursor(c.group[1..], c.rest, FRESH, c.cases + [recorded], NotAborted), ids);
  }

  /** The run that resumes after a losing bail-out records one of the lost rows next. */
  lemma {:induction false} LostRowReturns(groups: seq<seq<Row>>, c: Cursor, done: set<string>, budget: int,
          expected: seq<string>)
    requires RunInv(c, done, expected) && Covered(groups, c, Ids(c.cases)) && LosesRows(c, done, budget)
    ensures var cases := Step(c, done, budget).cases;
      var resumed := Run(groups, cases, budget).cases;
      && cases < resumed
      && exists i :: 1 <= i < |c.group| && c.group[i].id == resumed[|cases|].id
  {
    var c' := Step(c, done, budget);
    var lost :| 1 <= lost < |c.group| && c.group[lost].id !in done;
    var next := Cursor(c.group[1..], c.rest, FRESH, c'.cases, NotAborted);
    LossLeaves(groups, c, done, budget, expected, lost);
    SkipCovered(groups, next, Ids(c'.cases), budget);
    assert next.group[lost - 1] == c.group[lost];
    RecordsNext(next, Ids(c'.cases), budget);
    var j :| 0 <= j < |next.group| && next.group[j].id == Final(next, Ids(c'.cases), budget).cases[|c'.cases|].id;
    assert c.group[j + 1] == next.group[j];
  }

  /** The run that bailed out never records a row of that repository again. */
  lemma {:induction false} LostRowsStayLost(c: Cursor, done: set<string>, budget: int, i: nat)
    requires DistinctRows(Ahead(c)) && LosesRows(c, done, budget) && 1 <= i < |c.group|
    ensures var f := Final(c, done, budget);
      forall n | |c.cases| < n < |f.cases| :: f.cases[n].id != c.group[i].id
  {
    var c', f := Step(c, done, budget), Final(c, done, budget);
    StepCaseCount(c, done, budget);
    BailSkipsGroup(c, done, budget);
    forall n | |c.cases| < n < |f.cases| ensures f.cases[n].id != c.group[i].id {
      var k := RecordsAhead(c', done, budget, n);
      RowsApart(c.group, Flatten(c.rest), i, k);
    }
  }

  lemma {:induction false} RowsApart(group: seq<Row>, later: seq<Row>, i: nat, k: nat)
    requires DistinctRows(group + later) && i < |group| && k < |later|
    ensures group[i].id != later[k].id
  {
    var all := group + later;
    assert all[i] == group[i] && all[|group| + k] == later[k];
  }

  lemma {:induction false} BailSkipsGroup(c: Cursor, done: set<string>, budget: int)
    requires LosesRows(c, done, budget)
    ensures Ahead(Step(c, done, budget)) == Flatten(c.rest) == Ahead(c)[|c.group|..]
  {
  }

  /** A bail-out that loses rows: resuming from the checkpoint written right after it goes elsewhere. */
  lemma {:induction false} LossShows(groups: seq<seq<Row>>, c: Cursor, done: set<string>, budget: int,
          expected: seq<string>)
    requires RunInv(c, done, expected) && Covered(groups, c, Ids(c.cases)) && LosesRows(c, done, budget)
    ensures var c' := Step(c, done, budget);
      && !HasInvalid(c'.cases)
      && OutcomeOf(Run(groups, c'.cases, budget)) != OutcomeOf(Final(c, done, budget))
  {
    var c' := Step(c, done, budget);
    StepKeepsRunInv(c, done, budget, expected);
    LostRowReturns(groups, c, done, budget, expected);
    var resumed := Run(groups, c'.cases, budget).cases;
    var i :| 1 <= i < |c.group| && c.group[i].id == resumed[|c'.cases|].id;
    LostRowsStayLost(c, done, budget, i);
  }

  /** A shifted row: resuming from the checkpoint right before it goes elsewhere. */
  lemma {:induction false} ShiftShows(groups: seq<seq<Row>>, c: Cursor, done: set<string>, budget: int,
          expected: seq<string>)
    requires RunInv(c, done, expected) && Covered(groups, c, Ids(c.cases)) && Shifts(c, done, budget)
    ensures !HasInvalid(c.cases)
    ensures OutcomeOf(Run(groups, c.cases, budget)) != OutcomeOf(Final(c, done, budget))
  {
    var restarted, ids := c.(repo := FRESH), Ids(c.cases);
    ResumeSkips(groups, c, budget);
    assert Ahead(c)[0] == c.group[0];
    RecordedNext(c, done, budget);
    RecordedNext(restarted, ids, budget);
  }

  /** A run that loses or shifts a row has a checkpoint from which resuming goes elsewhere. */
  lemma {:induction false} DifferenceFound(groups: seq<seq<Row>>, c: Cursor, done: set<string>, budget: int,
          expected: seq<string>) returns (k: nat)
    requires RunInv(c, done, expected) && Covered(groups, c, Ids(c.cases)) && !Survives(c, done, budget)
    ensures |c.cases| <= k <= |Final(c, done, budget).cases|
    ensures !HasInvalid(Final(c, done, budget).cases[..k])
    ensures OutcomeOf(Run(groups, Final(c, done, budget).cases[..k], budget)) != OutcomeOf(Final(c, done, budget))
    decreases |c.rest|, |c.group|, c.aborted.NotAborted?
  {
    var c' := Step(c, done, budget);
    FinalKeepsRunInv(c, done, budget, expected);
    StepKeepsRunInv(c, done, budget, expected);
    FinalKeepsRunInv(c', done, budget, expected);
    if LosesRows(c, done, budget) {
      k := |c'.cases|;
      assert Final(c, done, budget).cases[..k] == c'.cases;
      LossShows(groups, c, done, budget, expected);
    } else if Shifts(c, done, budget) {
      k := |c.cases|;
      assert Final(c, done, budget).cases[..k] == c.cases;
      ShiftShows(groups, c, done, budget, expected);
    } else {
      StepKeepsCovered(groups, c, done, budget, expected);
      k := DifferenceFound(groups, c', done, budget, expected);
    }
  }

  // ----- the theorem -----

  /** The shard as the run sees it: distinct expected rows. */
  predicate GoodShard(groups: seq<seq<Row>>, expected: seq<string>) {
    && DistinctRows(Flatten(groups)) && Distinct(expected)
    && forall i | 0 <= i < |Flatten(groups)| :: Flatten(groups)[i].id in expected
  }

  /** The k-th checkpoint of the uninterrupted run can be loaded again. */
  predicate Loadable(groups: seq<seq<Row>>, budget: int, k: nat) {
    k <= |Run(groups, [], budget).cases| && !HasInvalid(Run(groups, [], budget).cases[..k])
  }

  function ResumeFrom(groups: seq<seq<Row>>, budget: int, k: nat): Cursor
    requires Loadable(groups, budget, k)
  {
    Run(groups, Run(groups, [], budget).cases[..k], budget)
  }

  /** Resuming, exactly, whatever the rows: resuming from every checkpoint of a shard run reproduces its
      cases and its abort decision if and only if no step of it loses a row or shifts one. */
  lemma {:induction false} ResumesExactly(groups: seq<seq<Row>>, budget: int, expected: seq<string>)
    requires GoodShard(groups, expected)
    ensures (forall k: nat | Loadable(groups, budget, k) ::
               OutcomeOf(ResumeFrom(groups, budget, k)) == OutcomeOf(Run(groups, [], budget)))
      <==> Survives(Begin(groups, []), {}, budget)
  {
    var begin := Begin(groups, []);
    assert Ids([]) == {};
    BeginKeepsRunInv(groups, [], expected);
    assert Covered(groups, begin, Ids(begin.cases));
    if Survives(begin, {}, budget) {
      forall k: nat | Loadable(groups, budget, k)
        ensures OutcomeOf(ResumeFrom(groups, budget, k)) == OutcomeOf(Run(groups, [], budget))
      {
        PrefixesResume(groups, begin, {}, budget, expected, k);
      }
    } else {
      var k := DifferenceFound(groups, begin, {}, budget, expected);
      assert Loadable(groups, budget, k);
    }
  }

  function OversizedRow(id: string): Row {
    Row(id, "r", true, true, true, Indexed(1), Indexed(1), Found(Hits(true, true, true)))
  }

  /** The failing family's smallest member: two rows of one oversized repository.  Uninterrupted,
      the second is never recorded; resumed after the first checkpoint, it is. */
  lemma {:induction false} OversizedPairDiverges()
    ensures var groups := [[OversizedRow("a"), OversizedRow("b")]];
      && GoodShard(groups, ["a", "b"])
      && |Run(groups, [], 1).cases| == 1
      && Loadable(groups, 1, 1) && |ResumeFrom(groups, 1, 1).cases| == 2
      && !Survives(Begin(groups, []), {}, 1)
  {
    var a, b := OversizedRow("a"), OversizedRow("b");
    var groups := [[a, b]];
    assert "a"[0] != "b"[0];
    assert Flatten(groups) == [a, b];
    var first := Try(a, FRESH).case_;
    var c1 := Cursor([a, b], [], FRESH, [], NotAborted);
    var c2 := Cursor([], [], FRESH, [first], NotAborted);
    assert Step(Begin(groups, []), {}, 1) == c1;
    assert [] + [first] == [first];
    assert Step(c1, {}, 1) == c2;
    assert Ids([]) == {};
    assert Run(groups, [], 1) == Final(c1, {}, 1) == Final(c2, {}, 1) == c2;
    assert [first][0].id == "a";
    assert Ids([first]) == {"a"};
    assert [first][..0] == [];
    assert Total([first]) == 0;
    var d1 := Cursor([a, b], [], FRESH, [first], NotAborted);
    var d2 := Cursor([b], [], FRESH, [first], NotAborted);
    assert Step(Begin(groups, [first]), {"a"}, 1) == d1;
    assert Step(d1, {"a"}, 1) == d2;
    var d3 := Step(d2, {"a"}, 1);
    assert Final(Begin(groups, [first]), {"a"}, 1) == Final(d1, {"a"}, 1) == Final(d2, {"a"}, 1) == d3;
    assert Run(groups, [], 1).cases[..1] == [first];
    assert c1.group[1].id !in {};
    assert LosesRows(c1, {}, 1);
  }
}
