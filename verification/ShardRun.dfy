/** One shard run of armC_retrieval.py: its nested loop as a step machine, and as the loop it is. */
module ShardRun {
  import opened Outcomes
  import opened RetrievalArtifact

  /** What indexing, and then searching, does with a row.  An index that fails without making the
      experiment invalid is always recorded under the same code; a search brings its own. */
  datatype IndexOutcome = IndexInvalid(code: string) | IndexError | Indexed(chunks: nat)
  datatype SearchOutcome = SearchInvalid(code: string) | SearchError(code: string) | Found(hits: Hits)

  /** A row of the shard with the world's answers to every operation the run may try on it. */
  datatype Row = Row(id: string, repo: string, cloneOk: bool, tooLarge: bool, checkoutOk: bool,
                     full: IndexOutcome, incremental: IndexOutcome, search: SearchOutcome)

  /** The two flags `main` keeps per repository. */
  datatype RepoState = RepoState(cloned: bool, firstInRepo: bool)

  const FRESH := RepoState(false, true)

  datatype Attempt = Attempt(case_: Case, repo: RepoState, bail: bool)

  /** The body of the row loop: exactly one case, the new flags, and whether the rest of the
      repository is given up. */
  function Try(row: Row, repo: RepoState): (a: Attempt)
    ensures a.case_.id == row.id && CostValid(a.case_.cost)
    ensures a.bail <==> !repo.cloned && row.cloneOk && row.tooLarge
    ensures a.bail ==> a.repo == repo && a.case_.failure == MeasuredOutcome && TotalOf(a.case_) == 0
  {
    if !repo.cloned then
      if !row.cloneOk then
        Attempt(FailureCase(row.id, Infrastructure, "clone_failed", false, 0, false), repo, false)
      else if row.tooLarge then
        Attempt(FailureCase(row.id, MeasuredOutcome, "repo_too_large", false, 0, false), repo, true)
      else
        IndexAndSearch(row, repo.(cloned := true))
    else if !row.checkoutOk then
      Attempt(FailureCase(row.id, Infrastructure, "checkout_failed", false, 0, false), repo, false)
    else
      IndexAndSearch(row, repo)
  }

  function IndexAndSearch(row: Row, repo: RepoState): (a: Attempt)
    ensures a.case_.id == row.id && CostValid(a.case_.cost) && !a.bail
  {
    match if repo.firstInRepo then row.full else row.incremental
    case IndexInvalid(code) =>
      Attempt(FailureCase(row.id, InvalidExperiment, code, false, 0, false), repo, false)
    case IndexError =>
      Attempt(FailureCase(row.id, Infrastructure, "retrieval_error", false, 0, false), repo, false)
    case Indexed(chunks) =>
      var indexed := repo.(firstInRepo := false);
      match row.search
      case SearchInvalid(code) =>
        Attempt(FailureCase(row.id, InvalidExperiment, code, true, chunks, true), indexed, false)
      case SearchError(code) =>
        Attempt(FailureCase(row.id, Infrastructure, code, true, chunks, true), indexed, false)
      case Found(hits) =>
        Attempt(SuccessCase(row.id, chunks, hits), indexed, false)
  }

  // ----- the run as steps -----

  /** Where a run stands: the rows left in the current repository, the repositories after it, the
      flags, the recorded cases and the abort decision. */
  datatype Cursor = Cursor(group: seq<Row>, rest: seq<seq<Row>>, repo: RepoState, cases: seq<Case>, aborted: Abort)

  function Begin(groups: seq<seq<Row>>, loaded: seq<Case>): Cursor {
    Cursor([], groups, FRESH, loaded, NotAborted)
  }

  predicate Finished(c: Cursor) {
    !c.aborted.NotAborted? || (c.group == [] && c.rest == [])
  }

  function AbortAfter(c: Case): Abort {
    if c.failure == InvalidExperiment then InvalidAbort(c.code, c.id) else NotAborted
  }

  function Step(c: Cursor, done: set<string>, budget: int): (c': Cursor)
    requires !Finished(c)
    ensures |c'.rest| < |c.rest| || (c'.rest == c.rest && |c'.group| < |c.group|)
         || (c'.rest == c.rest && c'.group == c.group && c.aborted.NotAborted? && !c'.aborted.NotAborted?)
  {
    if c.group == [] then
      c.(group := c.rest[0], rest := c.rest[1..], repo := FRESH)
    else if c.group[0].id in done then
      c.(group := c.group[1..])
    else if Total(c.cases) >= budget then
      c.(aborted := Threshold(budget, Total(c.cases), |c.cases|))
    else
      var a := Try(c.group[0], c.repo);
      Cursor(if a.bail then [] else c.group[1..], c.rest, a.repo, c.cases + [a.case_], AbortAfter(a.case_))
  }

  /** The step from c records a case. */
  predicate Records(c: Cursor, done: set<string>, budget: int) {
    !Finished(c) && c.group != [] && c.group[0].id !in done && Total(c.cases) < budget
  }

  function Final(c: Cursor, done: set<string>, budget: int): (f: Cursor)
    ensures Finished(f)
    decreases |c.rest|, |c.group|, c.aborted.NotAborted?
  {
    if Finished(c) then c else Final(Step(c, done, budget), done, budget)
  }

  /** The whole run: resume from `loaded`, walk the groups, return where it stopped. */
  function Run(groups: seq<seq<Row>>, loaded: seq<Case>, budget: int): Cursor {
    Final(Begin(groups, loaded), Ids(loaded), budget)
  }

  // ----- the exit code -----

  function ExitCode(a: Artifact): int {
    if a.aborted.InvalidAbort? then 2 else if a.status == Complete then 0 else 1
  }

  // ----- what every step keeps -----

  /** IDs still ahead of the cursor. */
  function Ahead(c: Cursor): seq<Row> {
    c.group + Flatten(c.rest)
  }

  function Flatten(groups: seq<seq<Row>>): seq<Row> {
    if groups == [] then [] else groups[0] + Flatten(groups[1..])
  }

  predicate DistinctRows(rows: seq<Row>) {
    forall i, j | 0 <= i < j < |rows| :: rows[i].id != rows[j].id
  }

  /** The recorded cases are distinct and expected, cost exactly what they should, and an invalid
      case is the last one and has aborted the run. */
  ghost predicate CasesInv(cases: seq<Case>, aborted: Abort, expected: seq<string>) {
    && DistinctCases(cases) && Within(cases, expected) && AllCostsValid(cases)
    && (forall i | 0 <= i < |cases| && cases[i].failure == InvalidExperiment ::
          i == |cases| - 1 && aborted == InvalidAbort(cases[i].code, cases[i].id))
    && (aborted.InvalidAbort? ==> HasInvalid(cases))
  }

  /** The rows ahead are distinct and expected, and none of them was recorded except by the
      checkpoint this run resumed from. */
  ghost predicate AheadInv(ahead: seq<Row>, cases: seq<Case>, done: set<string>, expected: seq<string>) {
    && DistinctRows(ahead)
    && (forall i | 0 <= i < |ahead| :: ahead[i].id in expected)
    && (forall i | 0 <= i < |ahead| && ahead[i].id in Ids(cases) :: ahead[i].id in done)
  }

  ghost predicate RunInv(c: Cursor, done: set<string>, expected: seq<string>) {
    CasesInv(c.cases, c.aborted, expected) && AheadInv(Ahead(c), c.cases, done, expected) && done <= Ids(c.cases)
  }

  lemma {:induction false} AheadSteps(c: Cursor, done: set<string>, budget: int)
    requires !Finished(c)
    ensures var c' := Step(c, done, budget);
      var dropped := |Ahead(c)| - |Ahead(c')|;
      && dropped >= 0 && Ahead(c') == Ahead(c)[dropped..]
      && (Records(c, done, budget) ==> dropped >= 1 && Ahead(c)[0] == c.group[0])
  {
    var c' := Step(c, done, budget);
    if c.group == [] {
      assert Ahead(c') == Ahead(c);
    } else if Ahead(c') != Ahead(c) {
      assert Ahead(c)[1..] == c.group[1..] + Flatten(c.rest);
      if c'.group == [] {
        assert Ahead(c)[|c.group|..] == Flatten(c.rest);
      }
    }
  }

  lemma {:induction false} IdsSnoc(cases: seq<Case>, c: Case)
    ensures Ids(cases + [c]) == Ids(cases) + {c.id}
  {
    var more := cases + [c];
    forall id | id in Ids(cases) + {c.id} ensures id in Ids(more) {
      if id == c.id {
        assert more[|cases|].id == id;
      } else {
        var i :| 0 <= i < |cases| && cases[i].id == id;
        assert more[i].id == id;
      }
    }
  }

  lemma {:induction false} RecordKeepsAheadInv(ahead: seq<Row>, k: nat, cases: seq<Case>, c: Case, done: set<string>,
          expected: seq<string>)
    requires AheadInv(ahead, cases, done, expected)
    requires 1 <= k <= |ahead| && c.id == ahead[0].id
    ensures AheadInv(ahead[k..], cases + [c], done, expected)
  {
    IdsSnoc(cases, c);
  }

  lemma {:induction false} RecordKeepsCasesInv(cases: seq<Case>, c: Case, expected: seq<string>)
    requires CasesInv(cases, NotAborted, expected)
    requires c.id !in Ids(cases) && c.id in expected && CostValid(c.cost)
    ensures CasesInv(cases + [c], AbortAfter(c), expected)
  {
    var more := cases + [c];
    assert more[|cases|] == c;
    assert forall i | 0 <= i < |cases| :: more[i] == cases[i] && cases[i].id in Ids(cases);
    if c.failure == InvalidExperiment {
      assert HasInvalid(more);
    }
  }

  lemma {:induction false} SuffixKeepsAheadInv(ahead: seq<Row>, k: nat, cases: seq<Case>, done: set<string>,
          expected: seq<string>)
    requires AheadInv(ahead, cases, done, expected) && k <= |ahead|
    ensures AheadInv(ahead[k..], cases, done, expected)
  {
    var later := ahead[k..];
    assert forall i | 0 <= i < |later| :: later[i] == ahead[i + k];
  }

  /** A step that records nothing leaves the cases; it may only decide to stop for the budget. */
  lemma {:induction false} QuietStep(c: Cursor, done: set<string>, budget: int)
    requires !Finished(c) && !Records(c, done, budget)
    ensures var c' := Step(c, done, budget);
      c'.cases == c.cases && !c'.aborted.InvalidAbort?
  {
  }

  lemma {:induction false} RecordStep(c: Cursor, done: set<string>, budget: int)
    requires Records(c, done, budget)
    ensures var recorded := Try(c.group[0], c.repo).case_;
      var c' := Step(c, done, budget);
      c'.cases == c.cases + [recorded] && c'.aborted == AbortAfter(recorded)
  {
  }

  lemma {:induction false} StepKeepsRunInv(c: Cursor, done: set<string>, budget: int, expected: seq<string>)
    requires RunInv(c, done, expected) && !Finished(c)
    ensures RunInv(Step(c, done, budget), done, expected)
  {
    var c' := Step(c, done, budget);
    AheadSteps(c, done, budget);
    var k := |Ahead(c)| - |Ahead(c')|;
    if Records(c, done, budget) {
      RecordStep(c, done, budget);
      var recorded := Try(c.group[0], c.repo).case_;
      RecordKeepsAheadInv(Ahead(c), k, c.cases, recorded, done, expected);
      assert recorded.id !in Ids(c.cases);
      RecordKeepsCasesInv(c.cases, recorded, expected);
      IdsSnoc(c.cases, recorded);
    } else {
      QuietStep(c, done, budget);
      SuffixKeepsAheadInv(Ahead(c), k, c.cases, done, expected);
    }
  }

  lemma {:induction false} BeginKeepsRunInv(groups: seq<seq<Row>>, loaded: seq<Case>, expected: seq<string>)
    requires DistinctCases(loaded) && Within(loaded, expected) && !HasInvalid(loaded) && AllCostsValid(loaded)
    requires DistinctRows(Flatten(groups))
    requires forall i | 0 <= i < |Flatten(groups)| :: Flatten(groups)[i].id in expected
    ensures RunInv(Begin(groups, loaded), Ids(loaded), expected)
  {
    assert Ahead(Begin(groups, loaded)) == Flatten(groups);
  }

  /** In every state that keeps the invariant, `checkpoint()` cannot hit its duplicate or foreign ID
      errors, and the abort reason it records is the run's own. */
  lemma {:induction false} CheckpointNeverFails(c: Cursor, done: set<string>, expected: seq<string>, provenance: string)
    requires RunInv(c, done, expected) && Distinct(expected)
    ensures Build(provenance, expected, c.cases, c.aborted).Ok?
    ensures var a := Build(provenance, expected, c.cases, c.aborted).value;
      a.cases == c.cases && a.aborted == c.aborted && a.total == Micros(Total(c.cases))
  {
  }

  lemma {:induction false} FinalKeepsRunInv(c: Cursor, done: set<string>, budget: int, expected: seq<string>)
    requires RunInv(c, done, expected)
    ensures var f := Final(c, done, budget);
      RunInv(f, done, expected) && c.cases <= f.cases
    decreases |c.rest|, |c.group|, c.aborted.NotAborted?
  {
    if !Finished(c) {
      StepKeepsRunInv(c, done, budget, expected);
      FinalKeepsRunInv(Step(c, done, budget), done, budget, expected);
    }
  }

  /** Exit code 0 means exactly that every expected ID has its one record and nothing aborted;
      2 exactly that the experiment turned out invalid, recorded by the last case. */
  lemma {:induction false} ExitCodeMeaning(c: Cursor, done: set<string>, expected: seq<string>, provenance: string)
    requires RunInv(c, done, expected) && Finished(c) && Distinct(expected)
    ensures Build(provenance, expected, c.cases, c.aborted).Ok?
    ensures var code := ExitCode(Build(provenance, expected, c.cases, c.aborted).value);
      && (code == 0 <==> c.aborted.NotAborted? && forall id | id in expected :: id in Ids(c.cases))
      && (code == 2 <==> c.cases != [] && c.cases[|c.cases| - 1].failure == InvalidExperiment)
  {
    CheckpointNeverFails(c, done, expected, provenance);
    var all := set id | id in expected;
    if forall id | id in expected :: id in Ids(c.cases) {
      assert Ids(c.cases) == all;
      IdsSize(c.cases);
      ExpectedSize(expected);
    }
    if HasInvalid(c.cases) {
      var i :| 0 <= i < |c.cases| && c.cases[i].failure == InvalidExperiment;
      assert i == |c.cases| - 1;
    }
  }

  /** The cases f go on from `start`: each was recorded within the budget. */
  predicate WithinBudget(start: seq<Case>, f: seq<Case>, budget: int) {
    && start <= f
    && (forall n | |start| <= n < |f| :: Total(f[..n]) < budget)
    && (|f| > |start| ==> Total(f) < budget + TotalOf(f[|f| - 1]))
  }

  lemma {:induction false} OneMoreWithin(start: seq<Case>, c: Case, f: seq<Case>, budget: int)
    requires Total(start) < budget && WithinBudget(start + [c], f, budget)
    ensures WithinBudget(start, f, budget)
  {
    assert f[..|start|] == start;
    if |f| == |start| + 1 {
      assert f == start + [c];
      TotalSnoc(start, c);
    }
  }

  /** Before every case this run starts, the recorded total is strictly below the budget, so the
      final total exceeds the budget by less than the last case's cost. */
  lemma {:induction false} BudgetIsHeld(c: Cursor, done: set<string>, budget: int)
    ensures WithinBudget(c.cases, Final(c, done, budget).cases, budget)
    decreases |c.rest|, |c.group|, c.aborted.NotAborted?
  {
    if Finished(c) {
    } else {
      BudgetIsHeld(Step(c, done, budget), done, budget);
      if Records(c, done, budget) {
        RecordStep(c, done, budget);
        OneMoreWithin(c.cases, Try(c.group[0], c.repo).case_, Final(c, done, budget).cases, budget);
      }
    }
  }

  // ----- the loop itself -----

  /** Everything the loops keep: the run at hand is the run of the specification, and the artifacts
      written so far hold exactly the growing prefixes of the cases. */
  ghost predicate LoopInv(c: Cursor, done: set<string>, budget: int, expected: seq<string>, goal: Cursor,
          log: seq<Artifact>, loaded: seq<Case>, provenance: string) {
    && RunInv(c, done, expected)
    && Final(c, done, budget) == goal
    && loaded <= c.cases && Logged(log, loaded, c.cases, provenance, expected)
  }

  ghost predicate Logged(log: seq<Artifact>, loaded: seq<Case>, cases: seq<Case>, provenance: string,
          expected: seq<string>)
  {
    && |log| == |cases| - |loaded|
    && forall k | 0 <= k < |log| :: LoggedAt(log[k], cases[..|loaded| + k + 1], provenance, expected)
  }

  /** The artifact holds exactly these cases, as the builder accounts for them after the last one. */
  ghost predicate LoggedAt(a: Artifact, cases: seq<Case>, provenance: string, expected: seq<string>) {
    cases != [] && Build(provenance, expected, cases, AbortAfter(cases[|cases| - 1])) == Ok(a)
  }

  lemma {:induction false} LogOne(log: seq<Artifact>, loaded: seq<Case>, cases: seq<Case>, c: Case, artifact: Artifact,
          provenance: string, expected: seq<string>)
    requires loaded <= cases && Logged(log, loaded, cases, provenance, expected)
    requires Build(provenance, expected, cases + [c], AbortAfter(c)) == Ok(artifact)
    ensures loaded <= cases + [c] && Logged(log + [artifact], loaded, cases + [c], provenance, expected)
  {
    var longer, more := log + [artifact], cases + [c];
    forall k | 0 <= k < |longer| ensures LoggedAt(longer[k], more[..|loaded| + k + 1], provenance, expected) {
      if k < |log| {
        assert longer[k] == log[k];
        assert more[..|loaded| + k + 1] == cases[..|loaded| + k + 1];
      } else {
        assert more[..|loaded| + k + 1] == more;
      }
    }
  }

  lemma {:induction false} LoopStep(c: Cursor, done: set<string>, budget: int, expected: seq<string>, goal: Cursor,
          log: seq<Artifact>, loaded: seq<Case>, provenance: string)
    requires LoopInv(c, done, budget, expected, goal, log, loaded, provenance) && !Finished(c) && Distinct(expected)
    ensures var c' := Step(c, done, budget);
      if Records(c, done, budget) then
        && Build(provenance, expected, c'.cases, c'.aborted).Ok?
        && LoopInv(c', done, budget, expected, goal,
                   log + [Build(provenance, expected, c'.cases, c'.aborted).value], loaded, provenance)
      else
        LoopInv(c', done, budget, expected, goal, log, loaded, provenance)
  {
    var c' := Step(c, done, budget);
    StepKeepsRunInv(c, done, budget, expected);
    if Records(c, done, budget) {
      RecordStep(c, done, budget);
      CheckpointNeverFails(c', done, expected, provenance);
      var recorded, artifact := Try(c.group[0], c.repo).case_, Build(provenance, expected, c'.cases, c'.aborted).value;
      LogOne(log, loaded, c.cases, recorded, artifact, provenance, expected);
    } else {
      QuietStep(c, done, budget);
    }
  }

  /** The inner loop: the rows of one repository.  The ghost results say where in the
      specification's run the loop stopped. */
  method RunRepository(instances: seq<Row>, ghost rest: seq<seq<Row>>, completed: set<string>, budget: int,
          provenance: string, expected: seq<string>, cases0: seq<Case>, log0: seq<Artifact>, ghost loaded: seq<Case>,
          ghost goal: Cursor)
      returns (cases: seq<Case>, aborted: Abort, log: seq<Artifact>, ghost c: Cursor)
    requires Distinct(expected)
    requires LoopInv(Cursor(instances, rest, FRESH, cases0, NotAborted), completed, budget, expected, goal, log0,
          loaded, provenance)
    ensures LoopInv(c, completed, budget, expected, goal, log, loaded, provenance)
    ensures c.cases == cases && c.aborted == aborted
    ensures aborted.NotAborted? ==> c.group == [] && c.rest == rest
  {
    cases, aborted, log := cases0, NotAborted, log0;
    var spent := Total(cases);
    var repo := FRESH;
    c := Cursor(instances, rest, FRESH, cases0, NotAborted);
    for i := 0 to |instances|
      invariant aborted.NotAborted? && spent == Total(cases)
      invariant c == Cursor(instances[i..], rest, repo, cases, NotAborted)
      invariant LoopInv(c, completed, budget, expected, goal, log, loaded, provenance)
    {
      var row := instances[i];
      LoopStep(c, completed, budget, expected, goal, log, loaded, provenance);
      assert c.group[1..] == instances[i + 1..];
      c := Step(c, completed, budget);
      if row.id in completed {
        continue;
      }
      if spent >= budget {
        aborted := Threshold(budget, spent, |cases|);
        return;
      }
      var attempt := Try(row, repo);
      cases := cases + [attempt.case_];
      repo := attempt.repo;
      if attempt.case_.failure == InvalidExperiment {
        aborted := InvalidAbort(attempt.case_.code, row.id);
      }
      spent := Total(cases);
      log := log + [Build(provenance, expected, cases, aborted).value];
      if attempt.bail || !aborted.NotAborted? {
        return;
      }
    }
  }

  /** `main` from the resumed cases on.  `log` lists the artifacts handed to the checkpoint writer,
      in order: one after every recorded case, holding exactly the cases recorded so far, and the
      final one. */
  method RunShard(groups: seq<seq<Row>>, loaded: seq<Case>, budget: int, provenance: string, expected: seq<string>)
      returns (cases: seq<Case>, aborted: Abort, log: seq<Artifact>, exit: int)
    requires DistinctCases(loaded) && Within(loaded, expected) && !HasInvalid(loaded) && AllCostsValid(loaded)
    requires Distinct(expected) && DistinctRows(Flatten(groups))
    requires forall i | 0 <= i < |Flatten(groups)| :: Flatten(groups)[i].id in expected
    ensures cases == Run(groups, loaded, budget).cases && aborted == Run(groups, loaded, budget).aborted
    ensures |log| == |cases| - |loaded| + 1 >= 1
    ensures forall k | 0 <= k < |log| - 1 :: LoggedAt(log[k], cases[..|loaded| + k + 1], provenance, expected)
    ensures Build(provenance, expected, cases, aborted) == Ok(log[|log| - 1])
    ensures exit == ExitCode(log[|log| - 1])
  {
    var completed := Ids(loaded);
    cases, aborted, log := loaded, NotAborted, [];
    ghost var goal := Run(groups, loaded, budget);
    ghost var c := Begin(groups, loaded);
    BeginKeepsRunInv(groups, loaded, expected);
    var g := 0;
    while g < |groups| && aborted.NotAborted?
      invariant 0 <= g <= |groups|
      invariant LoopInv(c, completed, budget, expected, goal, log, loaded, provenance)
      invariant c.cases == cases && c.aborted == aborted
      invariant aborted.NotAborted? ==> c.group == [] && c.rest == groups[g..]
    {
      LoopStep(c, completed, budget, expected, goal, log, loaded, provenance);
      assert c.rest[1..] == groups[g + 1..];
      c := Step(c, completed, budget);
      cases, aborted, log, c := RunRepository(groups[g], groups[g + 1..], completed, budget, provenance, expected,
                                              cases, log, loaded, goal);
      g := g + 1;
    }
    CheckpointNeverFails(c, completed, expected, provenance);
    log := log + [Build(provenance, expected, cases, aborted).value];
    exit := ExitCode(log[|log| - 1]);
  }
}
