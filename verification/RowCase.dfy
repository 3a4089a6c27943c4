/** What is recorded for a row: its case, read off the row and the state of its repository, in every run. */
module RowCase {
  import opened Outcomes
  import opened RetrievalArtifact
  import opened ShardRun

  /** The working tree is there: a clone that fits, or a checkout in one. */
  predicate Ready(row: Row, repo: RepoState) {
    if repo.cloned then row.checkoutOk else row.cloneOk && !row.tooLarge
  }

  /** The index operation the row gets, the first one of a repository in full. */
  function IndexOf(row: Row, repo: RepoState): IndexOutcome {
    if repo.firstInRepo then row.full else row.incremental
  }

  /** Indexed, found, hits and chunks are those of the operations that were reached. */
  predicate Reports(c: Case, row: Row, repo: RepoState) {
    && c.id == row.id
    && (c.indexed <==> Ready(row, repo) && IndexOf(row, repo).Indexed?)
    && (c.ok <==> c.indexed && row.search.Found?)
    && c.hits == (if c.ok then row.search.hits else Hits(false, false, false))
    && c.chunks == if c.indexed then IndexOf(row, repo).chunks else 0
  }

  /** An indexed row pays 80 micro-dollars a chunk and 20000 for its query, found or not; others nothing. */
  predicate Charges(c: Case) {
    var index, query := if c.indexed then 80 * c.chunks else 0, if c.indexed then 20000 else 0;
    c.cost == Cost(Micros(index), Micros(query), Micros(index + query), "index_plus_marginal_query")
  }

  predicate FailsAs(c: Case, failure: FailureClass, code: string) {
    c.failure == failure && c.code == code
  }

  /** Every stage that fails leaves its own class and code. */
  predicate Blames(c: Case, row: Row, repo: RepoState) {
    && (!repo.cloned && !row.cloneOk ==> FailsAs(c, Infrastructure, "clone_failed"))
    && (!repo.cloned && row.cloneOk && row.tooLarge ==> FailsAs(c, MeasuredOutcome, "repo_too_large"))
    && (repo.cloned && !row.checkoutOk ==> FailsAs(c, Infrastructure, "checkout_failed"))
    && (Ready(row, repo) ==>
          match IndexOf(row, repo)
          case IndexInvalid(code) => FailsAs(c, InvalidExperiment, code)
          case IndexError => FailsAs(c, Infrastructure, "retrieval_error")
          case Indexed(_) => true)
    && (c.indexed ==>
          match row.search
          case SearchInvalid(code) => FailsAs(c, InvalidExperiment, code)
          case SearchError(code) => FailsAs(c, Infrastructure, code)
          case Found(_) => FailsAs(c, NoFailure, ""))
  }

  predicate Describes(c: Case, row: Row, repo: RepoState) {
    Reports(c, row, repo) && Charges(c) && Blames(c, row, repo)
  }

  /** Trying a row records exactly that; the repository is cloned from the first row that brings it in, and
      indexed from the first row that gets through. */
  lemma {:induction false} TryDescribes(row: Row, repo: RepoState)
    ensures var a := Try(row, repo);
      && Describes(a.case_, row, repo)
      && (a.repo.cloned <==> repo.cloned || (row.cloneOk && !row.tooLarge))
      && (a.repo.firstInRepo <==> repo.firstInRepo && !a.case_.indexed)
  {
  }

  // ----- whole runs -----

  /** Where the run records its next case: the row at hand and the flags at hand. */
  predicate IsCaseOf(c: Case, rows: seq<Row>) {
    exists i, cloned, first :: 0 <= i < |rows| && Describes(c, rows[i], RepoState(cloned, first))
  }

  lemma {:induction false} CaseStays(c: Case, rows: seq<Row>, k: nat)
    requires k <= |rows| && IsCaseOf(c, rows[k..])
    ensures IsCaseOf(c, rows)
  {
    var i, cloned, first :| 0 <= i < |rows[k..]| && Describes(c, rows[k..][i], RepoState(cloned, first));
    assert rows[k..][i] == rows[k + i];
  }

  lemma {:induction false} CaseOfFirst(rows: seq<Row>, repo: RepoState)
    requires rows != []
    ensures IsCaseOf(Try(rows[0], repo).case_, rows)
  {
    TryDescribes(rows[0], repo);
    assert Describes(Try(rows[0], repo).case_, rows[0], RepoState(repo.cloned, repo.firstInRepo));
  }

  /** Whatever a run records is such a case of a row ahead of it. */
  lemma {:induction false} FinalDescribes(c: Cursor, done: set<string>, budget: int)
    ensures var f := Final(c, done, budget);
      && c.cases <= f.cases
      && forall n | |c.cases| <= n < |f.cases| :: IsCaseOf(f.cases[n], Ahead(c))
    decreases |c.rest|, |c.group|, c.aborted.NotAborted?
  {
    BudgetIsHeld(c, done, budget);
    if Finished(c) {
    } else {
      var c', f := Step(c, done, budget), Final(c, done, budget);
      FinalDescribes(c', done, budget);
      AheadSteps(c, done, budget);
      forall n | |c.cases| <= n < |f.cases| ensures IsCaseOf(f.cases[n], Ahead(c)) {
        if n < |c'.cases| {
          RecordStep(c, done, budget);
          CaseOfFirst(Ahead(c), c.repo);
        } else {
          CaseStays(f.cases[n], Ahead(c), |Ahead(c)| - |Ahead(c')|);
        }
      }
    }
  }

  /** Every case a shard run adds to the loaded ones describes one of its rows, costs and all. */
  lemma {:induction false} RunDescribes(groups: seq<seq<Row>>, loaded: seq<Case>, budget: int)
    ensures var f := Run(groups, loaded, budget);
      && loaded <= f.cases
      && forall n | |loaded| <= n < |f.cases| :: IsCaseOf(f.cases[n], Flatten(groups))
  {
    FinalDescribes(Begin(groups, loaded), Ids(loaded), budget);
    assert Ahead(Begin(groups, loaded)) == Flatten(groups);
  }
}
