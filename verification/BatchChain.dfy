/** The graph batch over its resume file: loading it, one contracted run, and chains of runs. */
module BatchChain {
  import opened Outcomes
  import opened GraphBatch

  // ----- the resume file -----

  datatype Contract = Contract(id: string, expected: seq<string>)
  datatype BatchRecord = BatchRecord(contract: Contract, aborted: Stop, cases: seq<InstanceResult>)
  datatype LoadError = ContractMismatch | PersistedInvalid | BadCost | DuplicateIds | ForeignIds

  predicate DistinctResults(rs: seq<InstanceResult>) {
    forall i, j | 0 <= i < j < |rs| :: rs[i].id != rs[j].id
  }

  predicate Expected(rs: seq<InstanceResult>, contract: Contract) {
    forall i | 0 <= i < |rs| :: rs[i].id in contract.expected
  }

  /** `load_graph_resume_instances`. */
  function LoadInstances(record: BatchRecord, contract: Contract): Result<seq<InstanceResult>, LoadError> {
    if record.contract != contract then Err(ContractMismatch)
    else if record.aborted.Invalid? || AnyInvalid(record.cases) then Err(PersistedInvalid)
    else if exists i :: 0 <= i < |record.cases| && record.cases[i].cost < 0 then Err(BadCost)
    else if !DistinctResults(record.cases) then Err(DuplicateIds)
    else if !Expected(record.cases, contract) then Err(ForeignIds)
    else Ok(record.cases)
  }

  /** A file is loaded exactly when its contract is this one, nothing in it is invalid, no case costs less than
      nothing, and its IDs are different expected ones; otherwise the first of these to fail is named. */
  lemma {:induction false} LoadsExactly(record: BatchRecord, contract: Contract)
    ensures var r, cs := LoadInstances(record, contract), record.cases;
      var invalid := record.aborted.Invalid? || exists c :: c in cs && c.failure == InvalidExperiment;
      var below := exists c :: c in cs && c.cost < 0;
      var foreign := exists c :: c in cs && c.id !in contract.expected;
      && (r == Err(ContractMismatch) <==> record.contract != contract)
      && (r == Err(PersistedInvalid) <==> record.contract == contract && invalid)
      && (r == Err(BadCost) <==> record.contract == contract && !invalid && below)
      && (r == Err(DuplicateIds) <==> record.contract == contract && !invalid && !below && Repeats(cs))
      && (r == Err(ForeignIds) <==> record.contract == contract && !invalid && !below && !Repeats(cs) && foreign)
      && (r == Ok(cs) <==> record.contract == contract && !invalid && !below && !Repeats(cs) && !foreign)
  {
    assert forall i | 0 <= i < |record.cases| :: record.cases[i] in record.cases;
  }

  predicate Repeats(cs: seq<InstanceResult>) {
    exists i, j :: 0 <= i < j < |cs| && cs[i].id == cs[j].id
  }

  // ----- one contracted run -----

  /** The rows of one run: distinct, and named by the contract. */
  predicate Selected(xs: seq<Instance>, contract: Contract) {
    DistinctInstances(xs) && forall i | 0 <= i < |xs| :: xs[i].id in contract.expected
  }

  /** The cases a checkpoint of the run may hold: the resumed ones, and then evaluations of the first
      pending instances. */
  ghost predicate Recorded(xs: seq<Instance>, resumed: seq<InstanceResult>, cases: seq<InstanceResult>) {
    resumed <= cases && Results(cases[|resumed|..], Pending(xs, ResultIds(resumed)))
  }

  /** The k-th entry of the log, as the file it leaves when the write succeeds. */
  function FileOf(contract: Contract, e: Entry): BatchRecord
    requires e.Wrote?
  {
    BatchRecord(contract, e.aborted, e.cases)
  }

  /** What a run with this resume file starts from; nothing when the file is rejected. */
  function ResumedFrom(contract: Contract, file: Option<BatchRecord>): Result<seq<InstanceResult>, LoadError> {
    if file.None? then Ok([]) else LoadInstances(file.value, contract)
  }

  /** A file a run may leave behind: it holds recorded cases, none of them recorded after a reason to stop,
      and names an invalid experiment only if it holds one. */
  ghost predicate Leaves(contract: Contract, xs: seq<Instance>, resumed: seq<InstanceResult>, budget: int,
          file: BatchRecord)
  {
    && file.contract == contract && Recorded(xs, resumed, file.cases) && Unstopped(file.cases, |resumed|, budget)
    && (file.aborted.Invalid? ==> AnyInvalid(file.cases))
  }

  /** `main` with a contract: a rejected resume file ends the run before anything happens; otherwise the
      batch runs, and every checkpoint it writes is a file of the kind above. */
  method RunContracted(xs: seq<Instance>, contract: Contract, file: Option<BatchRecord>, budget: int,
          writeOk: nat -> bool)
      returns (instances: seq<InstanceResult>, counters: Tally, log: seq<Entry>, exit: int)
    ensures ResumedFrom(contract, file).Err? ==> exit == 2 && log == [] && instances == []
    ensures ResumedFrom(contract, file).Ok? ==>
              var resumed := ResumedFrom(contract, file).value;
              && Recorded(xs, resumed, instances) && counters == TallyOf(instances)
              && WriteAhead(log, instances, budget)
              && (forall k | 0 <= k < |log| && log[k].Wrote? ::
                Leaves(contract, xs, resumed, budget, FileOf(contract, log[k])))
              && Unstopped(instances, |resumed|, budget)
              && log != [] && log[|log| - 1].Wrote? && log[|log| - 1].cases == instances
              && (AllWritesOk(log) && log[|log| - 1].aborted != Interrupted ==>
                EndsItself(xs, resumed, instances, budget))
              && (AllSound(resumed) ==> AllSound(instances) && Ordered(counters, |instances|))
              && exit == if AllWritesOk(log) && !AnyInvalid(instances) then 0 else 2
  {
    var resumed := ResumedFrom(contract, file);
    if resumed.Err? {
      return [], TallyOf([]), [], 2;
    }
    var summary;
    summary, log, exit := RunBatch(xs, resumed.value, budget, writeOk);
    instances, counters := summary.instances, summary.Current();
    forall k | 0 <= k < |log| && log[k].Wrote?
      ensures Leaves(contract, xs, resumed.value, budget, FileOf(contract, log[k])) {
      PrefixIsRecorded(xs, resumed.value, instances, log[k].cases);
      assert forall m | 0 <= m < |log[k].cases| :: log[k].cases[..m] == instances[..m];
    }
  }

  lemma {:induction false} PrefixIsRecorded(xs: seq<Instance>, resumed: seq<InstanceResult>, all: seq<InstanceResult>,
          cases: seq<InstanceResult>)
    requires Recorded(xs, resumed, all) && resumed <= cases <= all
    ensures Recorded(xs, resumed, cases)
  {
    var pending, some, every := Pending(xs, ResultIds(resumed)), cases[|resumed|..], all[|resumed|..];
    forall i | 0 <= i < |some| ensures !pending[i].world.Interrupts? && some[i] == Evaluated(pending[i]) {
      assert some[i] == every[i];
    }
  }

  // ----- chains of runs -----

  /** One run of a chain: its rows, with the world's answers of its own time, its budget, and the file it left. */
  datatype Link = Link(xs: seq<Instance>, budget: int, file: BatchRecord)

  /** The file a chain's next run resumes from. */
  function LastFile(chain: seq<Link>): Option<BatchRecord> {
    if chain == [] then None else Some(chain[|chain| - 1].file)
  }

  /** Every run resumes from what the run before it left, and leaves one of its checkpoints. */
  ghost predicate IsChain(contract: Contract, chain: seq<Link>)
    decreases |chain|
  {
    chain == [] ||
    var front, link := chain[..|chain| - 1], chain[|chain| - 1];
    && IsChain(contract, front) && Selected(link.xs, contract)
    && ResumedFrom(contract, LastFile(front)).Ok?
    && Leaves(contract, link.xs, ResumedFrom(contract, LastFile(front)).value, link.budget, link.file)
  }

  /** What every file of every chain satisfies. */
  ghost predicate GoodFile(contract: Contract, file: BatchRecord) {
    && file.contract == contract && AllSound(file.cases) && DistinctResults(file.cases) &&
      Expected(file.cases, contract)
    && (file.aborted.Invalid? ==> AnyInvalid(file.cases))
  }

  lemma {:induction false} PendingMembers(xs: seq<Instance>, ids: set<string>)
    requires DistinctInstances(xs)
    ensures var pending := Pending(xs, ids);
            && DistinctInstances(pending)
            && forall i | 0 <= i < |pending| :: pending[i] in xs && pending[i].id !in ids
    decreases |xs|
  {
    if xs != [] {
      var front, x := xs[..|xs| - 1], xs[|xs| - 1];
      PendingMembers(front, ids);
      assert xs == front + [x];
    }
  }

  lemma {:induction false} NewCase(xs: seq<Instance>, resumed: seq<InstanceResult>, cases: seq<InstanceResult>, i: nat)
    requires Recorded(xs, resumed, cases) && |resumed| <= i < |cases|
    ensures var x := Pending(xs, ResultIds(resumed))[i - |resumed|];
            !x.world.Interrupts? && cases[i] == Evaluated(x) && cases[i].id == x.id && Sound(cases[i])
  {
    assert cases[i] == cases[|resumed|..][i - |resumed|];
    EvaluationIsSound(Pending(xs, ResultIds(resumed))[i - |resumed|]);
  }

  lemma {:induction false} RecordedIsGood(contract: Contract, xs: seq<Instance>, resumed: seq<InstanceResult>,
          cases: seq<InstanceResult>)
    requires Selected(xs, contract) && Recorded(xs, resumed, cases)
    requires AllSound(resumed) && DistinctResults(resumed) && Expected(resumed, contract)
    ensures AllSound(cases) && DistinctResults(cases) && Expected(cases, contract)
  {
    PendingMembers(xs, ResultIds(resumed));
    forall i | |resumed| <= i < |cases|
      ensures Sound(cases[i]) && cases[i].id in contract.expected && cases[i].id !in ResultIds(resumed)
      ensures forall j | |resumed| <= j < i :: cases[j].id != cases[i].id
    {
      NewCase(xs, resumed, cases, i);
      forall j | |resumed| <= j < i ensures cases[j].id != cases[i].id {
        NewCase(xs, resumed, cases, j);
      }
    }
    assert forall i | 0 <= i < |resumed| :: cases[i] == resumed[i] && cases[i].id in ResultIds(resumed);
  }

  lemma {:induction false} ChainFilesAreGood(contract: Contract, chain: seq<Link>)
    requires IsChain(contract, chain) && chain != []
    ensures GoodFile(contract, chain[|chain| - 1].file)
    decreases |chain|
  {
    var front, link := chain[..|chain| - 1], chain[|chain| - 1];
    if front != [] {
      ChainFilesAreGood(contract, front);
    }
    RecordedIsGood(contract, link.xs, ResumedFrom(contract, LastFile(front)).value, link.file.cases);
  }

  /** What any chain of runs leaves reloads to the same instances exactly when it holds no invalid one and
      the contract is the same; and its counters are ordered. */
  lemma {:induction false} ChainReloadsExactly(contract: Contract, chain: seq<Link>, contract': Contract)
    requires IsChain(contract, chain) && chain != []
    ensures var file := chain[|chain| - 1].file;
            && (LoadInstances(file, contract').Ok? <==> contract' == contract && !AnyInvalid(file.cases))
            && (LoadInstances(file, contract').Ok? ==> LoadInstances(file, contract').value == file.cases)
            && DistinctResults(file.cases) && Expected(file.cases, contract) &&
              Ordered(TallyOf(file.cases), |file.cases|)
  {
    ChainFilesAreGood(contract, chain);
    CountersAreOrdered(chain[|chain| - 1].file.cases);
  }

  /** The same for the summary of the next run, whatever stops it. */
  lemma {:induction false} NextSummaryIsOrdered(contract: Contract, chain: seq<Link>, xs: seq<Instance>,
          instances: seq<InstanceResult>)
    requires IsChain(contract, chain) && ResumedFrom(contract, LastFile(chain)).Ok?
    requires Selected(xs, contract) && Recorded(xs, ResumedFrom(contract, LastFile(chain)).value, instances)
    ensures AllSound(instances) && Ordered(TallyOf(instances), |instances|)
    ensures DistinctResults(instances) && Expected(instances, contract)
  {
    if chain != [] {
      ChainFilesAreGood(contract, chain);
    }
    RecordedIsGood(contract, xs, ResumedFrom(contract, LastFile(chain)).value, instances);
    CountersAreOrdered(instances);
  }

  // ----- chains over the same rows -----

  predicate DistinctInstances(xs: seq<Instance>) {
    forall i, j | 0 <= i < j < |xs| :: xs[i].id != xs[j].id
  }

  lemma {:induction false} PendingIsRest(xs: seq<Instance>, done: set<string>, k: nat)
    requires k <= |xs|
    requires forall i | 0 <= i < |xs| :: xs[i].id in done <==> i < k
    ensures Pending(xs, done) == xs[k..]
  {
    if |xs| == k {
      if xs != [] {
        PendingIsRest(xs[..|xs| - 1], done, k - 1);
      }
    } else {
      PendingIsRest(xs[..|xs| - 1], done, k);
    }
  }

  /** A run that resumes from what an earlier run recorded, however far that got, continues it: the
      two together are again the evaluations of the first instances, in order and none of them twice,
      and all of them once the second run ends without being stopped. */
  lemma {:induction false} ChainedRunsContinue(xs: seq<Instance>, resumed: seq<InstanceResult>,
          new_: seq<InstanceResult>)
    requires DistinctInstances(xs) && Results(resumed, xs)
    requires Results(new_, Pending(xs, ResultIds(resumed)))
    ensures Results(resumed + new_, xs) && DistinctResults(resumed + new_)
    ensures |new_| == |Pending(xs, ResultIds(resumed))| ==> |resumed + new_| == |xs|
  {
    var k, all := |resumed|, resumed + new_;
    forall i | 0 <= i < |xs| ensures xs[i].id in ResultIds(resumed) <==> i < k {
      if i < k {
        EvaluationIsSound(xs[i]);
        assert resumed[i].id == xs[i].id;
      } else if xs[i].id in ResultIds(resumed) {
        var j :| 0 <= j < k && resumed[j].id == xs[i].id;
        EvaluationIsSound(xs[j]);
      }
    }
    PendingIsRest(xs, ResultIds(resumed), k);
    forall i | 0 <= i < |all| ensures !xs[i].world.Interrupts? && all[i] == Evaluated(xs[i]) && all[i].id == xs[i].id {
      if i >= k {
        assert xs[k..][i - k] == xs[i] && all[i] == new_[i - k];
      }
      EvaluationIsSound(xs[i]);
    }
  }

  predicate SameRows(chain: seq<Link>, xs: seq<Instance>, budget: int) {
    forall k | 0 <= k < |chain| :: chain[k].xs == xs && chain[k].budget == budget
  }

  /** What the last run of the chain resumed from. */
  function LastResumed(contract: Contract, chain: seq<Link>): seq<InstanceResult>
    requires chain != []
  {
    var loaded := ResumedFrom(contract, LastFile(chain[..|chain| - 1]));
    if loaded.Ok? then loaded.value else []
  }

  lemma {:induction false} LastLink(contract: Contract, chain: seq<Link>)
    requires IsChain(contract, chain) && chain != []
    ensures var link := chain[|chain| - 1];
      && DistinctInstances(link.xs)
      && Recorded(link.xs, LastResumed(contract, chain), link.file.cases)
      && Unstopped(link.file.cases, |LastResumed(contract, chain)|, link.budget)
  {
  }

  /** However a batch over the same rows was cut into runs, the file left last holds the evaluations of
      the first rows, in order, none twice, and none after a reason to stop. */
  lemma {:induction false} ChainContinues(contract: Contract, chain: seq<Link>, xs: seq<Instance>, budget: int)
    requires IsChain(contract, chain) && chain != [] && SameRows(chain, xs, budget)
    ensures Results(LastResumed(contract, chain), xs)
    ensures Results(chain[|chain| - 1].file.cases, xs) && Unstopped(chain[|chain| - 1].file.cases, 0, budget)
    decreases |chain|
  {
    var front, resumed, cases := chain[..|chain| - 1], LastResumed(contract, chain), chain[|chain| - 1].file.cases;
    if front == [] {
    } else {
      assert forall k | 0 <= k < |front| :: front[k] == chain[k];
      ChainContinues(contract, front, xs, budget);
    }
    LastLink(contract, chain);
    assert forall m | 0 <= m < |resumed| :: cases[..m] == resumed[..m];
    ChainedRunsContinue(xs, resumed, cases[|resumed|..]);
    assert resumed + cases[|resumed|..] == cases;
  }

  lemma {:induction false} FirstRun(xs: seq<Instance>, rs: seq<InstanceResult>)
    ensures Pending(xs, ResultIds([])) == xs
    ensures Recorded(xs, [], rs) <==> Results(rs, xs)
  {
    PendingIsRest(xs, ResultIds([]), 0);
    assert xs[0..] == xs && rs[0..] == rs;
  }

  lemma {:induction false} OnePrefixesOther(xs: seq<Instance>, a: seq<InstanceResult>, b: seq<InstanceResult>)
    requires Results(a, xs) && Results(b, xs) && |a| <= |b|
    ensures a == b[..|a|]
  {
  }

  /** There is one point at which runs over these rows may stop by themselves. */
  lemma {:induction false} EndIsUnique(xs: seq<Instance>, a: seq<InstanceResult>, b: seq<InstanceResult>, budget: int)
    requires Results(a, xs) && Unstopped(a, 0, budget) && EndsItself(xs, [], a, budget)
    requires Results(b, xs) && Unstopped(b, 0, budget) && EndsItself(xs, [], b, budget)
    ensures a == b
  {
    FirstRun(xs, a);
    if |a| <= |b| {
      OnePrefixesOther(xs, a, b);
    }
    if |b| <= |a| {
      OnePrefixesOther(xs, b, a);
    }
  }

  lemma {:induction false} EndsItselfAlone(xs: seq<Instance>, resumed: seq<InstanceResult>, cases: seq<InstanceResult>,
          budget: int)
    requires DistinctInstances(xs) && Results(resumed, xs) && Recorded(xs, resumed, cases)
    requires EndsItself(xs, resumed, cases, budget)
    ensures EndsItself(xs, [], cases, budget)
  {
    ChainedRunsContinue(xs, resumed, cases[|resumed|..]);
    assert resumed + cases[|resumed|..] == cases;
    FirstRun(xs, cases);
  }

  /** However a batch over the same rows and budget was cut into runs: once its last run stops by itself,
      it has recorded exactly what one run nobody interrupted records. */
  lemma {:induction false} ChainIsOneRun(contract: Contract, chain: seq<Link>, xs: seq<Instance>, budget: int,
          alone: seq<InstanceResult>)
    requires Recorded(xs, [], alone) && Unstopped(alone, 0, budget) && EndsItself(xs, [], alone, budget)
    requires IsChain(contract, chain) && chain != [] && SameRows(chain, xs, budget)
    requires EndsItself(xs, LastResumed(contract, chain), chain[|chain| - 1].file.cases, budget)
    ensures chain[|chain| - 1].file.cases == alone
  {
    var cases := chain[|chain| - 1].file.cases;
    FirstRun(xs, alone);
    ChainContinues(contract, chain, xs, budget);
    LastLink(contract, chain);
    EndsItselfAlone(xs, LastResumed(contract, chain), cases, budget);
    EndIsUnique(xs, cases, alone, budget);
  }
}
