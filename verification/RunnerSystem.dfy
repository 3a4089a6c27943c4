/** The retrieval runner as a whole. */
module RunnerSystem {

  // A process that loads, works and checkpoints, over a file system that may lose whatever was not
  // synced, launched again and again after kills, power cuts, raised I/O errors and refusals.  Every
  // launch resumes implicitly from its own output file, and brings its own rows: what the world
  // answers to a row may differ from launch to launch.

  import opened Outcomes
  import opened RetrievalArtifact
  import opened ShardRun
  import opened Resumption
  import opened DurableReplace

  /** What stays the same across launches. */
  datatype Job = Job(budget: int, provenance: string, expected: seq<string>)

  datatype Process =
    | Down
    | Working(pid: nat, cur: Cursor, done: set<string>, loaded: nat)
    | Saving(w: Writer<Artifact>, cur: Cursor, done: set<string>, loaded: nat)
    | Closing(w: Writer<Artifact>, cur: Cursor, done: set<string>)
    | Refusing(w: Writer<Artifact>)

  datatype System = System(fs: FileSystem<Artifact>, proc: Process, exits: seq<int>)

  datatype Happening =
    | Launch(pid: nat, groups: seq<seq<Row>>) // load the output file and start, or refuse
    | LaunchRefused(pid: nat) // a missing credential, dataset or contract: refuse without loading
    | Work                    // one step of the run
    | Io(e: Event)            // the writer at hand, or the kernel
    | Kill                    // the process is gone; files stay as processes see them
    | PowerLoss               // the process is gone, and so is whatever was not durable

  function Init(): System {
    System(FileSystem(map[], map[], map[], map[]), Down, [])
  }

  function LoadVisible(job: Job, fs: FileSystem<Artifact>): Result<seq<Case>, Error> {
    match Visible(fs)
    case None => Load(None, job.provenance, job.expected, true)
    case Some(Torn) => Err(WrongArm) // not even JSON
    case Some(Whole(a)) => Load(Some(a), job.provenance, job.expected, true)
  }

  function Next(job: Job, s: System, h: Happening): System {
    match h
    case PowerLoss => s.(fs := PowerCut(s.fs), proc := Down)
    case Kill => s.(proc := Down)
    case Launch(pid, groups) =>
      if !s.proc.Down? then s else
      (match LoadVisible(job, s.fs)
       case Ok(cases) => s.(proc := Working(pid, Begin(groups, cases), Ids(cases), |cases|))
       case Err(_) => s.(proc := Refusing(Writer(pid, Refusal(job.provenance), Entered))))
    case LaunchRefused(pid) =>
      if !s.proc.Down? then s else s.(proc := Refusing(Writer(pid, Refusal(job.provenance), Entered)))
    case Work =>
      if !s.proc.Working? then s else WorkStep(job, s, s.proc)
    case Io(e) =>
      if Writes(s.proc) then IoStep(s, e) else s.(fs := Background(s.fs, e))
  }

  predicate Writes(p: Process) {
    p.Saving? || p.Closing? || p.Refusing?
  }

  /** What becomes of a process whose writer has gone this far, and the exit codes it leaves. */
  function Proceed(p: Process, w: Writer<Artifact>): (Process, seq<int>)
    requires Writes(p)
  {
    if w.phase.Raised? then (Down, [1])
    else if !w.phase.Returned? then (p.(w := w), [])
    else
      match p
      case Saving(_, cur, done, loaded) => (Working(w.pid, cur, done, loaded), [])
      case Closing(_, _, _) => (Down, [ExitCode(w.payload)])
      case _ => (Down, [2])
  }

  function IoStep(s: System, e: Event): System
    requires Writes(s.proc)
  {
    var (fs', w') := Happen(s.fs, s.proc.w, e);
    var (p', codes) := Proceed(s.proc, w');
    System(fs', p', s.exits + codes)
  }

  /** One step of the run; recording a case, or finishing, hands an artifact to the writer. */
  function WorkStep(job: Job, s: System, p: Process): System
    requires p.Working?
  {
    if Finished(p.cur) then
      match Build(job.provenance, job.expected, p.cur.cases, p.cur.aborted)
      case Ok(a) => s.(proc := Closing(Writer(p.pid, a, Entered), p.cur, p.done))
      case Err(_) => s.(proc := Down, exits := s.exits + [1])
    else
      var cur' := Step(p.cur, p.done, job.budget);
      if !Records(p.cur, p.done, job.budget) then s.(proc := Working(p.pid, cur', p.done, p.loaded))
      else
        match Build(job.provenance, job.expected, cur'.cases, cur'.aborted)
        case Ok(a) => s.(proc := Saving(Writer(p.pid, a, Entered), cur', p.done, p.loaded))
        case Err(_) => s.(proc := Down, exits := s.exits + [1])
  }

  function Behaviour(job: Job, s: System, hs: seq<Happening>): System
    decreases |hs|
  {
    if hs == [] then s else Behaviour(job, Next(job, s, hs[0]), hs[1..])
  }

  // ----- the invariant -----

  /** Rows a launch may bring: distinct and expected. */
  predicate Fits(job: Job, groups: seq<seq<Row>>) {
    && DistinctRows(Flatten(groups))
    && forall i | 0 <= i < |Flatten(groups)| :: Flatten(groups)[i].id in job.expected
  }

  /** A goal, when there is one, is the outcome every launch would have if nobody disturbed it, and no
      launch's undisturbed run loses or shifts a row. */
  ghost predicate LaunchOk(job: Job, goal: Option<Outcome>, groups: seq<seq<Row>>) {
    && Fits(job, groups)
    && (goal.Some? ==>
          && Survives(Begin(groups, []), {}, job.budget)
          && OutcomeOf(Run(groups, [], job.budget)) == goal.value)
  }

  ghost predicate LaunchesOk(job: Job, goal: Option<Outcome>, hs: seq<Happening>) {
    Distinct(job.expected) && forall i | 0 <= i < |hs| && hs[i].Launch? :: LaunchOk(job, goal, hs[i].groups)
  }

  /** An artifact some launch may have written: a refusal, or the builder's account of distinct expected
      cases with exact costs, and on the way to the goal. */
  ghost predicate Good(job: Job, goal: Option<Outcome>, a: Artifact) {
    || a == Refusal(job.provenance)
    || (Build(job.provenance, job.expected, a.cases, a.aborted) == Ok(a) && AllCostsValid(a.cases)
        && (a.aborted.InvalidAbort? ==> HasInvalid(a.cases))
        && (goal.Some? ==> a.cases <= goal.value.cases))
  }

  /** A run in progress keeps the run invariant and will end at the goal. */
  ghost predicate OnCourse(job: Job, goal: Option<Outcome>, cur: Cursor, done: set<string>) {
    && RunInv(cur, done, job.expected)
    && (goal.Some? ==> OutcomeOf(Final(cur, done, job.budget)) == goal.value)
  }

  /** The cases recorded by this launch are on disk. */
  ghost predicate Saved(s: System, cases: seq<Case>, loaded: nat) {
    |cases| > loaded ==>
      && Surviving(s.fs) == Visible(s.fs)
      && Visible(s.fs).Some? && Visible(s.fs).value.Whole? && Visible(s.fs).value.payload.cases == cases
  }

  ghost predicate Busy(s: System, w: Writer<Artifact>) {
    WriterInv(s.fs, w) && !w.phase.Returned? && !w.phase.Raised?
  }

  ghost predicate ProcInv(job: Job, goal: Option<Outcome>, s: System) {
    match s.proc
    case Down => true
    case Working(_, cur, done, loaded) => OnCourse(job, goal, cur, done) && Saved(s, cur.cases, loaded)
    case Saving(w, cur, done, _) =>
      Busy(s, w) && Good(job, goal, w.payload) && w.payload.cases == cur.cases && OnCourse(job, goal, cur, done)
    case Closing(w, cur, done) =>
      && Busy(s, w) && Good(job, goal, w.payload) && OnCourse(job, goal, cur, done) && Finished(cur)
      && Build(job.provenance, job.expected, cur.cases, cur.aborted) == Ok(w.payload)
    case Refusing(w) => Busy(s, w) && Good(job, goal, w.payload) && w.payload == Refusal(job.provenance)
  }

  ghost predicate SystemInv(job: Job, goal: Option<Outcome>, s: System) {
    Inv(s.fs, a => Good(job, goal, a), true) && ProcInv(job, goal, s)
  }

  lemma {:induction false} LaunchIsOnCourse(job: Job, goal: Option<Outcome>, groups: seq<seq<Row>>,
          file: Option<Artifact>)
    requires Distinct(job.expected) && LaunchOk(job, goal, groups) && (file.Some? ==> Good(job, goal, file.value))
    ensures var loaded := Load(file, job.provenance, job.expected, true);
      loaded.Ok? ==> OnCourse(job, goal, Begin(groups, loaded.value), Ids(loaded.value))
  {
    var loaded := Load(file, job.provenance, job.expected, true);
    if loaded.Ok? {
      var cases := loaded.value;
      LoadedCasesAreSound(file, job.provenance, job.expected, true);
      BeginKeepsRunInv(groups, cases, job.expected);
      if goal.Some? {
        ResumesExactly(groups, job.budget, job.expected);
        assert goal.value.cases[..|cases|] == cases;
        assert Loadable(groups, job.budget, |cases|);
        assert OutcomeOf(ResumeFrom(groups, job.budget, |cases|)) == goal.value;
      }
    }
  }

  lemma {:induction false} LaunchKeepsInv(job: Job, goal: Option<Outcome>, s: System, pid: nat, groups: seq<seq<Row>>)
    requires Distinct(job.expected) && LaunchOk(job, goal, groups) && SystemInv(job, goal, s)
    ensures SystemInv(job, goal, Next(job, s, Launch(pid, groups)))
  {
    if s.proc.Down? {
      match Visible(s.fs) {
        case None => LaunchIsOnCourse(job, goal, groups, None);
        case Some(Torn) =>
        case Some(Whole(a)) => LaunchIsOnCourse(job, goal, groups, Some(a));
      }
    }
  }

  lemma {:induction false} WrittenIsGood(job: Job, goal: Option<Outcome>, cur: Cursor, done: set<string>)
    requires Distinct(job.expected) && OnCourse(job, goal, cur, done)
    ensures Build(job.provenance, job.expected, cur.cases, cur.aborted).Ok?
    ensures var a := Build(job.provenance, job.expected, cur.cases, cur.aborted).value;
      Good(job, goal, a) && a.cases == cur.cases
  {
    CheckpointNeverFails(cur, done, job.expected, job.provenance);
    FinalKeepsRunInv(cur, done, job.budget, job.expected);
    var a := Build(job.provenance, job.expected, cur.cases, cur.aborted).value;
    assert a.cases == cur.cases && a.aborted == cur.aborted;
  }

  lemma {:induction false} WorkKeepsInv(job: Job, goal: Option<Outcome>, s: System)
    requires Distinct(job.expected) && SystemInv(job, goal, s)
    ensures SystemInv(job, goal, Next(job, s, Work))
  {
    if s.proc.Working? {
      var p := s.proc;
      if Finished(p.cur) {
        WrittenIsGood(job, goal, p.cur, p.done);
      } else {
        var cur' := Step(p.cur, p.done, job.budget);
        StepKeepsRunInv(p.cur, p.done, job.budget, job.expected);
        assert OnCourse(job, goal, cur', p.done);
        if Records(p.cur, p.done, job.budget) {
          WrittenIsGood(job, goal, cur', p.done);
        } else {
          QuietStep(p.cur, p.done, job.budget);
        }
      }
    }
  }

  lemma {:induction false} IoKeepsInv(job: Job, goal: Option<Outcome>, s: System, e: Event)
    requires SystemInv(job, goal, s)
    ensures SystemInv(job, goal, Next(job, s, Io(e)))
  {
    var good := (a: Artifact) => Good(job, goal, a);
    if Writes(s.proc) {
      HappenKeepsInv(s.fs, s.proc.w, e, good, true);
    } else {
      BackgroundKeepsInv(s.fs, e, good, true);
    }
  }

  lemma {:induction false} NextKeepsInv(job: Job, goal: Option<Outcome>, s: System, h: Happening)
    requires LaunchesOk(job, goal, [h]) && SystemInv(job, goal, s)
    ensures SystemInv(job, goal, Next(job, s, h))
  {
    assert h == [h][0];
    match h {
      case Launch(pid, groups) => LaunchKeepsInv(job, goal, s, pid, groups);
      case LaunchRefused(pid) =>
      case Work => WorkKeepsInv(job, goal, s);
      case Io(e) => IoKeepsInv(job, goal, s, e);
      case Kill =>
      case PowerLoss => PowerCutKeepsInv(s.fs, a => Good(job, goal, a), true);
    }
  }

  lemma {:induction false} BehaviourKeepsInv(job: Job, goal: Option<Outcome>, s: System, hs: seq<Happening>)
    requires LaunchesOk(job, goal, hs) && SystemInv(job, goal, s)
    ensures SystemInv(job, goal, Behaviour(job, s, hs))
    decreases |hs|
  {
    if hs != [] {
      assert [hs[0]][0] == hs[0] && forall i | 0 <= i < |hs[1..]| :: hs[1..][i] == hs[i + 1];
      NextKeepsInv(job, goal, s, hs[0]);
      BehaviourKeepsInv(job, goal, Next(job, s, hs[0]), hs[1..]);
    }
  }

  // ----- the theorems -----

  /** However often the runner is killed, loses power, hits I/O errors or is refused, a launch that
      reaches the end of its loop has the cases, the cost and the abort decision of the run nobody
      interrupted, and is about to write exactly that run's artifact. */
  lemma {:induction false} EveryFinishAgrees(job: Job, goal: Outcome, hs: seq<Happening>)
    requires LaunchesOk(job, Some(goal), hs)
    ensures var s := Behaviour(job, Init(), hs);
      s.proc.Closing? ==>
        && s.proc.cur.cases == goal.cases && s.proc.cur.aborted == goal.aborted
        && Total(s.proc.cur.cases) == Total(goal.cases)
        && Ok(s.proc.w.payload) == Build(job.provenance, job.expected, goal.cases, goal.aborted)
  {
    BehaviourKeepsInv(job, Some(goal), Init(), hs);
  }

  /** At every moment, both what a reader sees and what a power loss would leave is nothing, or one
      complete artifact that accounts exactly for distinct expected cases, or a refusal; and where the
      launches have a common goal, the cases are a prefix of the goal's. */
  lemma {:induction false} CheckpointIsAlwaysWhole(job: Job, goal: Option<Outcome>, hs: seq<Happening>)
    requires LaunchesOk(job, goal, hs)
    ensures var s := Behaviour(job, Init(), hs);
      && (Visible(s.fs).Some? ==> Visible(s.fs).value.Whole? && Good(job, goal, Visible(s.fs).value.payload))
      && (Surviving(s.fs).Some? ==> Surviving(s.fs).value.Whole? && Good(job, goal, Surviving(s.fs).value.payload))
  {
    BehaviourKeepsInv(job, goal, Init(), hs);
  }

  /** Write-ahead, whatever the rows' outcomes: a launch that goes on after recording a case has all
      its cases on disk, so a power loss at that moment costs none of them. */
  lemma {:induction false} NothingStartsUnsaved(job: Job, hs: seq<Happening>)
    requires LaunchesOk(job, None, hs)
    ensures var s := Behaviour(job, Init(), hs);
      s.proc.Working? && |s.proc.cur.cases| > s.proc.loaded ==>
        Surviving(s.fs).Some? && Surviving(s.fs).value.Whole? && Surviving(s.fs).value.payload.cases == s.proc.cur.cases
  {
    BehaviourKeepsInv(job, None, Init(), hs);
  }
}
