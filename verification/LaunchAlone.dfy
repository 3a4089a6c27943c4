/** A launch left alone until it ends: what it leaves durable, and when it erases earlier cases. */
module LaunchAlone {
  import opened Outcomes
  import opened RetrievalArtifact
  import opened ShardRun
  import opened Resumption
  import opened DurableReplace
  import opened RunnerSystem

  // ----- a launch nobody disturbs -----

  /** Writer operations still to come. */
  function Remaining(p: Phase): nat {
    match p
    case Entered => 5
    case Opened => 4
    case Dumped => 3
    case Synced => 2
    case Renamed => 1
    case _ => 0
  }

  /** The process performs its own next operation. */
  function OwnStep(p: Process): Happening {
    if p.Working? then Work else Io(Advance)
  }

  function CursorOf(p: Process): Cursor {
    match p
    case Working(_, cur, _, _) => cur
    case Saving(_, cur, _, _) => cur
    case Closing(_, cur, _) => cur
    case _ => Cursor([], [], FRESH, [], NotAborted)
  }

  /** How far the process is from its end within the current case. */
  function Stage(p: Process): nat {
    match p
    case Down => 0
    case Working(_, _, _, _) => 6
    case Saving(w, _, _, _) => 6 + Remaining(w.phase)
    case Closing(w, _, _) => Remaining(w.phase)
    case Refusing(w) => Remaining(w.phase)
  }

  /** Whether s' is nearer to the end of the launch than s. */
  predicate Nearer(s': System, s: System) {
    var c', c := CursorOf(s'.proc), CursorOf(s.proc);
    if |c'.rest| != |c.rest| then |c'.rest| < |c.rest|
    else if |c'.group| != |c.group| then |c'.group| < |c.group|
    else if c'.aborted.NotAborted? != c.aborted.NotAborted? then !c'.aborted.NotAborted?
    else Stage(s'.proc) < Stage(s.proc)
  }

  /** The process runs on by itself until it is down (or makes no progress). */
  function Settle(job: Job, s: System): System
    decreases |CursorOf(s.proc).rest|, |CursorOf(s.proc).group|, CursorOf(s.proc).aborted.NotAborted?, Stage(s.proc)
  {
    if s.proc.Down? then s
    else
      var s' := Next(job, s, OwnStep(s.proc));
      if s'.proc.Down? then s' else if Nearer(s', s) then Settle(job, s') else s
  }

  /** The artifact the launch is going to leave. */
  function Leaves(job: Job, p: Process): Result<Artifact, Error>
    requires !p.Down?
  {
    match p
    case Refusing(w) => Ok(w.payload)
    case Closing(w, _, _) => Ok(w.payload)
    case Working(_, cur, done, _) =>
      var f := Final(cur, done, job.budget);
      Build(job.provenance, job.expected, f.cases, f.aborted)
    case Saving(_, cur, done, _) =>
      var f := Final(cur, done, job.budget);
      Build(job.provenance, job.expected, f.cases, f.aborted)
  }

  /** What is known of the process when it ends by its own steps. */
  ghost predicate Ends(s: System, s': System, a: Artifact) {
    && s'.proc.Down?
    && s'.exits == s.exits + [if s.proc.Refusing? then 2 else ExitCode(a)]
    && Visible(s'.fs) == Surviving(s'.fs) == Some(Whole(a))
  }

  /** All a launch needs to come to its end, whatever else the file system holds. */
  ghost predicate AloneInv(job: Job, s: System) {
    && Inv(s.fs, a => true, true)
    && (Writes(s.proc) ==> Busy(s, s.proc.w))
    && (s.proc.Working? || s.proc.Saving? ==>
          Distinct(job.expected) && RunInv(s.proc.cur, s.proc.done, job.expected))
  }

  lemma {:induction false} AdvanceProgresses(fs: FileSystem<Artifact>, w: Writer<Artifact>)
    requires Inv(fs, a => true, true) && WriterInv(fs, w) && !w.phase.Returned? && !w.phase.Raised?
    ensures var (fs', w') := Happen(fs, w, Advance);
      && Remaining(w'.phase) == Remaining(w.phase) - 1 && !w'.phase.Raised?
      && w'.payload == w.payload && WriterInv(fs', w') && Inv(fs', a => true, true)
  {
    HappenKeepsInv(fs, w, Advance, (a: Artifact) => true, true);
  }

  /** A step of a writer that goes on. */
  lemma {:induction false} WriterGoesOn(job: Job, s: System)
    requires AloneInv(job, s) && Writes(s.proc) && !s.proc.w.phase.Renamed?
    ensures var s' := Next(job, s, Io(Advance));
      && AloneInv(job, s') && Writes(s'.proc) && Nearer(s', s) && Leaves(job, s'.proc) == Leaves(job, s.proc)
      && s'.exits == s.exits && s'.proc.Refusing? == s.proc.Refusing?
  {
    AdvanceProgresses(s.fs, s.proc.w);
  }

  /** The last step of a writer. */
  lemma {:induction false} WriterReturns(job: Job, s: System)
    requires AloneInv(job, s) && Writes(s.proc) && s.proc.w.phase.Renamed? && Leaves(job, s.proc).Ok?
    ensures var s' := Next(job, s, Io(Advance));
      && AloneInv(job, s')
      && if s.proc.Saving? then
           Nearer(s', s) && s'.proc.Working? && Leaves(job, s'.proc) == Leaves(job, s.proc) && s'.exits == s.exits
         else s'.proc.Down? && Ends(s, s', Leaves(job, s.proc).value)
  {
    AdvanceProgresses(s.fs, s.proc.w);
  }

  /** A writer's own step brings the process nearer to its end, or ends it with its payload durable. */
  lemma {:induction false} WriterStep(job: Job, s: System)
    requires AloneInv(job, s) && Writes(s.proc) && Leaves(job, s.proc).Ok?
    ensures var s' := Next(job, s, Io(Advance));
      && AloneInv(job, s')
      && if s'.proc.Down? then Ends(s, s', Leaves(job, s.proc).value)
         else Nearer(s', s) && Leaves(job, s'.proc) == Leaves(job, s.proc)
              && s'.exits == s.exits && s'.proc.Refusing? == s.proc.Refusing?
  {
    if s.proc.w.phase.Renamed? {
      WriterReturns(job, s);
    } else {
      WriterGoesOn(job, s);
    }
  }

  /** The step does not end the launch and brings it nearer to what it was going to leave. */
  ghost predicate Advances(job: Job, s: System, s': System)
    requires !s.proc.Down?
  {
    && AloneInv(job, s') && !s'.proc.Down? && Nearer(s', s) && Leaves(job, s'.proc) == Leaves(job, s.proc)
    && s'.exits == s.exits && !s'.proc.Refusing?
  }

  lemma {:induction false} LastWorkStep(job: Job, s: System)
    requires AloneInv(job, s) && s.proc.Working? && Finished(s.proc.cur)
    ensures Advances(job, s, Next(job, s, Work))
  {
    CheckpointNeverFails(s.proc.cur, s.proc.done, job.expected, job.provenance);
  }

  lemma {:induction false} QuietWorkStep(job: Job, s: System)
    requires AloneInv(job, s) && s.proc.Working? && !Finished(s.proc.cur) &&
          !Records(s.proc.cur, s.proc.done, job.budget)
    ensures Advances(job, s, Next(job, s, Work))
  {
    StepKeepsRunInv(s.proc.cur, s.proc.done, job.budget, job.expected);
  }

  lemma {:induction false} RecordingWorkStep(job: Job, s: System)
    requires AloneInv(job, s) && s.proc.Working? && Records(s.proc.cur, s.proc.done, job.budget)
    ensures Advances(job, s, Next(job, s, Work))
  {
    StepKeepsRunInv(s.proc.cur, s.proc.done, job.budget, job.expected);
    CheckpointNeverFails(Step(s.proc.cur, s.proc.done, job.budget), s.proc.done, job.expected, job.provenance);
  }

  lemma {:induction false} WorkStepNearer(job: Job, s: System)
    requires AloneInv(job, s) && s.proc.Working?
    ensures Advances(job, s, Next(job, s, Work))
  {
    if Finished(s.proc.cur) {
      LastWorkStep(job, s);
    } else if Records(s.proc.cur, s.proc.done, job.budget) {
      RecordingWorkStep(job, s);
    } else {
      QuietWorkStep(job, s);
    }
  }

  lemma {:induction false} LeavesSomething(job: Job, s: System)
    requires AloneInv(job, s) && !s.proc.Down?
    ensures Leaves(job, s.proc).Ok?
  {
    if s.proc.Working? || s.proc.Saving? {
      FinalKeepsRunInv(s.proc.cur, s.proc.done, job.budget, job.expected);
      var f := Final(s.proc.cur, s.proc.done, job.budget);
      CheckpointNeverFails(f, s.proc.done, job.expected, job.provenance);
    }
  }

  /** A process left alone comes to its end, and what it was going to leave is durable then. */
  lemma {:induction false} SettleEnds(job: Job, s: System)
    requires AloneInv(job, s) && !s.proc.Down?
    ensures Leaves(job, s.proc).Ok? && Ends(s, Settle(job, s), Leaves(job, s.proc).value)
    decreases |CursorOf(s.proc).rest|, |CursorOf(s.proc).group|, CursorOf(s.proc).aborted.NotAborted?, Stage(s.proc)
  {
    var s' := Next(job, s, OwnStep(s.proc));
    LeavesSomething(job, s);
    if s.proc.Working? {
      WorkStepNearer(job, s);
    } else {
      WriterStep(job, s);
    }
    if !s'.proc.Down? {
      SettleEnds(job, s');
    }
  }

  /** Being left alone is a behaviour: the process's own steps and nothing else. */
  lemma {:induction false} SettleIsBehaviour(job: Job, s: System) returns (hs: seq<Happening>)
    ensures Behaviour(job, s, hs) == Settle(job, s)
    ensures forall i | 0 <= i < |hs| :: hs[i] == Work || hs[i] == Io(Advance)
    decreases |CursorOf(s.proc).rest|, |CursorOf(s.proc).group|, CursorOf(s.proc).aborted.NotAborted?, Stage(s.proc)
  {
    hs := [];
    if !s.proc.Down? {
      var own := OwnStep(s.proc);
      var s' := Next(job, s, own);
      if s'.proc.Down? {
        hs := [own];
        assert hs[1..] == [];
      } else if Nearer(s', s) {
        var later := SettleIsBehaviour(job, s');
        hs := [own] + later;
        assert hs[1..] == later;
      }
    }
  }

  // ----- the goal is reached -----

  /** The goal's own artifact is durable and its exit code given. */
  ghost predicate GoalIsDurable(job: Job, goal: Outcome, before: System, after: System) {
    var a := Build(job.provenance, job.expected, goal.cases, goal.aborted);
    a.Ok? && Ends(before, after, a.value)
  }

  lemma {:induction false} CanBeLeftAlone(job: Job, goal: Option<Outcome>, s: System)
    requires Distinct(job.expected) && SystemInv(job, goal, s)
    ensures AloneInv(job, s)
  {
  }

  lemma {:induction false} RunningReachesGoal(job: Job, goal: Outcome, s: System)
    requires Distinct(job.expected) && SystemInv(job, Some(goal), s)
    requires s.proc.Working? || s.proc.Saving? || s.proc.Closing?
    ensures GoalIsDurable(job, goal, s, Settle(job, s))
  {
    CanBeLeftAlone(job, Some(goal), s);
    SettleEnds(job, s);
  }

  /** After any history, a run in progress that is left alone from then on, and likewise the next launch
      that is not refused, ends with the artifact of the undisturbed run durable and with its exit code. */
  lemma {:induction false} LeftAloneReachesGoal(job: Job, goal: Outcome, hs: seq<Happening>, pid: nat,
          groups: seq<seq<Row>>)
    requires LaunchesOk(job, Some(goal), hs) && LaunchOk(job, Some(goal), groups)
    ensures var s := Behaviour(job, Init(), hs);
      && (s.proc.Working? || s.proc.Saving? || s.proc.Closing? ==> GoalIsDurable(job, goal, s, Settle(job, s)))
      && (s.proc.Down? && LoadVisible(job, s.fs).Ok? ==>
            GoalIsDurable(job, goal, s, Settle(job, Next(job, s, Launch(pid, groups)))))
  {
    var s := Behaviour(job, Init(), hs);
    BehaviourKeepsInv(job, Some(goal), Init(), hs);
    if s.proc.Working? || s.proc.Saving? || s.proc.Closing? {
      RunningReachesGoal(job, goal, s);
    }
    if s.proc.Down? && LoadVisible(job, s.fs).Ok? {
      LaunchKeepsInv(job, Some(goal), s, pid, groups);
      RunningReachesGoal(job, goal, Next(job, s, Launch(pid, groups)));
    }
  }

  // ----- when a launch erases what earlier ones recorded -----

  /** The launch is over, its refusal stands durably in place of the checkpoint, and the launch after it
      starts from no case at all. */
  ghost predicate Erased(job: Job, s: System, pid: nat, groups: seq<seq<Row>>) {
    && s.proc.Down?
    && Visible(s.fs) == Surviving(s.fs) == Some(Whole(Refusal(job.provenance)))
    && Next(job, s, Launch(pid, groups)).proc == Working(pid, Begin(groups, []), {}, 0)
  }

  lemma {:induction false} RefusingErases(job: Job, s: System, pid: nat, groups: seq<seq<Row>>)
    requires AloneInv(job, s) && s.proc.Refusing? && s.proc.w.payload == Refusal(job.provenance)
    ensures Erased(job, Settle(job, s), pid, groups) && Settle(job, s).exits == s.exits + [2]
  {
    SettleEnds(job, s);
    assert Ids([]) == {};
  }

  /** What makes the loader reject an artifact the builder wrote, as a caller can check beforehand. */
  predicate Rejectable(job: Job, a: Artifact) {
    a.provenance != job.provenance || a.expected != Some(job.expected) || HasInvalid(a.cases) || a.aborted.InvalidAbort?
  }

  /** Some launch with this contract wrote the artifact. */
  ghost predicate Written(a: Artifact) {
    && a.expected.Some? && AllCostsValid(a.cases)
    && Build(a.provenance, a.expected.value, a.cases, a.aborted) == Ok(a)
  }

  lemma {:induction false} LoadsExactly(job: Job, a: Artifact)
    requires Written(a)
    ensures var loaded := Load(Some(a), job.provenance, job.expected, true);
      (loaded.Ok? <==> !Rejectable(job, a)) && (loaded.Ok? ==> loaded.value == a.cases)
  {
    BuiltArtifactReloads(a.provenance, a.expected.value, a.cases, a.aborted, job.provenance, job.expected, true);
  }

  /** The launch continues the recorded cases. */
  ghost predicate Continued(s: System, a: Artifact) {
    && Visible(s.fs).Some? && Visible(s.fs).value.Whole?
    && Visible(s.fs).value.payload.status != NotEvaluated && a.cases <= Visible(s.fs).value.payload.cases
  }

  /**
   * For every checkpoint the builder wrote, under whatever contract: the next
   * launch, left alone, replaces it by a refusal and the launch after that
   * starts from nothing, if and only if its provenance or its expected IDs
   * differ from the job's or it records an invalid experiment.  Otherwise the
   * next launch's own checkpoint contains all its cases.
   */
  lemma {:induction false} RejectionErasesExactly(job: Job, s: System, a: Artifact, pid: nat, groups: seq<seq<Row>>,
          pid': nat, groups': seq<seq<Row>>)
    requires Distinct(job.expected) && Fits(job, groups)
    requires s.proc.Down? && Inv(s.fs, x => true, true) && Visible(s.fs) == Some(Whole(a)) && Written(a)
    ensures var s1 := Settle(job, Next(job, s, Launch(pid, groups)));
      && (Erased(job, s1, pid', groups') <==> Rejectable(job, a))
      && (!Rejectable(job, a) ==> Continued(s1, a))
  {
    var s0 := Next(job, s, Launch(pid, groups));
    LoadsExactly(job, a);
    if Rejectable(job, a) {
      RefusingErases(job, s0, pid', groups');
    } else {
      LoadedCasesAreSound(Some(a), job.provenance, job.expected, true);
      BeginKeepsRunInv(groups, a.cases, job.expected);
      SettleEnds(job, s0);
      FinalKeepsRunInv(s0.proc.cur, s0.proc.done, job.budget, job.expected);
    }
  }

  /** A launch refused before loading erases even a checkpoint the loader would accept. */
  lemma {:induction false} RefusedLaunchErases(job: Job, s: System, pid: nat, pid': nat, groups: seq<seq<Row>>)
    requires s.proc.Down? && Inv(s.fs, x => true, true)
    ensures var s1 := Settle(job, Next(job, s, LaunchRefused(pid)));
      Erased(job, s1, pid', groups) && s1.exits == s.exits + [2]
  {
    RefusingErases(job, Next(job, s, LaunchRefused(pid)), pid', groups);
  }

  // ----- such a checkpoint is reached -----

  function InvalidRow(id: string): Row {
    Row(id, "r", true, false, true, IndexInvalid("c"), IndexInvalid("c"), SearchInvalid("c"))
  }

  /** The run over one row that turns out invalid records it. */
  lemma {:induction false} InvalidRun(id: string, budget: int)
    requires budget > 0
    ensures HasInvalid(Run([[InvalidRow(id)]], [], budget).cases)
  {
    var row := InvalidRow(id);
    var c1 := Cursor([row], [], FRESH, [], NotAborted);
    var c2 := Step(c1, {}, budget);
    assert Ids([]) == {};
    assert Step(Begin([[row]], []), {}, budget) == c1;
    assert Run([[row]], [], budget) == Final(c1, {}, budget) == Final(c2, {}, budget) == c2;
    assert c2.cases[0].failure == InvalidExperiment;
  }

  lemma {:induction false} BehaviourFrom(job: Job, s: System, h: Happening, hs: seq<Happening>)
    ensures Behaviour(job, s, [h] + hs) == Behaviour(job, Next(job, s, h), hs)
  {
    assert ([h] + hs)[1..] == hs;
  }

  lemma {:induction false} OneRowFits(job: Job, id: string)
    requires job.expected == [id]
    ensures Distinct(job.expected) && LaunchOk(job, None, [[InvalidRow(id)]])
  {
    assert Flatten([[InvalidRow(id)]]) == [InvalidRow(id)];
  }

  /** One launch over one invalid row, left alone, leaves a checkpoint with an invalid case. */
  lemma {:induction false} InvalidIsLeft(job: Job, id: string, s: System) returns (a: Artifact)
    requires job.budget > 0 && job.expected == [id]
    requires s == Settle(job, Next(job, Init(), Launch(1, [[InvalidRow(id)]])))
    ensures s.proc.Down? && Inv(s.fs, x => true, true) && Visible(s.fs) == Some(Whole(a)) && Written(a) &&
          HasInvalid(a.cases)
  {
    var groups := [[InvalidRow(id)]];
    var s0 := Next(job, Init(), Launch(1, groups));
    OneRowFits(job, id);
    BeginKeepsRunInv(groups, [], job.expected);
    SettleEnds(job, s0);
    InvalidRun(id, job.budget);
    a := Leaves(job, s0.proc).value;
    FinalKeepsRunInv(s0.proc.cur, s0.proc.done, job.budget, job.expected);
    var hs := SettleIsBehaviour(job, s0);
    LaunchKeepsInv(job, None, Init(), 1, groups);
    BehaviourKeepsInv(job, None, s0, hs);
  }

  /** From the start: one launch over one invalid row, left alone, leaves such a checkpoint; the second
      launch replaces it, and the third starts from nothing and will pay again. */
  lemma {:induction false} ErasureIsReached(id: string, budget: int, provenance: string) returns (hs: seq<Happening>)
    requires budget > 0
    ensures var job, groups := Job(budget, provenance, [id]), [[InvalidRow(id)]];
      var s := Behaviour(job, Init(), hs);
      && LaunchesOk(job, None, hs) && s.proc.Down?
      && Visible(s.fs).Some? && Visible(s.fs).value.Whole? && HasInvalid(Visible(s.fs).value.payload.cases)
      && Erased(job, Settle(job, Next(job, s, Launch(2, groups))), 3, groups)
  {
    var job, groups := Job(budget, provenance, [id]), [[InvalidRow(id)]];
    var s0 := Next(job, Init(), Launch(1, groups));
    var s := Settle(job, s0);
    var a := InvalidIsLeft(job, id, s);
    var own := SettleIsBehaviour(job, s0);
    hs := [Launch(1, groups)] + own;
    BehaviourFrom(job, Init(), Launch(1, groups), own);
    OneRowFits(job, id);
    RejectionErasesExactly(job, s, a, 2, groups, 3, groups);
  }
}
