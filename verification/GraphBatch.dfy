/** The graph batch (eval_locbench_batch.py): evaluating, recording and checkpointing; costs are micro-dollars. */
module GraphBatch {
  import opened Outcomes
  import opened Text

  const MICROS_PER_QUERY_WITHOUT_TOKENS: int := 50000

  datatype InstanceResult = InstanceResult(id: string, indexed: bool, agentRan: bool,
                                           fileHit: bool, classHit: bool, funcHit: bool,
                                           input: int, output: int, cost: int, failure: FailureClass, code: string)

  /** What the agent's process gave back. */
  datatype Reply =
    | ErrorReply(failure: FailureClass, code: string)
    | MalformedEnvelope
    | Answer(input: nat, output: nat, blob: string)

  /** What the world does with one instance. */
  datatype World =
    | Throws
    | Interrupts
    | Answers(cloneOk: bool, tooLarge: bool, index: Option<(FailureClass, string)>, identityOk: bool,
              databaseThere: bool, reply: Reply)

  datatype Instance = Instance(id: string, groundTruth: seq<string>, world: World)

  // ----- one instance -----

  /** `file:Class.method` cut at the first colon, when there is one. */
  function FilePart(item: string): string requires ':' in item { item[..IndexOf(item, ':')] }
  function Components(item: string): seq<string> requires ':' in item {
    Split(item[IndexOf(item, ':') + 1..], '.')
  }

  datatype Level = File | Class | Func

  /** The item is mentioned in the agent's output at this level. */
  predicate Mentioned(blob: string, item: string, level: Level) {
    ':' in item &&
    match level
    case File => Contains(blob, FilePart(item))
    case Class => |Components(item)| >= 2 && Contains(blob, Components(item)[0])
    case Func => Contains(blob, Last(Components(item)))
  }

  predicate AnyMentioned(blob: string, items: seq<string>, level: Level) {
    exists i :: 0 <= i < |items| && Mentioned(blob, items[i], level)
  }

  lemma {:induction false} AnyMentionedSnoc(blob: string, items: seq<string>, item: string, level: Level)
    ensures AnyMentioned(blob, items + [item], level) <==>
          AnyMentioned(blob, items, level) || Mentioned(blob, item, level)
  {
    var more := items + [item];
    assert more[|items|] == item;
    if AnyMentioned(blob, items, level) {
      var i :| 0 <= i < |items| && Mentioned(blob, items[i], level);
      assert more[i] == items[i];
    }
  }

  /** The flags one ground-truth item switches on. */
  method ScoreItem(blob: string, item: string) returns (file: bool, class_: bool, func: bool)
    ensures file == Mentioned(blob, item, File)
    ensures class_ == Mentioned(blob, item, Class)
    ensures func == Mentioned(blob, item, Func)
  {
    file, class_, func := false, false, false;
    if ':' in item {
      file := Contains(blob, FilePart(item));
      var comps := Components(item);
      if |comps| >= 2 {
        class_ := Contains(blob, comps[0]);
        func := Contains(blob, comps[|comps| - 1]);
      } else {
        func := Contains(blob, comps[0]);
      }
    }
  }

  /** `score_against_ground_truth`: each flag holds exactly when some item is mentioned that way. */
  method Score(blob: string, groundTruth: seq<string>) returns (file: bool, class_: bool, func: bool)
    ensures file == AnyMentioned(blob, groundTruth, File)
    ensures class_ == AnyMentioned(blob, groundTruth, Class)
    ensures func == AnyMentioned(blob, groundTruth, Func)
  {
    file, class_, func := false, false, false;
    for i := 0 to |groundTruth|
      invariant file == AnyMentioned(blob, groundTruth[..i], File)
      invariant class_ == AnyMentioned(blob, groundTruth[..i], Class)
      invariant func == AnyMentioned(blob, groundTruth[..i], Func)
    {
      assert groundTruth[..i + 1] == groundTruth[..i] + [groundTruth[i]];
      AnyMentionedSnoc(blob, groundTruth[..i], groundTruth[i], File);
      AnyMentionedSnoc(blob, groundTruth[..i], groundTruth[i], Class);
      AnyMentionedSnoc(blob, groundTruth[..i], groundTruth[i], Func);
      var f, c, fn := ScoreItem(blob, groundTruth[i]);
      file, class_, func := file || f, class_ || c, func || fn;
    }
    assert groundTruth[..|groundTruth|] == groundTruth;
  }

  function Blank(id: string): InstanceResult {
    InstanceResult(id, false, false, false, false, false, 0, 0, 0, NoFailure, "")
  }

  function Failed(id: string, indexed: bool, failure: FailureClass, code: string): InstanceResult {
    Blank(id).(indexed := indexed, failure := failure, code := code)
  }

  function TokenCost(input: int, output: int): int {
    if input != 0 || output != 0 then input + 5 * output else MICROS_PER_QUERY_WITHOUT_TOKENS
  }

  /** What one instance's evaluation comes to. */
  function Evaluated(x: Instance): InstanceResult
    requires !x.world.Interrupts?
  {
    var w := x.world;
    if w.Throws? then Failed(x.id, false, Infrastructure, "unhandled_case_exception")
    else if !w.cloneOk then Failed(x.id, false, Infrastructure, "clone_failed")
    else if w.tooLarge then Failed(x.id, false, MeasuredOutcome, "repo_too_large")
    else if w.index.Some? then Failed(x.id, false, w.index.value.0, w.index.value.1)
    else if !w.identityOk then Failed(x.id, false, InvalidExperiment, "index_identity_mismatch")
    else if !w.databaseThere then Failed(x.id, true, Infrastructure, "index_database_missing")
    else match w.reply
      case ErrorReply(f, code) =>
        if (f.InvalidExperiment? || f.Infrastructure?) && code != "" then Failed(x.id, true, f, code)
        else Failed(x.id, true, Infrastructure, "agent_failed")
      case MalformedEnvelope => Failed(x.id, true, InvalidExperiment, "agent_envelope_invalid")
      case Answer(input, output, blob) =>
        InstanceResult(x.id, true, true,
          AnyMentioned(blob, x.groundTruth, File), AnyMentioned(blob, x.groundTruth, Class),
          AnyMentioned(blob, x.groundTruth, Func),
          input, output, TokenCost(input, output), NoFailure, "")
  }

  /** `evaluate_instance`, setting the fields of the result as it goes, and the result `main` builds
      when it raises. */
  method EvaluateInstance(x: Instance) returns (res: InstanceResult)
    requires !x.world.Interrupts?
    ensures res == Evaluated(x)
  {
    res := Blank(x.id);
    var w := x.world;
    if w.Throws? {
      res := res.(failure := Infrastructure, code := "unhandled_case_exception");
      return;
    }
    if !w.cloneOk {
      res := res.(failure := Infrastructure, code := "clone_failed");
      return;
    }
    if w.tooLarge {
      res := res.(failure := MeasuredOutcome, code := "repo_too_large");
      return;
    }
    if w.index.Some? {
      res := res.(failure := w.index.value.0, code := w.index.value.1);
      return;
    }
    if !w.identityOk {
      res := res.(failure := InvalidExperiment, code := "index_identity_mismatch");
      return;
    }
    res := res.(indexed := true);
    if !w.databaseThere {
      res := res.(failure := Infrastructure, code := "index_database_missing");
      return;
    }
    match w.reply {
      case ErrorReply(f, code) =>
        if (f.InvalidExperiment? || f.Infrastructure?) && code != "" {
          res := res.(failure := f, code := code);
        } else {
          res := res.(failure := Infrastructure, code := "agent_failed");
        }
      case MalformedEnvelope =>
        res := res.(failure := InvalidExperiment, code := "agent_envelope_invalid");
      case Answer(input, output, blob) =>
        res := res.(agentRan := true, input := input, output := output);
        if res.input != 0 || res.output != 0 {
          res := res.(cost := res.input + 5 * res.output);
        } else {
          res := res.(cost := MICROS_PER_QUERY_WITHOUT_TOKENS);
        }
        var f, c, fn := Score(blob, x.groundTruth);
        res := res.(fileHit := f, classHit := c, funcHit := fn);
    }
  }

  /** No hit without an answer, no answer without an index, no cost without an answer. */
  predicate Sound(r: InstanceResult) {
    && r.cost >= 0
    && (r.fileHit || r.classHit || r.funcHit ==> r.agentRan)
    && (r.agentRan ==> r.indexed && r.failure == NoFailure)
    && (!r.agentRan ==> r.cost == 0)
  }

  lemma {:induction false} EvaluationIsSound(x: Instance)
    requires !x.world.Interrupts?
    ensures Sound(Evaluated(x)) && Evaluated(x).id == x.id
    ensures Evaluated(x).agentRan <==>
      x.world.Answers? && x.world.cloneOk && !x.world.tooLarge && x.world.index.None? && x.world.identityOk
      && x.world.databaseThere && x.world.reply.Answer?
  {
  }

  // ----- the summary -----

  function Bit(b: bool): nat { if b then 1 else 0 }

  /** The counters and totals the summary keeps. */
  datatype Tally = Tally(indexed: nat, agentRan: nat, fileHit: nat, classHit: nat, funcHit: nat,
                         input: int, output: int, cost: int)

  function Add(t: Tally, r: InstanceResult): Tally {
    Tally(t.indexed + Bit(r.indexed), t.agentRan + Bit(r.agentRan), t.fileHit + Bit(r.fileHit),
          t.classHit + Bit(r.classHit), t.funcHit + Bit(r.funcHit),
          t.input + r.input, t.output + r.output, t.cost + r.cost)
  }

  function TallyOf(rs: seq<InstanceResult>): Tally {
    TallyUpTo(rs, |rs|)
  }

  function TallyUpTo(rs: seq<InstanceResult>, n: nat): Tally
    requires n <= |rs|
  {
    if n == 0 then Tally(0, 0, 0, 0, 0, 0, 0, 0) else Add(TallyUpTo(rs, n - 1), rs[n - 1])
  }

  lemma {:induction false} TallyPrefix(rs: seq<InstanceResult>, more: seq<InstanceResult>, n: nat)
    requires n <= |rs| && rs <= more
    ensures TallyUpTo(more, n) == TallyUpTo(rs, n)
  {
    if n > 0 {
      TallyPrefix(rs, more, n - 1);
    }
  }

  lemma {:induction false} TallySnoc(rs: seq<InstanceResult>, r: InstanceResult)
    ensures TallyOf(rs + [r]) == Add(TallyOf(rs), r)
  {
    TallyPrefix(rs, rs + [r], |rs|);
  }

  /** The sum of a figure over the recorded instances. */
  function Sum(rs: seq<InstanceResult>, figure: InstanceResult -> int): int {
    if rs == [] then 0 else Sum(rs[..|rs| - 1], figure) + figure(rs[|rs| - 1])
  }

  /** Every counter is the number of recorded instances with its flag, every total the sum of its figure. */
  lemma {:induction false} TallyCounts(rs: seq<InstanceResult>)
    ensures var t := TallyOf(rs);
      && t.indexed == |Indices(rs, (r: InstanceResult) => r.indexed)|
      && t.agentRan == |Indices(rs, (r: InstanceResult) => r.agentRan)|
      && t.fileHit == |Indices(rs, (r: InstanceResult) => r.fileHit)|
      && t.classHit == |Indices(rs, (r: InstanceResult) => r.classHit)|
      && t.funcHit == |Indices(rs, (r: InstanceResult) => r.funcHit)|
      && t.input == Sum(rs, (r: InstanceResult) => r.input) && t.output == Sum(rs, (r: InstanceResult) => r.output)
      && t.cost == Sum(rs, (r: InstanceResult) => r.cost)
  {
    if rs == [] {
    } else {
      var front := rs[..|rs| - 1];
      TallyCounts(front);
      TallySnoc(front, rs[|rs| - 1]);
      assert rs == front + [rs[|rs| - 1]];
      IndicesSnoc(rs, (r: InstanceResult) => r.indexed);
      IndicesSnoc(rs, (r: InstanceResult) => r.agentRan);
      IndicesSnoc(rs, (r: InstanceResult) => r.fileHit);
      IndicesSnoc(rs, (r: InstanceResult) => r.classHit);
      IndicesSnoc(rs, (r: InstanceResult) => r.funcHit);
    }
  }

  function Spent(rs: seq<InstanceResult>): int {
    TallyOf(rs).cost
  }

  predicate AnyInvalid(rs: seq<InstanceResult>) {
    exists i :: 0 <= i < |rs| && rs[i].failure == InvalidExperiment
  }

  datatype Stop =
    | Running
    | Invalid(code: string, id: string)
    | Budget
    | Interrupted
    | CheckpointWriteFailed

  class BatchSummary {
    var nIndexed: nat
    var nAgentRan: nat
    var nFileHit: nat
    var nClassHit: nat
    var nFuncHit: nat
    var totalInput: int
    var totalOutput: int
    var totalCost: int
    var aborted: Stop
    var instances: seq<InstanceResult>

    function Current(): Tally
      reads this
    {
      Tally(nIndexed, nAgentRan, nFileHit, nClassHit, nFuncHit, totalInput, totalOutput, totalCost)
    }

    /** Every counter is the fold over the recorded instances. */
    ghost predicate Valid()
      reads this
    {
      Current() == TallyOf(instances)
    }

    constructor ()
      ensures Valid() && instances == [] && aborted == Running
    {
      nIndexed, nAgentRan, nFileHit, nClassHit, nFuncHit := 0, 0, 0, 0, 0;
      totalInput, totalOutput, totalCost := 0, 0, 0;
      aborted, instances := Running, [];
    }

    /** The counter updates of `record`. */
    method Bump(r: InstanceResult)
      modifies this
      ensures Current() == Add(old(Current()), r)
      ensures instances == old(instances) && aborted == old(aborted)
    {
      nIndexed := nIndexed + Bit(r.indexed);
      nAgentRan := nAgentRan + Bit(r.agentRan);
      nFileHit := nFileHit + Bit(r.fileHit);
      nClassHit := nClassHit + Bit(r.classHit);
      nFuncHit := nFuncHit + Bit(r.funcHit);
      totalInput := totalInput + r.input;
      totalOutput := totalOutput + r.output;
      totalCost := totalCost + r.cost;
    }

    method Record(r: InstanceResult) returns (goOn: bool)
      requires Valid()
      modifies this
      ensures Valid()
      ensures instances == old(instances) + [r]
      ensures goOn <==> r.failure != InvalidExperiment
      ensures aborted == if goOn then old(aborted) else Invalid(r.code, r.id)
    {
      TallySnoc(instances, r);
      Bump(r);
      instances := instances + [r];
      goOn := r.failure != InvalidExperiment;
      if !goOn {
        aborted := Invalid(r.code, r.id);
      }
    }

    /** Clearing the list and recording every resumed case again restores every counter. */
    method Replay(resumed: seq<InstanceResult>)
      requires Valid() && instances == [] && aborted == Running && !AnyInvalid(resumed)
      modifies this
      ensures Valid() && instances == resumed && aborted == Running
    {
      for i := 0 to |resumed|
        invariant Valid() && instances == resumed[..i] && aborted == Running
      {
        var goOn := Record(resumed[i]);
        assert resumed[..i + 1] == resumed[..i] + [resumed[i]];
      }
    }
  }

  /** Hits never outnumber the agent's answers, answers never outnumber indexed instances. */
  lemma {:induction false} CountersAreOrdered(rs: seq<InstanceResult>)
    requires AllSound(rs)
    ensures Ordered(TallyOf(rs), |rs|)
  {
    TallyCounts(rs);
    IndicesOrdered(rs, (r: InstanceResult) => r.fileHit, (r: InstanceResult) => r.agentRan);
    IndicesOrdered(rs, (r: InstanceResult) => r.classHit, (r: InstanceResult) => r.agentRan);
    IndicesOrdered(rs, (r: InstanceResult) => r.funcHit, (r: InstanceResult) => r.agentRan);
    IndicesOrdered(rs, (r: InstanceResult) => r.agentRan, (r: InstanceResult) => r.indexed);
  }

  predicate AllSound(rs: seq<InstanceResult>) {
    forall i | 0 <= i < |rs| :: Sound(rs[i])
  }

  predicate Ordered(t: Tally, total: nat) {
    && t.fileHit <= t.agentRan && t.classHit <= t.agentRan && t.funcHit <= t.agentRan
    && t.agentRan <= t.indexed <= total
  }

  function ResultIds(rs: seq<InstanceResult>): set<string> {
    set i | 0 <= i < |rs| :: rs[i].id
  }

  // ----- the loop -----

  /** What the run did, in order: the checkpoints it attempted, and the evaluations it started. */
  datatype Entry =
    | Wrote(ok: bool, aborted: Stop, cases: seq<InstanceResult>)
    | Started(id: string, spent: int, recorded: nat)

  /** The instances the resume file does not already hold. */
  function Pending(xs: seq<Instance>, resumed: set<string>): seq<Instance> {
    if xs == [] then []
    else Pending(xs[..|xs| - 1], resumed) + if xs[|xs| - 1].id in resumed then [] else [xs[|xs| - 1]]
  }

  /** The results are those of the first pending instances, in order. */
  ghost predicate Results(new_: seq<InstanceResult>, pending: seq<Instance>) {
    && |new_| <= |pending|
    && forall i | 0 <= i < |new_| :: !pending[i].world.Interrupts? && new_[i] == Evaluated(pending[i])
  }

  /** A checkpoint of exactly these cases was written. */
  predicate Saves(e: Entry, cases: seq<InstanceResult>) {
    e.Wrote? && e.ok && e.cases == cases
  }

  /** Every checkpoint holds the resumed cases and then those recorded up to it, and names an invalid
      experiment only if it holds one. */
  ghost predicate WritesPrefixes(log: seq<Entry>, resumed: seq<InstanceResult>, all: seq<InstanceResult>) {
    forall k | 0 <= k < |log| && log[k].Wrote? ::
      resumed <= log[k].cases <= all && (log[k].aborted.Invalid? ==> AnyInvalid(log[k].cases))
  }

  /** Every evaluation starts right after a successful checkpoint of everything recorded before it,
      and with less than the budget spent. */
  ghost predicate WriteAhead(log: seq<Entry>, all: seq<InstanceResult>, budget: int) {
    forall k | 0 <= k < |log| && log[k].Started? ::
      && log[k].recorded <= |all|
      && log[k].spent == Spent(all[..log[k].recorded]) < budget
      && k > 0 && Saves(log[k - 1], all[..log[k].recorded])
  }

  /** From the given number of instances on, there was budget left and nothing invalid before each of them. */
  ghost predicate Unstopped(all: seq<InstanceResult>, start: nat, budget: int) {
    forall m | start <= m < |all| :: Spent(all[..m]) < budget && !AnyInvalid(all[..m])
  }

  /** The run has a reason of its own to stop here: nothing left, budget spent, or an invalid experiment. */
  predicate EndsItself(xs: seq<Instance>, resumed: seq<InstanceResult>, all: seq<InstanceResult>, budget: int) {
    |all| == |resumed| + |Pending(xs, ResultIds(resumed))| || Spent(all) >= budget || AnyInvalid(all)
  }

  predicate AllWritesOk(log: seq<Entry>) {
    forall k | 0 <= k < |log| && log[k].Wrote? :: log[k].ok
  }

  lemma {:induction false} PendingStep(xs: seq<Instance>, resumed: set<string>, i: nat)
    requires i < |xs|
    ensures Pending(xs[..i + 1], resumed) == Pending(xs[..i], resumed) + if xs[i].id in resumed then [] else [xs[i]]
  {
    assert xs[..i + 1][..i] == xs[..i];
  }

  lemma {:induction false} PendingPrefix(xs: seq<Instance>, resumed: set<string>, i: nat)
    requires i <= |xs|
    ensures Pending(xs[..i], resumed) <= Pending(xs, resumed)
  {
    if i == |xs| {
      assert xs[..i] == xs;
    } else {
      PendingPrefix(xs[..|xs| - 1], resumed, i);
      assert xs[..|xs| - 1][..i] == xs[..i];
    }
  }

  lemma {:induction false} LogWrite(log: seq<Entry>, all: seq<InstanceResult>, more: seq<InstanceResult>, budget: int,
          e: Entry)
    requires WriteAhead(log, all, budget) && all <= more && e.Wrote?
    ensures WriteAhead(log + [e], more, budget)
  {
    var longer := log + [e];
    forall k | 0 <= k < |longer| && longer[k].Started?
      ensures longer[k].recorded <= |more| && longer[k].spent == Spent(more[..longer[k].recorded]) < budget
      ensures k > 0 && Saves(longer[k - 1], more[..longer[k].recorded])
    {
      assert longer[k] == log[k] && more[..log[k].recorded] == all[..log[k].recorded];
    }
  }

  lemma {:induction false} LogStart(log: seq<Entry>, all: seq<InstanceResult>, budget: int, e: Entry)
    requires WriteAhead(log, all, budget) && Spent(all) < budget
    requires log != [] && Saves(log[|log| - 1], all)
    requires e.Started? && e.spent == Spent(all) && e.recorded == |all|
    ensures WriteAhead(log + [e], all, budget)
  {
    var longer := log + [e];
    forall k | 0 <= k < |longer| && longer[k].Started?
      ensures longer[k].recorded <= |all| && longer[k].spent == Spent(all[..longer[k].recorded]) < budget
      ensures k > 0 && Saves(longer[k - 1], all[..longer[k].recorded])
    {
      if k == |log| {
        assert all[..|all|] == all;
        assert longer[k - 1] == log[k - 1];
      } else {
        assert longer[k] == log[k] && longer[k - 1] == log[k - 1];
      }
    }
  }

  /** Everything the loop keeps after i instances. */
  ghost predicate BatchInv(xs: seq<Instance>, i: nat, resumed: seq<InstanceResult>, budget: int,
          log: seq<Entry>, all: seq<InstanceResult>, aborted: Stop)
    requires i <= |xs|
  {
    && resumed <= all && Results(all[|resumed|..], Pending(xs, ResultIds(resumed)))
    && WriteAhead(log, all, budget) && WritesPrefixes(log, resumed, all) && Unstopped(all, |resumed|, budget)
    && (aborted.Invalid? ==> AnyInvalid(all)) && (aborted == Budget ==> Spent(all) >= budget)
    && (aborted == CheckpointWriteFailed ==> !AllWritesOk(log))
    && (AllWritesOk(log) ==> (aborted.Invalid? <==> AnyInvalid(all)))
    && (aborted == Running ==>
          && AllWritesOk(log) && log != [] && Saves(log[|log| - 1], all)
          && |all| == |resumed| + |Pending(xs[..i], ResultIds(resumed))|)
  }

  lemma {:induction false} InvalidSnoc(rs: seq<InstanceResult>, r: InstanceResult)
    ensures AnyInvalid(rs + [r]) <==> AnyInvalid(rs) || r.failure == InvalidExperiment
  {
    var more := rs + [r];
    assert more[|rs|] == r;
    if AnyInvalid(rs) {
      var i :| 0 <= i < |rs| && rs[i].failure == InvalidExperiment;
      assert more[i] == rs[i];
    }
  }

  lemma {:induction false} UnstoppedSnoc(all: seq<InstanceResult>, r: InstanceResult, start: nat, budget: int)
    requires Unstopped(all, start, budget) && Spent(all) < budget && !AnyInvalid(all)
    ensures Unstopped(all + [r], start, budget)
  {
    var more := all + [r];
    assert more[..|all|] == all && forall m | start <= m < |all| :: more[..m] == all[..m];
  }

  lemma {:induction false} WritesSnoc(log: seq<Entry>, e: Entry)
    ensures AllWritesOk(log + [e]) <==> AllWritesOk(log) && (e.Wrote? ==> e.ok)
  {
    var longer := log + [e];
    assert longer[|log|] == e;
    assert forall k | 0 <= k < |log| :: longer[k] == log[k];
  }

  lemma {:induction false} PrefixesSnoc(log: seq<Entry>, resumed: seq<InstanceResult>, all: seq<InstanceResult>,
          more: seq<InstanceResult>, e: Entry)
    requires WritesPrefixes(log, resumed, all) && all <= more
    requires e.Wrote? ==> resumed <= e.cases <= more && (e.aborted.Invalid? ==> AnyInvalid(e.cases))
    ensures WritesPrefixes(log + [e], resumed, more)
  {
    var longer := log + [e];
    assert longer[|log|] == e && forall k | 0 <= k < |log| :: longer[k] == log[k];
  }

  lemma {:induction false} ResultsSnoc(all: seq<InstanceResult>, resumed: seq<InstanceResult>, r: InstanceResult,
          pending: seq<Instance>)
    requires resumed <= all && Results(all[|resumed|..], pending)
    requires |all| - |resumed| < |pending|
    requires !pending[|all| - |resumed|].world.Interrupts? && r == Evaluated(pending[|all| - |resumed|])
    ensures resumed <= all + [r] && Results((all + [r])[|resumed|..], pending)
  {
    assert (all + [r])[|resumed|..] == all[|resumed|..] + [r];
  }

  function StopAfter(r: InstanceResult): Stop {
    if r.failure == InvalidExperiment then Invalid(r.code, r.id) else Running
  }

  /** Starting, recording and checkpointing one more instance keeps it all. */
  lemma {:induction false} RecordKeepsBatchInv(xs: seq<Instance>, i: nat, resumed: seq<InstanceResult>, budget: int,
          log: seq<Entry>, all: seq<InstanceResult>, r: InstanceResult, ok: bool)
    requires i < |xs| && xs[i].id !in ResultIds(resumed) && !xs[i].world.Interrupts? && r == Evaluated(xs[i])
    requires BatchInv(xs, i, resumed, budget, log, all, Running) && Spent(all) < budget
    ensures var more, stop := all + [r], StopAfter(r);
      BatchInv(xs, i + 1, resumed, budget,
               log + [Started(xs[i].id, Spent(all), |all|)] + [Wrote(ok, stop, more)], more,
               if ok then stop else CheckpointWriteFailed)
  {
    var more, start := all + [r], Started(xs[i].id, Spent(all), |all|);
    PendingStep(xs, ResultIds(resumed), i);
    PendingPrefix(xs, ResultIds(resumed), i + 1);
    ResultsSnoc(all, resumed, r, Pending(xs, ResultIds(resumed)));
    UnstoppedSnoc(all, r, |resumed|, budget);
    var wrote := Wrote(ok, StopAfter(r), more);
    LogStart(log, all, budget, start);
    LogWrite(log + [start], all, more, budget, wrote);
    InvalidSnoc(all, r);
    PrefixesSnoc(log, resumed, all, all, start);
    PrefixesSnoc(log + [start], resumed, all, more, wrote);
    WritesSnoc(log, start);
    WritesSnoc(log + [start], wrote);
  }

  lemma {:induction false} InterruptKeepsBatchInv(xs: seq<Instance>, i: nat, resumed: seq<InstanceResult>, budget: int,
          log: seq<Entry>, all: seq<InstanceResult>, id: string, ok: bool)
    requires i <= |xs| && BatchInv(xs, i, resumed, budget, log, all, Running) && Spent(all) < budget
    ensures BatchInv(xs, i, resumed, budget,
                     log + [Started(id, Spent(all), |all|)] + [Wrote(ok, Interrupted, all)], all, Interrupted)
  {
    var start, wrote := Started(id, Spent(all), |all|), Wrote(ok, Interrupted, all);
    LogStart(log, all, budget, start);
    LogWrite(log + [start], all, all, budget, wrote);
    PrefixesSnoc(log, resumed, all, all, start);
    PrefixesSnoc(log + [start], resumed, all, all, wrote);
    WritesSnoc(log, start);
    WritesSnoc(log + [start], wrote);
  }

  /** What the evaluations add is sound, and so the counters stay ordered. */
  lemma {:induction false} SoundSummary(resumed: seq<InstanceResult>, all: seq<InstanceResult>, pending: seq<Instance>)
    requires resumed <= all && Results(all[|resumed|..], pending)
    ensures AllSound(resumed) ==> AllSound(all) && Ordered(TallyOf(all), |all|)
  {
    forall i | |resumed| <= i < |all| ensures Sound(all[i]) {
      assert all[i] == all[|resumed|..][i - |resumed|];
      EvaluationIsSound(pending[i - |resumed|]);
    }
    if AllSound(resumed) {
      CountersAreOrdered(all);
    }
  }

  /** One pending instance: start, evaluate, record, checkpoint. */
  method RunInstance(summary: BatchSummary, ghost xs: seq<Instance>, x: Instance, ghost n: nat,
          ghost resumed: seq<InstanceResult>, ghost budget: int, writeOk: nat -> bool, log0: seq<Entry>)
      returns (log: seq<Entry>, failed: bool)
    requires summary.Valid() && summary.aborted == Running && summary.totalCost < budget
    requires n < |xs| && x == xs[n] && x.id !in ResultIds(resumed)
    requires BatchInv(xs, n, resumed, budget, log0, summary.instances, Running)
    modifies summary
    ensures summary.Valid()
    ensures var i := if x.world.Interrupts? then n else n + 1;
      BatchInv(xs, i, resumed, budget, log, summary.instances, summary.aborted)
    ensures failed == !AllWritesOk(log)
    ensures x.world.Interrupts? ==> summary.aborted == Interrupted
  {
    ghost var all := summary.instances;
    log := log0 + [Started(x.id, summary.totalCost, |summary.instances|)];
    WritesSnoc(log0, log[|log0|]);
    var ok := writeOk(|log|);
    if x.world.Interrupts? {
      summary.aborted := Interrupted;
      InterruptKeepsBatchInv(xs, n, resumed, budget, log0, all, x.id, ok);
    } else {
      var res := EvaluateInstance(x);
      var goOn := summary.Record(res);
      RecordKeepsBatchInv(xs, n, resumed, budget, log0, all, res, ok);
    }
    WritesSnoc(log, Wrote(ok, summary.aborted, summary.instances));
    log := log + [Wrote(ok, summary.aborted, summary.instances)];
    failed := !ok;
    if !ok && !x.world.Interrupts? {
      summary.aborted := CheckpointWriteFailed;
    }
  }

  /** An instance that is already recorded is passed over. */
  lemma {:induction false} SkipKeepsBatchInv(xs: seq<Instance>, n: nat, resumed: seq<InstanceResult>, budget: int,
          log: seq<Entry>, all: seq<InstanceResult>)
    requires n < |xs| && xs[n].id in ResultIds(resumed) && BatchInv(xs, n, resumed, budget, log, all, Running)
    ensures BatchInv(xs, n + 1, resumed, budget, log, all, Running)
  {
    PendingStep(xs, ResultIds(resumed), n);
  }

  /** The loop over the selected instances; `i` says how many of them it looked at. */
  method RunLoop(summary: BatchSummary, xs: seq<Instance>, ghost resumed: seq<InstanceResult>, done: set<string>,
          budget: int, writeOk: nat -> bool, log0: seq<Entry>)
      returns (log: seq<Entry>, failed: bool, ghost i: nat)
    requires summary.Valid() && summary.aborted == Running && done == ResultIds(resumed)
    requires BatchInv(xs, 0, resumed, budget, log0, summary.instances, Running)
    modifies summary
    ensures summary.Valid() && i <= |xs|
    ensures BatchInv(xs, i, resumed, budget, log, summary.instances, summary.aborted)
    ensures failed == !AllWritesOk(log)
    ensures summary.aborted == Running ==> i == |xs|
  {
    log, failed := log0, false;
    var n := 0;
    i := 0;
    while n < |xs| && summary.aborted == Running
      invariant n <= |xs| && i <= |xs| && (summary.aborted == Running ==> n == i)
      invariant summary.Valid()
      invariant BatchInv(xs, i, resumed, budget, log, summary.instances, summary.aborted)
      invariant failed == !AllWritesOk(log)
      decreases |xs| - n
    {
      var x := xs[n];
      if x.id in done {
        SkipKeepsBatchInv(xs, n, resumed, budget, log, summary.instances);
        n, i := n + 1, i + 1;
        continue;
      }
      if summary.totalCost >= budget {
        summary.aborted := Budget;
        break;
      }
      log, failed := RunInstance(summary, xs, x, n, resumed, budget, writeOk, log);
      i := if x.world.Interrupts? then n else n + 1;
      n := n + 1;
    }
  }

  /** The part of `main` that runs the batch, with a checkpoint file (as every contracted run has).
      `writeOk` says which checkpoint writes succeed.  The recorded instances are the resumed ones and
      then the evaluations of the first pending instances, in order, all of them if nothing stopped the
      run; exit code 2 means exactly that a write failed or an experiment was invalid. */
  method RunBatch(xs: seq<Instance>, resumed: seq<InstanceResult>, budget: int, writeOk: nat -> bool)
      returns (summary: BatchSummary, log: seq<Entry>, exit: int)
    requires !AnyInvalid(resumed)
    ensures fresh(summary) && summary.Valid()
    ensures resumed <= summary.instances
    ensures Results(summary.instances[|resumed|..], Pending(xs, ResultIds(resumed)))
    ensures WriteAhead(log, summary.instances, budget)
    ensures WritesPrefixes(log, resumed, summary.instances)
    ensures AllSound(resumed) ==> AllSound(summary.instances) && Ordered(summary.Current(), |summary.instances|)
    ensures exit == if AllWritesOk(log) && !AnyInvalid(summary.instances) then 0 else 2
    ensures log != [] && log[|log| - 1].Wrote? &&
          log[|log| - 1] == Wrote(log[|log| - 1].ok, summary.aborted, summary.instances)
    ensures Unstopped(summary.instances, |resumed|, budget)
    ensures AllWritesOk(log) && summary.aborted != Interrupted ==> EndsItself(xs, resumed, summary.instances, budget)
    ensures exit == 0 && summary.aborted == Running ==>
      |summary.instances| == |resumed| + |Pending(xs, ResultIds(resumed))|
  {
    summary := new BatchSummary();
    summary.Replay(resumed);
    log := [Wrote(writeOk(0), Running, resumed)];
    SoundSummary(resumed, resumed, Pending(xs, ResultIds(resumed)));
    if !writeOk(0) {
      assert log[0].Wrote? && !log[0].ok;
      exit := 2;
      return;
    }
    assert xs[..0] == [] && xs[..|xs|] == xs;
    var failed: bool;
    ghost var i: nat;
    log, failed, i := RunLoop(summary, xs, resumed, ResultIds(resumed), budget, writeOk, log);
    var ok := writeOk(|log|);
    var wrote := Wrote(ok, summary.aborted, summary.instances);
    LogWrite(log, summary.instances, summary.instances, budget, wrote);
    PrefixesSnoc(log, resumed, summary.instances, summary.instances, wrote);
    WritesSnoc(log, wrote);
    SoundSummary(resumed, summary.instances, Pending(xs, ResultIds(resumed)));
    log := log + [wrote];
    exit := if !ok || summary.aborted.Invalid? || failed then 2 else 0;
  }
}
