/** What an evaluated instance records and costs, read off the world's answers, and what a run spends. */
module GraphCase {
  import opened Outcomes
  import opened Text
  import opened GraphBatch

  // ----- what is mentioned -----

  /** The word that stands for the item at this level: its file, the class of `file:class.rest`, or the last
      part of its dotted name. */
  ghost predicate Word(item: string, level: Level, w: string) {
    match level
    case File => ':' !in w && exists tail :: item == w + [':'] + tail
    case Class => '.' !in w && exists file, rest :: ':' !in file && item == file + [':'] + (w + ['.'] + rest)
    case Func => exists file, tail :: ':' !in file && item == file + [':'] + tail && LastPart(tail, '.', w)
  }

  ghost predicate WordOccurs(blob: string, item: string, level: Level) {
    exists w, a, b :: Word(item, level, w) && Around(blob, a, w, b)
  }

  lemma {:induction false} ItemParts(file: string, tail: string)
    requires ':' !in file
    ensures var item := file + [':'] + tail;
      ':' in item && FilePart(item) == file && Components(item) == Split(tail, '.')
  {
    IndexOfAppend(file, ':', tail);
    var item := file + [':'] + tail;
    assert item[|file|] == ':' && item[..|file|] == file && item[|file| + 1..] == tail;
  }

  lemma {:induction false} CutItem(item: string) returns (file: string, tail: string)
    requires ':' in item
    ensures ':' !in file && item == file + [':'] + tail
    ensures FilePart(item) == file && Components(item) == Split(tail, '.')
  {
    var i := IndexOf(item, ':');
    CutAt(item, i);
    file, tail := item[..i], item[i + 1..];
  }

  /** The word the source looks for. */
  function WordOf(item: string, level: Level): Option<string> {
    if ':' !in item then None
    else match level
      case File => Some(FilePart(item))
      case Class => if |Components(item)| >= 2 then Some(Components(item)[0]) else None
      case Func => Some(Last(Components(item)))
  }

  lemma {:induction false} FirstComponent(tail: string) returns (rest: string)
    requires '.' in tail
    ensures tail == Split(tail, '.')[0] + ['.'] + rest
  {
    var i := IndexOf(tail, '.');
    CutAt(tail, i);
    rest := tail[i + 1..];
  }

  lemma {:induction false} WordIsWord(item: string, level: Level)
    requires WordOf(item, level).Some?
    ensures Word(item, level, WordOf(item, level).value)
  {
    var file, tail := CutItem(item);
    match level {
      case File =>
      case Class =>
        var rest := FirstComponent(tail);
        assert item == file + [':'] + (Components(item)[0] + ['.'] + rest);
      case Func =>
        LastMeans(tail, '.', Last(Components(item)));
    }
  }

  lemma {:induction false} OnlyWord(item: string, level: Level, w: string)
    requires Word(item, level, w)
    ensures WordOf(item, level) == Some(w)
  {
    match level {
      case File =>
        var tail :| item == w + [':'] + tail;
        ItemParts(w, tail);
      case Class =>
        var file, rest :| ':' !in file && item == file + [':'] + (w + ['.'] + rest);
        ItemParts(file, w + ['.'] + rest);
        SplitAppend(w, '.', rest);
      case Func =>
        var file, tail :| ':' !in file && item == file + [':'] + tail && LastPart(tail, '.', w);
        ItemParts(file, tail);
        LastMeans(tail, '.', w);
    }
  }

  /** An item is mentioned at a level exactly when its word there occurs in the output. */
  lemma {:induction false} MentionedExactly(blob: string, item: string, level: Level)
    ensures Mentioned(blob, item, level) <==> WordOccurs(blob, item, level)
  {
    var word := WordOf(item, level);
    if word.Some? {
      WordIsWord(item, level);
      ContainsMeans(blob, word.value);
    }
    if w, a, b :| Word(item, level, w) && Around(blob, a, w, b) {
      OnlyWord(item, level, w);
    }
  }

  // ----- one instance -----

  predicate Answered(w: World) {
    && w.Answers? && w.cloneOk && !w.tooLarge && w.index.None? && w.identityOk && w.databaseThere && w.reply.Answer?
  }

  /** A dollar a million input tokens, five a million output tokens, and a flat rate without any. */
  predicate Priced(cost: int, input: nat, output: nat) {
    && (input + output > 0 ==> cost == 1 * input + 5 * output)
    && (input + output == 0 ==> cost == 50000)
  }

  ghost predicate Hit(blob: string, items: seq<string>, level: Level) {
    exists i :: 0 <= i < |items| && WordOccurs(blob, items[i], level)
  }

  /** An answered instance records the reply's tokens, their price, and what the reply mentions. */
  lemma {:induction false} AnswerExactly(x: Instance)
    requires Answered(x.world)
    ensures var r, a := Evaluated(x), x.world.reply;
      && r.indexed && r.agentRan && r.failure == NoFailure && r.code == ""
      && r.input == a.input && r.output == a.output && Priced(r.cost, a.input, a.output)
      && (r.fileHit <==> Hit(a.blob, x.groundTruth, File))
      && (r.classHit <==> Hit(a.blob, x.groundTruth, Class))
      && (r.funcHit <==> Hit(a.blob, x.groundTruth, Func))
  {
    forall i, level: Level | 0 <= i < |x.groundTruth|
      ensures Mentioned(x.world.reply.blob, x.groundTruth[i], level)
          <==> WordOccurs(x.world.reply.blob, x.groundTruth[i], level)
    {
      MentionedExactly(x.world.reply.blob, x.groundTruth[i], level);
    }
  }

  /** An error the agent's process reports itself, if it can be believed. */
  predicate Typed(r: Reply) {
    r.ErrorReply? && r.code != "" && (r.failure == InvalidExperiment || r.failure == Infrastructure)
  }

  /** The stages in their order, each with what it leaves when it is the first to fail. */
  predicate FailedAt(w: World, indexed: bool, failure: FailureClass, code: string) {
    match w
    case Interrupts => false
    case Throws => !indexed && failure == Infrastructure && code == "unhandled_case_exception"
    case Answers(_, _, _, _, _, _) =>
      || (!w.cloneOk && !indexed && failure == Infrastructure && code == "clone_failed")
      || (w.cloneOk && !indexed
          && (|| (w.tooLarge && failure == MeasuredOutcome && code == "repo_too_large")
              || (!w.tooLarge && w.index == Some((failure, code)))
              || (!w.tooLarge && w.index == None && !w.identityOk
                  && failure == InvalidExperiment && code == "index_identity_mismatch")))
      || (w.cloneOk && !w.tooLarge && w.index == None && w.identityOk && indexed
          && (|| (!w.databaseThere && failure == Infrastructure && code == "index_database_missing")
              || (w.databaseThere && w.reply.MalformedEnvelope?
                  && failure == InvalidExperiment && code == "agent_envelope_invalid")
              || (w.databaseThere && Typed(w.reply) && failure == w.reply.failure && code == w.reply.code)
              || (w.databaseThere && w.reply.ErrorReply? && !Typed(w.reply)
                  && failure == Infrastructure && code == "agent_failed")))
  }

  /** An instance without an answer records the stage that failed first, and nothing else. */
  lemma {:induction false} FailureExactly(x: Instance, indexed: bool, failure: FailureClass, code: string)
    requires !x.world.Interrupts? && !Answered(x.world)
    ensures Evaluated(x) == InstanceResult(x.id, indexed, false, false, false, false, 0, 0, 0, failure, code)
      <==> FailedAt(x.world, indexed, failure, code)
  {
  }

  // ----- what a run spends -----

  /** What an instance costs, by its answer alone. */
  function Charge(x: Instance): (c: nat)
    ensures Answered(x.world) ==> Priced(c, x.world.reply.input, x.world.reply.output)
  {
    if !Answered(x.world) then 0
    else if x.world.reply.input == 0 == x.world.reply.output then 50000
    else x.world.reply.input + 5 * x.world.reply.output
  }

  function Charges(xs: seq<Instance>): nat {
    if xs == [] then 0 else Charges(xs[..|xs| - 1]) + Charge(xs[|xs| - 1])
  }

  lemma {:induction false} EvaluatedCost(x: Instance)
    requires !x.world.Interrupts?
    ensures Evaluated(x).cost == Charge(x)
  {
    if Answered(x.world) {
      AnswerExactly(x);
    }
  }

  /** What a batch has spent is what it had spent when it resumed, and the charges of the instances since. */
  lemma {:induction false} SpendingExactly(resumed: seq<InstanceResult>, all: seq<InstanceResult>,
          pending: seq<Instance>)
    requires resumed <= all && Results(all[|resumed|..], pending)
    ensures Spent(all) == Spent(resumed) + Charges(pending[..|all| - |resumed|])
    decreases |all|
  {
    var n := |all| - |resumed|;
    if n == 0 {
      assert all == resumed;
    } else {
      var front, r := all[..|all| - 1], all[|all| - 1];
      assert front[|resumed|..] == all[|resumed|..][..n - 1] && r == all[|resumed|..][n - 1];
      SpendingExactly(resumed, front, pending);
      TallySnoc(front, r);
      assert all == front + [r];
      EvaluatedCost(pending[n - 1]);
      assert pending[..n][..n - 1] == pending[..n - 1];
    }
  }
}
