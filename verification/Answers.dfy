/**
 What becomes of the answers of the model (`execution_loop`, src/agent/run.rs): which of them are followed by
 another round, and which one becomes the result. Everything is said about the trace of a run alone.
 */
module Answers {
  import opened Wrappers
  import opened Budget
  import opened Sanitizer
  import opened TaskRun
  import opened Verdicts
  import Text

  // ---- The attempt that a trace stands in ----

  /** An answer of the attempt used tools. */
  predicate ToolsBefore(log: seq<Entry>) {
    log != [] &&
    var n := |log| - 1;
    !IsArtifact(log[n]) &&
    (ToolsBefore(log[..n]) || (IsExecution(log[n]) && log[n].reply.Ok? && log[n].reply.value.toolCalls != []))
  }

  /** An answer of the attempt used none. */
  predicate TextBefore(log: seq<Entry>) {
    log != [] &&
    var n := |log| - 1;
    !IsArtifact(log[n]) &&
    (TextBefore(log[..n]) || (IsExecution(log[n]) && log[n].reply.Ok? && log[n].reply.value.toolCalls == []))
  }

  /** The outputs of the tools used in the attempt, and a note for a text that was not taken. */
  function LinesBefore(log: seq<Entry>): seq<string> {
    if log == [] || IsArtifact(log[|log| - 1]) then []
    else
      var n := |log| - 1;
      LinesBefore(log[..n]) +
        (if !IsExecution(log[n]) || log[n].reply.Err? then []
         else if log[n].reply.value.toolCalls != [] then ToolLines(log[n].reply.value.toolCalls)
         else [EMPTY_OUTPUT_LINE])
  }

  /** An answer with tools calls for another round, and so does the first text of the attempt if it is blank and
      comes after tools. */
  predicate CallsForMore(before: seq<Entry>, answer: Reply) {
    answer.toolCalls != [] || (Text.Trim(answer.text) == [] && ToolsBefore(before) && !TextBefore(before))
  }

  /** The text that ends an execution: one that calls for no other round, or the notice of exhaustion. */
  function FinalText(before: seq<Entry>, e: Entry): Option<string> {
    if e.Refused? then Some(ExhaustedText(CountRounds(before) + 1, LinesBefore(before)))
    else if IsExecution(e) && e.reply.Ok? && !CallsForMore(before, e.reply.value) then Some(e.reply.value.text)
    else None
  }

  // ---- What the stage of a trace tells ----

  function StandsAt(env: Env, log: seq<Entry>): Option<Stage> {
    match StageAfter(env, log)
    case None => None
    case Some(stage) => Some(Entered(env, stage, Cost(env.pricing, log)))
  }

  lemma {:induction false} PrefixHasStage(env: Env, log: seq<Entry>, i: nat)
    requires StageAfter(env, log).Some? && i <= |log|
    ensures StageAfter(env, log[..i]).Some?
    ensures i < |log| ==>
              StageAfter(env, log[..i + 1])
              == Follow(env, StandsAt(env, log[..i]).value, TallyOf(env, log[..i]), log[i])
  {
    hide Follow, Entered, TallyOf, Cost;
    if i == |log| {
      assert log[..i] == log;
    } else if i == |log| - 1 {
      assert log[..i + 1] == log;
    } else {
      PrefixHasStage(env, log[..|log| - 1], i);
      assert log[..|log| - 1][..i] == log[..i] && log[..|log| - 1][..i + 1] == log[..i + 1];
    }
  }

  ghost predicate AnswerCallsForMore(before: seq<Entry>, e: Entry) {
    IsExecution(e) && e.reply.Ok? && CallsForMore(before, e.reply.value)
  }

  /** What an execution has come to is what its answers say. */
  ghost predicate Tells(log: seq<Entry>, stage: Stage) {
    stage.Executing? ==>
      match stage.progress
      case Going(lines, usedTools, recoveries) =>
        && lines == LinesBefore(log) && usedTools == ToolsBefore(log) && (recoveries == 0 <==> !TextBefore(log))
        && (log != [] && !IsArtifact(log[|log| - 1]) ==> AnswerCallsForMore(log[..|log| - 1], log[|log| - 1]))
      case Answered(text) => log != [] && FinalText(log[..|log| - 1], log[|log| - 1]) == Some(text)
      case CallFailed(error) => log != [] && IsExecution(log[|log| - 1]) && log[|log| - 1].reply == Err(error)
  }

  lemma FollowTells(env: Env, log: seq<Entry>, stage: Stage, e: Entry)
    requires Tells(log, stage) && Follow(env, stage, TallyOf(env, log), e).Some?
    ensures Tells(log + [e], Follow(env, stage, TallyOf(env, log), e).value)
  {
    hide EstimatePreflightCost, SanitizeTaskResult, ExhaustedText, ExecutionCap, CountRounds, Cost, CountCalls,
         ParseReviewVerdict;
    assert (log + [e])[..|log|] == log;
  }

  lemma EnteredTells(env: Env, log: seq<Entry>, stage: Stage, spent: real)
    requires Tells(log, stage) && (stage.Returned? ==> log != [] && IsArtifact(log[|log| - 1]))
    ensures Tells(log, Entered(env, stage, spent))
  {
    hide FinalText;
  }

  lemma ReturnedByArtifact(env: Env, stage: Stage, t: Tally, e: Entry)
    requires Follow(env, stage, t, e).Some? && Follow(env, stage, t, e).value.Returned?
    ensures IsArtifact(e)
  {
    hide EstimatePreflightCost, SanitizeTaskResult, ExhaustedText, ExecutionCap, ParseReviewVerdict, AfterAnswer;
  }

  lemma {:induction false} StageTells(env: Env, log: seq<Entry>)
    requires StageAfter(env, log).Some?
    ensures Tells(log, StageAfter(env, log).value) && Tells(log, StandsAt(env, log).value)
  {
    hide Follow, Tells, Entered, Cost, TallyOf;
    if log == [] {
      StartTells(env);
    } else {
      var n := |log| - 1;
      StageTells(env, log[..n]);
      FollowTells(env, log[..n], StandsAt(env, log[..n]).value, log[n]);
      assert log[..n] + [log[n]] == log;
      if StageAfter(env, log).value.Returned? {
        ReturnedByArtifact(env, StandsAt(env, log[..n]).value, TallyOf(env, log[..n]), log[n]);
      }
      EnteredTells(env, log, StageAfter(env, log).value, Cost(env.pricing, log));
    }
  }

  lemma StartTells(env: Env)
    ensures StageAfter(env, []) == StandsAt(env, [])
    ensures Tells([], StageAfter(env, []).value)
  {
  }

  // ---- For every run ----

  /** One more round: a call for the same reason, a refusal, or the error of too many rounds. */
  predicate OneMoreRound(before: seq<Entry>, call: Entry, next: Entry)
    requires IsExecution(call)
  {
    || (IsExecution(next) && next.purpose == call.purpose)
    || next.Refused?
    || (&& next == Attempt(CountAttempts(before) + 1, ExecutionError, Some(ITERATION_LIMIT_ERROR), [])
        && CountRounds(before) + 1 >= MAX_EXECUTION_ITERATIONS)
  }

  /** The artifact of the attempt shows the sanitized text, unless that is rejected. */
  predicate Shows(env: Env, n: nat, text: string, next: Entry) {
    match SanitizeTaskResult(text)
    case Rejected(why) => next == Attempt(n, InvalidResult, Some(why), [])
    case Accepted(result) =>
      match env.deliverable(n)
      case Missing(why) => next == Attempt(n, MissingTerminalDeliverable, Some(why), result)
      case _ => next == Attempt(n, Completed, None, result) || next == Attempt(n, CutShort, None, result)
  }

  lemma StageAfterCall(env: Env, stage: Stage, t: Tally, e: Entry)
    requires Follow(env, stage, t, e).Some? && (IsExecution(e) || e.Refused?)
    ensures
      var next := Follow(env, stage, t, e).value;
      && stage.Executing? && stage.progress.Going?
      && next.Executing? && next.n == stage.n && next.reason == stage.reason
      && (IsExecution(e) ==> e.purpose == ExecutionChat(stage.reason) && t.rounds < MAX_EXECUTION_ITERATIONS)
  {
    hide EstimatePreflightCost, SanitizeTaskResult, ExhaustedText, ExecutionCap, ParseReviewVerdict, AfterAnswer;
  }

  /**
   No answer is lost: one that calls for more is followed by another round of the same attempt, a failed call by
   its error, and every other text, like the notice of exhaustion, by the artifact that shows it sanitized. Only
   a run that was stopped by a failed write or query ends after a call.
   */
  lemma EveryAnswerIsUsed(env: Env, i: nat)
    requires i < |Run(env).0.log| && (IsExecution(Run(env).0.log[i]) || Run(env).0.log[i].Refused?)
    ensures
      var (s, error) := Run(env);
      var before, e, n := s.log[..i], s.log[i], CountAttempts(s.log[..i]) + 1;
      && (i + 1 == |s.log| ==> error.Some?)
      && (i + 1 < |s.log| ==>
            var next := s.log[i + 1];
            match FinalText(before, e)
            case Some(text) => Shows(env, n, text, next)
            case None =>
              if e.reply.Err? then next == Attempt(n, ExecutionError, Some(e.reply.error), [])
              else OneMoreRound(before, e, next))
  {
    hide Run, StageAfter, Cost, CountCalls, CountArtifacts, ToolTraceOf, Follow, FinalText, Tells, TallyOf,
         CountAttempts, CountRounds, Entered;
    RunEndsWell(env);
    var log := Run(env).0.log;
    PrefixHasStage(env, log, i);
    PrefixHasStage(env, log, i + 1);
    var stage, t := StandsAt(env, log[..i]).value, TallyOf(env, log[..i]);
    StageAfterCall(env, stage, t, log[i]);
    AttemptsOfStage(env, log[..i]);
    assert log[..i + 1] == log[..i] + [log[i]];
    StageTells(env, log[..i + 1]);
    ExecutingStays(env, log[..i + 1]);
    var after := StageAfter(env, log[..i + 1]).value;
    if i + 1 == |log| {
      assert log[..i + 1] == log;
      EndedIsOver(env, Run(env).0);
    } else {
      PrefixHasStage(env, log, i + 2);
      NextIsArtifactOrRound(env, log[..i], log[i], after, log[i + 1]);
    }
  }

  lemma EndedIsOver(env: Env, s: State)
    requires StageAfter(env, s.log).Some? && StageAfter(env, s.log).value.Executing?
    ensures !Ended(env, s)
  {
    hide StageAfter;
  }

  lemma ExecutingStays(env: Env, log: seq<Entry>)
    requires StageAfter(env, log).Some? && StageAfter(env, log).value.Executing?
    ensures StandsAt(env, log) == StageAfter(env, log)
  {
  }

  lemma AttemptsOfStage(env: Env, log: seq<Entry>)
    requires StageAfter(env, log).Some? && StandsAt(env, log).value.Executing?
    ensures CountAttempts(log) + 1 == StandsAt(env, log).value.n
  {
    hide StageAfter, Cost, CountAttempts, CountRounds, CountCalls, CountExecutions;
    TraceIsBounded(env, log);
  }

  lemma NextIsArtifactOrRound(env: Env, before: seq<Entry>, e: Entry, stage: Stage, next: Entry)
    requires (IsExecution(e) || e.Refused?) && stage.Executing? && Tells(before + [e], stage)
    requires IsExecution(e) ==> e.purpose == ExecutionChat(stage.reason)
    requires stage.n == CountAttempts(before) + 1
    requires Follow(env, stage, TallyOf(env, before + [e]), next).Some?
    ensures
      match FinalText(before, e)
      case Some(text) => Shows(env, stage.n, text, next)
      case None =>
        if e.reply.Err? then next == Attempt(stage.n, ExecutionError, Some(e.reply.error), [])
        else OneMoreRound(before, e, next)
  {
    hide EstimatePreflightCost, SanitizeTaskResult, ExhaustedText, ExecutionCap, ParseReviewVerdict, AfterAnswer,
         Cost, CountCalls, StageAfter;
    TraceGrows(env, before, e);
    assert (before + [e])[..|before|] == before;
  }

  // ---- Where a done result comes from ----

  /** How many entries there are up to the last attempt artifact. */
  function UpToAttempt(log: seq<Entry>): (k: nat)
    ensures k <= |log|
  {
    if log == [] then 0 else if log[|log| - 1].Attempt? then |log| else UpToAttempt(log[..|log| - 1])
  }

  /** The last attempt artifact shows `result`, the sanitized form of the text right before it. */
  ghost predicate IsShown(log: seq<Entry>, result: string) {
    var k := UpToAttempt(log);
    && k >= 2 && log[k - 1].Attempt? && log[k - 1].text == result && log[k - 1].error.None?
    && FinalText(log[..k - 2], log[k - 2]).Some?
    && SanitizeTaskResult(FinalText(log[..k - 2], log[k - 2]).value) == Accepted(result)
  }

  predicate InReview(stage: Stage) {
    stage.Reviewing? || stage.Asked? || stage.Repaired? || stage.Passed?
  }

  /** A text gets into review by its artifact, and stays the same until the review is over. */
  lemma FollowKeepsText(env: Env, stage: Stage, t: Tally, e: Entry)
    requires Follow(env, stage, t, e).Some? && InReview(Follow(env, stage, t, e).value)
    ensures
      var next := Follow(env, stage, t, e).value;
      if e.Attempt? then
        && stage.Executing? && stage.progress.Answered? && e.error.None? && e.text == next.text
        && SanitizeTaskResult(stage.progress.text) == Accepted(next.text)
      else InReview(stage) && next.text == stage.text
  {
    hide EstimatePreflightCost, SanitizeTaskResult, ExhaustedText, ExecutionCap, ParseReviewVerdict, AfterAnswer;
  }

  lemma {:induction false} ReviewedTextIsShown(env: Env, log: seq<Entry>)
    requires StageAfter(env, log).Some? && InReview(StageAfter(env, log).value)
    ensures IsShown(log, StageAfter(env, log).value.text)
  {
    hide Follow, FinalText, SanitizeTaskResult, Cost, TallyOf;
    var n := |log| - 1;
    var stage := StandsAt(env, log[..n]).value;
    FollowKeepsText(env, stage, TallyOf(env, log[..n]), log[n]);
    if log[n].Attempt? {
      StageTells(env, log[..n]);
      assert log[..n][..n - 1] == log[..n - 1];
    } else {
      ReviewedTextIsShown(env, log[..n]);
      var k := UpToAttempt(log[..n]);
      assert log[..n][..k - 2] == log[..k - 2];
    }
  }

  /** The result of a done run is the text that ended its last execution, sanitized. */
  lemma DoneResultIsAnAnswer(env: Env)
    requires Run(env).1.None? && Run(env).0.status.Done?
    ensures Run(env).0.result.Some? && IsShown(Run(env).0.log, Run(env).0.result.value)
  {
    hide Run, StageAfter, Cost, CountCalls, CountArtifacts, ToolTraceOf, IsShown;
    RunEndsWell(env);
    ReviewedTextIsShown(env, Run(env).0.log);
  }
}
