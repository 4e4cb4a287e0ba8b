/**
 The task run (src/agent/run.rs): execute, sanitize, check the deliverable, review, retry.

 Everything the run does not decide is a field of `Env`: what the model answers to its n-th call,
 how many tokens a request is estimated to need, whether a stored artifact is accepted. The
 functions below are the run for one such environment; the lemmas hold for all of them.
 */
module TaskRun {
  import opened Wrappers
  import opened Budget
  import opened Sanitizer
  import opened TaskStatus
  import opened Verdicts
  import Text

  const MAX_EXECUTION_ITERATIONS := 32
  const EMPTY_POST_TOOL_RECOVERY_ATTEMPTS := 1
  const REVIEW_OUTPUT_TOKENS := 1024

  datatype ToolCall = ToolCall(name: string, output: string, success: bool)
  datatype Reply = Reply(text: string, toolCalls: seq<ToolCall>, usage: Usage)
  datatype DeliverableCheck = NotRequired | Found(factId: string) | Missing(reason: string) | QueryFailed(error: string)

  datatype Env = Env(
    budget: real, reserve: real, pricing: Pricing, maxRetries: nat,
    chat: nat -> Result<Reply, string>,        // the n-th model call; an error is a failed or late call
    executionTokens: nat -> (nat, nat),        // of iteration n: estimated input, maximum output
    reviewTokens: nat -> nat,                  // of the review of attempt n: estimated input
    parseJson: string -> Option<Payload>,      // what a JSON text parses to
    deliverable: nat -> DeliverableCheck,      // after attempt n
    store: nat -> Option<string>)              // the error of the n-th artifact write, if it fails
  {
    function Cap(): real {
      ExecutionCap(budget, reserve)
    }

    function ParseVerdict(text: string): Option<Verdict> {
      ParseReviewVerdict(parseJson, text)
    }

    /** The review of attempt `n` is estimated to cost more than is left of the budget. */
    predicate CannotReview(n: nat, spent: real) {
      spent + EstimatePreflightCost(pricing, reviewTokens(n), REVIEW_OUTPUT_TOKENS) > budget
    }
  }

  // ---- What a run leaves behind ----

  datatype Purpose = ExecutionChat(reason: Option<string>) | ReviewChat | RepairChat
  datatype AttemptStatus =
    Completed | CutShort | InvalidResult | MissingTerminalDeliverable | ExecutionError
  datatype ReviewLabel = OkVerdict | RetryVerdict | ErrorVerdict

  /** Model calls with their answers, refused preflights and stored artifacts with what they show, in order. */
  datatype Entry =
    | Call(purpose: Purpose, input: nat, maxOutput: nat, reply: Result<Reply, string>)
    | Refused(input: nat, maxOutput: nat)
    | Attempt(n: nat, status: AttemptStatus, error: Option<string>, text: string)
    | Reviewed(n: nat, says: ReviewLabel, reason: Option<string>)

  datatype State = State(
    status: Status, result: Option<string>, error: Option<string>, iteration: nat,
    spent: real, shellSpent: real, toolTrace: seq<(string, bool)>, deliverableFactId: Option<string>,
    calls: nat, writes: nat, log: seq<Entry>)

  const INITIAL := State(Running, None, None, 0, 0.0, 0.0, [], None, 0, 0, [])

  function ReplyCost(p: Pricing, reply: Result<Reply, string>): real {
    if reply.Ok? then EstimateFromUsage(p, reply.value.usage) else 0.0
  }

  /** One model call; only an answered call is charged. */
  function Chat(env: Env, s: State, purpose: Purpose, input: nat, maxOutput: nat): (State, Result<Reply, string>) {
    var reply := env.chat(s.calls);
    (s.(calls := s.calls + 1, spent := s.spent + ReplyCost(env.pricing, reply),
        log := s.log + [Call(purpose, input, maxOutput, reply)]),
     reply)
  }

  /** One artifact write; the error ends the run without a result. */
  function Store(env: Env, s: State, artifact: Entry): (State, Option<string>) {
    var error := env.store(s.writes);
    (s.(writes := s.writes + 1, log := if error.None? then s.log + [artifact] else s.log), error)
  }

  // ---- Execution ----

  function DecimalText(n: nat): string {
    if n < 10 then [(48 + n) as char] else DecimalText(n / 10) + [(48 + n % 10) as char]
  }

  function ExhaustedText(iteration: nat, trace: seq<string>): string {
    "(budget exhausted after " + DecimalText(iteration) + " iterations)\n" + Text.JoinLines(trace)
  }

  function ToolLine(call: ToolCall): string {
    "[" + call.name + "] \U{2192} " + call.output
  }

  /** A line tells which tool was called and what it put out, unless brackets in names get in the way. */
  lemma ToolLineTells(a: ToolCall, b: ToolCall)
    requires ']' !in a.name && ']' !in b.name && ToolLine(a) == ToolLine(b)
    ensures a.name == b.name && a.output == b.output
  {
    var arrow := "] \U{2192} ";
    var x, y := ToolLine(a), ToolLine(b);
    assert x == "[" + a.name + (arrow + a.output) && y == "[" + b.name + (arrow + b.output);
    assert x[|a.name| + 1] == ']' && y[|b.name| + 1] == ']';
    assert |a.name| == |b.name| by {
      assert forall i | 0 <= i < |a.name| :: x[i + 1] == a.name[i];
      assert forall i | 0 <= i < |b.name| :: y[i + 1] == b.name[i];
    }
    assert a.name == x[1..|a.name| + 1] && b.name == y[1..|b.name| + 1];
    assert a.output == x[|a.name| + 1 + |arrow|..] && b.output == y[|b.name| + 1 + |arrow|..];
  }

  const EMPTY_OUTPUT_LINE := "[empty_post_tool_output] \U{2192} assistant returned no final text after tool use"
  const EMPTY_OUTPUT_ENTRIES := [("empty_post_tool_output", false), ("empty_output_recovery", true)]
  const ITERATION_LIMIT_ERROR :=
    "execution exceeded maximum iteration limit (32) without producing a final answer"

  function ToolLines(calls: seq<ToolCall>): seq<string> {
    if calls == [] then [] else [ToolLine(calls[0])] + ToolLines(calls[1..])
  }

  function ToolEntries(calls: seq<ToolCall>): seq<(string, bool)> {
    if calls == [] then [] else [(calls[0].name, calls[0].success)] + ToolEntries(calls[1..])
  }

  /** There is one line and one entry a call, in order, with its name and whether it succeeded. */
  lemma {:induction false} EveryToolIsRecorded(calls: seq<ToolCall>, i: nat)
    requires i < |calls|
    ensures |ToolLines(calls)| == |calls| == |ToolEntries(calls)|
    ensures ToolLines(calls)[i] == ToolLine(calls[i]) && ToolEntries(calls)[i] == (calls[i].name, calls[i].success)
  {
    if |calls| > 1 {
      EveryToolIsRecorded(calls[1..], if i == 0 then 0 else i - 1);
    }
  }

  /** The local variables of the execution loop. */
  datatype Local = Local(trace: seq<string>, usedTools: bool, recoveries: nat)

  datatype Turn = Continue(local: Local) | Return(r: Result<string, string>)

  predicate NeedsRecovery(local: Local, reply: Reply) {
    local.usedTools && Text.Trim(reply.text) == [] && local.recoveries < EMPTY_POST_TOOL_RECOVERY_ATTEMPTS
  }

  /** What an answered call leads to. */
  function AfterReply(s: State, local: Local, reply: Reply): (State, Turn) {
    if reply.toolCalls != [] then
      (s.(toolTrace := s.toolTrace + ToolEntries(reply.toolCalls)),
       Continue(Local(local.trace + ToolLines(reply.toolCalls), true, local.recoveries)))
    else if NeedsRecovery(local, reply) then
      (s.(toolTrace := s.toolTrace + EMPTY_OUTPUT_ENTRIES),
       Continue(Local(local.trace + [EMPTY_OUTPUT_LINE], true, local.recoveries + 1)))
    else (s, Return(Ok(reply.text)))
  }

  /** One round of the execution loop. The iteration counter belongs to the whole run. */
  function Iterate(env: Env, s: State, reason: Option<string>, local: Local): (State, Turn) {
    var s1 := s.(iteration := s.iteration + 1);
    var (input, maxOutput) := env.executionTokens(s1.iteration);
    if s1.iteration > MAX_EXECUTION_ITERATIONS then (s1, Return(Err(ITERATION_LIMIT_ERROR)))
    else if Available(env.budget, env.reserve, s1.spent, Phase.Execution)
            < EstimatePreflightCost(env.pricing, input, maxOutput) then
      (s1.(status := PartialBudgetOverdraw, log := s1.log + [Refused(input, maxOutput)]),
       Return(Ok(ExhaustedText(s1.iteration, local.trace))))
    else
      var (s2, reply) := Chat(env, s1, ExecutionChat(reason), input, maxOutput);
      match reply
      case Err(e) => (s2, Return(Err(e)))
      case Ok(answer) => AfterReply(s2.(shellSpent := s2.spent), local, answer)
  }

  /** The iterations still allowed. */
  function IterationsLeft(s: State): nat {
    if s.iteration <= MAX_EXECUTION_ITERATIONS then MAX_EXECUTION_ITERATIONS + 1 - s.iteration else 0
  }

  lemma IterateAdvances(env: Env, s: State, reason: Option<string>, local: Local)
    ensures Iterate(env, s, reason, local).0.iteration == s.iteration + 1
    ensures Iterate(env, s, reason, local).1.Continue? ==> s.iteration < MAX_EXECUTION_ITERATIONS
  {
  }

  function ExecutionLoop(env: Env, s: State, reason: Option<string>, local: Local): (State, Result<string, string>)
    decreases IterationsLeft(s)
  {
    IterateAdvances(env, s, reason, local);
    var (s1, turn) := Iterate(env, s, reason, local);
    match turn
    case Continue(next) => ExecutionLoop(env, s1, reason, next)
    case Return(r) => (s1, r)
  }

  const FIRST_LOCAL := Local([], false, 0)

  // ---- Review ----

  const REPAIR_ERROR := "review output malformed after repair"

  /** The verdict on a result, and the error if no verdict can be had. */
  function ReviewResult(env: Env, s: State, attempt: nat, result: string): (State, Result<Verdict, string>) {
    var input := env.reviewTokens(attempt);
    if Available(env.budget, env.reserve, s.spent, Phase.Review)
       < EstimatePreflightCost(env.pricing, input, REVIEW_OUTPUT_TOKENS) then (s, Ok(Accept))
    else if SanitizeTaskResult(result).Rejected? then (s, Ok(SendBack(SanitizeTaskResult(result).reason)))
    else
      var (s1, reply) := Chat(env, s, ReviewChat, input, REVIEW_OUTPUT_TOKENS);
      match reply
      case Err(e) => (s1, Err(e))
      case Ok(answer) =>
        match env.ParseVerdict(answer.text)
        case Some(verdict) => (s1, Ok(verdict))
        case None =>
          var (s2, repair) := Chat(env, s1, RepairChat, 0, 0);
          match repair
          case Err(e) => (s2, Err(e))
          case Ok(second) =>
            match env.ParseVerdict(second.text)
            case Some(verdict) => (s2, Ok(verdict))
            case None => (s2, Err(REPAIR_ERROR))
  }

  // ---- Attempts ----

  /** After an attempt: another one with a reason, the end of the loop, or an error out of the run. */
  datatype Next = Again(reason: string) | Finish | Abort(error: string)

  function ExecutionRemaining(env: Env, s: State): real {
    Max(env.Cap() - s.spent, 0.0)
  }

  /** An attempt that was sent back, as its number `retries` of retries. */
  function RetryOrGiveUp(env: Env, s: State, retries: nat, reason: string, prefix: string)
    : (r: (State, Next))
    ensures r.1.Again? ==> retries <= env.maxRetries && r.0.spent < env.Cap()
  {
    if retries > env.maxRetries then (s.(status := Failed, error := Some(prefix + reason)), Finish)
    else if ExecutionRemaining(env, s) <= 0.0 then (s.(status := PartialBudgetOverdraw), Finish)
    else (s, Again(reason))
  }

  function AttemptLabel(s: State): AttemptStatus {
    if s.status.PartialBudgetOverdraw? then CutShort else Completed
  }

  function ReviewAttempt(env: Env, s: State, attempt: nat, retries: nat, result: string)
    : (r: (State, Next))
    ensures r.1.Again? ==> retries < env.maxRetries && r.0.spent < env.Cap()
  {
    var (s1, verdict) := ReviewResult(env, s, attempt, result);
    match verdict
    case Ok(Accept) =>
      var (s2, error) := Store(env, s1, Reviewed(attempt, OkVerdict, None));
      if error.Some? then (s2, Abort(error.value)) else (s2.(status := Done), Finish)
    case Ok(SendBack(reason)) =>
      var (s2, error) := Store(env, s1, Reviewed(attempt, RetryVerdict, Some(reason)));
      if error.Some? then (s2, Abort(error.value))
      else RetryOrGiveUp(env, s2, retries + 1, reason, "REVIEW_REJECTED: ")
    case Err(e) =>
      var (s2, error) := Store(env, s1, Reviewed(attempt, ErrorVerdict, Some(e)));
      if error.Some? then (s2, Abort(error.value))
      else (s2.(status := Failed, error := Some("REVIEW_ERROR: " + e)), Finish)
  }

  /** An attempt whose result cannot be used. */
  function Unusable(
      env: Env, s: State, attempt: nat, retries: nat, status: AttemptStatus, text: string, reason: string,
      prefix: string)
    : (r: (State, Next))
    ensures r.1.Again? ==> retries < env.maxRetries && r.0.spent < env.Cap()
  {
    var (s1, error) := Store(env, s, Attempt(attempt, status, Some(reason), text));
    if error.Some? then (s1, Abort(error.value))
    else RetryOrGiveUp(env, s1.(result := None), retries + 1, reason, prefix)
  }

  function UseResult(env: Env, s: State, attempt: nat, retries: nat, text: string)
    : (r: (State, Next))
    ensures r.1.Again? ==> retries < env.maxRetries && r.0.spent < env.Cap()
  {
    var check := env.deliverable(attempt);
    var s1 := s.(deliverableFactId := if check.Found? then Some(check.factId) else None);
    if check.QueryFailed? then (s1, Abort(check.error))
    else if check.Missing? then
      Unusable(env, s1, attempt, retries, MissingTerminalDeliverable, text, check.reason,
               "MISSING_TERMINAL_DELIVERABLE: ")
    else
      var (s2, error) := Store(env, s1, Attempt(attempt, AttemptLabel(s1), None, text));
      if error.Some? then (s2, Abort(error.value))
      else ReviewAttempt(env, s2.(result := Some(text)), attempt, retries, text)
  }

  function RunAttempt(env: Env, s: State, attempt: nat, retries: nat, reason: Option<string>)
    : (r: (State, Next))
    ensures r.1.Again? ==> retries < env.maxRetries && r.0.spent < env.Cap()
  {
    var (s1, executed) := ExecutionLoop(env, s, reason, FIRST_LOCAL);
    match executed
    case Err(e) =>
      var (s2, error) := Store(env, s1, Attempt(attempt, ExecutionError, Some(e), []));
      if error.Some? then (s2, Abort(error.value))
      else (s2.(status := Failed, error := Some(e)), Finish)
    case Ok(text) =>
      match SanitizeTaskResult(text)
      case Rejected(why) =>
        Unusable(env, s1, attempt, retries, InvalidResult, [], why, "EXECUTION_RESULT_INVALID: ")
      case Accepted(sanitized) => UseResult(env, s1, attempt, retries, sanitized)
  }

  /** The attempts from number `attempt` on; an error is what stopped the run. */
  function RunAttempts(env: Env, s: State, attempt: nat, retries: nat, reason: Option<string>)
    : (State, Option<string>)
    decreases if retries <= env.maxRetries then env.maxRetries - retries else 0
  {
    var (s1, next) := RunAttempt(env, s, attempt, retries, reason);
    match next
    case Again(why) => RunAttempts(env, s1, attempt + 1, retries + 1, Some(why))
    case Finish => (s1, None)
    case Abort(e) => (s1, Some(e))
  }

  function Run(env: Env): (State, Option<string>) {
    var (s, error) := RunAttempts(env, INITIAL, 1, 0, None);
    (if error.None? then s.(shellSpent := s.spent) else s, error)
  }

  // ---- The trace of a run ----

  /** What the calls of a trace cost. */
  function Cost(p: Pricing, log: seq<Entry>): real {
    if log == [] then 0.0
    else
      var n := |log| - 1;
      Cost(p, log[..n]) + (if log[n].Call? then ReplyCost(p, log[n].reply) else 0.0)
  }

  function CountCalls(log: seq<Entry>): nat {
    if log == [] then 0
    else var n := |log| - 1; CountCalls(log[..n]) + (if log[n].Call? then 1 else 0)
  }

  predicate IsArtifact(e: Entry) {
    e.Attempt? || e.Reviewed?
  }

  function CountArtifacts(log: seq<Entry>): nat {
    if log == [] then 0
    else var n := |log| - 1; CountArtifacts(log[..n]) + (if IsArtifact(log[n]) then 1 else 0)
  }

  predicate IsExecution(e: Entry) {
    e.Call? && e.purpose.ExecutionChat?
  }

  /** The rounds of all execution loops: each ends with a call or a refusal. */
  function CountRounds(log: seq<Entry>): nat {
    if log == [] then 0
    else var n := |log| - 1; CountRounds(log[..n]) + (if log[n].Refused? || IsExecution(log[n]) then 1 else 0)
  }

  /** What has happened so far. */
  datatype Tally = Tally(spent: real, rounds: nat, calls: nat)

  function TallyOf(env: Env, log: seq<Entry>): Tally {
    Tally(Cost(env.pricing, log), CountRounds(log), CountCalls(log))
  }

  /** How far an execution has come: it goes on, with the lines of its tool trace; it has a text to be
      sanitized; or its last call failed. */
  datatype Progress =
    | Going(lines: seq<string>, usedTools: bool, recoveries: nat)
    | Answered(text: string)
    | CallFailed(error: string)

  const STARTED := Going([], false, 0)

  /** Where a trace stands; `cut` says whether some execution so far ran out of budget, `kept` is the result
      that the run has at the moment. */
  datatype Stage =
    | Executing(n: nat, reason: Option<string>, cut: bool, kept: Option<string>, progress: Progress)
    | Reviewing(n: nat, cut: bool, text: string)                                // nothing was asked yet
    | Asked(n: nat, cut: bool, text: string, reply: Result<Reply, string>)
    | Repaired(n: nat, cut: bool, text: string, reply: Result<Reply, string>)
    | Returned(n: nat, why: string, cut: bool, prefix: string, kept: Option<string>)  // attempt n was sent back
    | Passed(n: nat, text: string)
    | Broken(n: nat, error: string, kept: Option<string>)

  /** An attempt that was sent back is followed by the next one, which is given the reason, if a retry
      and some execution budget are left. */
  function Entered(env: Env, stage: Stage, spent: real): Stage {
    if stage.Returned? && stage.n <= env.maxRetries && spent < env.Cap()
    then Executing(stage.n + 1, Some(stage.why), stage.cut, stage.kept, STARTED)
    else stage
  }

  /** Tool calls are answered, and the first blank text after tools is not taken; every other text is final. */
  function AfterAnswer(lines: seq<string>, usedTools: bool, recoveries: nat, reply: Result<Reply, string>): Progress {
    match reply
    case Err(e) => CallFailed(e)
    case Ok(Reply(text, toolCalls, _)) =>
      if toolCalls != [] then Going(lines + ToolLines(toolCalls), true, recoveries)
      else if usedTools && recoveries == 0 && Text.Trim(text) == [] then Going(lines + [EMPTY_OUTPUT_LINE], true, 1)
      else Answered(text)
  }

  /** One more round of an execution that goes on: a call or a refusal as the budget allows, 32 in all attempts
      together. */
  function FollowRound(env: Env, stage: Stage, t: Tally, e: Entry): Option<Stage>
    requires stage.Executing? && stage.progress.Going?
  {
    var tokens := env.executionTokens(t.rounds + 1);
    var estimate := EstimatePreflightCost(env.pricing, tokens.0, tokens.1);
    if t.rounds >= MAX_EXECUTION_ITERATIONS then
      if e == Attempt(stage.n, ExecutionError, Some(ITERATION_LIMIT_ERROR), [])
      then Some(Broken(stage.n, ITERATION_LIMIT_ERROR, stage.kept)) else None
    else if t.spent + estimate > env.Cap() then
      if e == Refused(tokens.0, tokens.1)
      then Some(stage.(cut := true, progress := Answered(ExhaustedText(t.rounds + 1, stage.progress.lines)))) else None
    else if e == Call(ExecutionChat(stage.reason), tokens.0, tokens.1, env.chat(t.calls)) then
      var going := stage.progress;
      Some(stage.(progress := AfterAnswer(going.lines, going.usedTools, going.recoveries, e.reply)))
    else None
  }

  /** The artifact of a text that an execution came up with. */
  function FollowText(env: Env, stage: Stage, text: string, e: Entry): Option<Stage>
    requires stage.Executing?
  {
    var n := stage.n;
    match SanitizeTaskResult(text)
    case Rejected(why) =>
      if e == Attempt(n, InvalidResult, Some(why), [])
      then Some(Returned(n, why, stage.cut, "EXECUTION_RESULT_INVALID: ", None)) else None
    case Accepted(result) =>
      match env.deliverable(n)
      case QueryFailed(_) => None
      case Missing(why) =>
        if e == Attempt(n, MissingTerminalDeliverable, Some(why), result)
        then Some(Returned(n, why, stage.cut, "MISSING_TERMINAL_DELIVERABLE: ", None)) else None
      case _ =>
        if e == Attempt(n, if stage.cut then CutShort else Completed, None, result)
        then Some(Reviewing(n, stage.cut, result)) else None
  }

  function FollowExecution(env: Env, stage: Stage, t: Tally, e: Entry): Option<Stage>
    requires stage.Executing?
  {
    match stage.progress
    case Going(_, _, _) => FollowRound(env, stage, t, e)
    case Answered(text) => FollowText(env, stage, text, e)
    case CallFailed(error) =>
      if e == Attempt(stage.n, ExecutionError, Some(error), []) then Some(Broken(stage.n, error, stage.kept)) else None
  }

  /** The artifact of a review, and what it leads to. */
  function Concluded(n: nat, cut: bool, text: string, verdict: Result<Verdict, string>, e: Entry): Option<Stage> {
    match verdict
    case Ok(Accept) => if e == Reviewed(n, OkVerdict, None) then Some(Passed(n, text)) else None
    case Ok(SendBack(why)) =>
      if e == Reviewed(n, RetryVerdict, Some(why)) then Some(Returned(n, why, cut, "REVIEW_REJECTED: ", Some(text)))
      else None
    case Err(error) =>
      if e == Reviewed(n, ErrorVerdict, Some(error)) then Some(Broken(n, "REVIEW_ERROR: " + error, Some(text)))
      else None
  }

  /** What follows a result: a pass exactly if its review cannot be afforded, a return if it does not survive
      sanitizing, and otherwise the review call. */
  function FollowResult(env: Env, stage: Stage, t: Tally, e: Entry): Option<Stage>
    requires stage.Reviewing?
  {
    var Reviewing(n, cut, text) := stage;
    if env.CannotReview(n, t.spent) then Concluded(n, cut, text, Ok(Accept), e)
    else
      match SanitizeTaskResult(text)
      case Rejected(why) => Concluded(n, cut, text, Ok(SendBack(why)), e)
      case Accepted(_) =>
        if e == Call(ReviewChat, env.reviewTokens(n), REVIEW_OUTPUT_TOKENS, env.chat(t.calls))
        then Some(Asked(n, cut, text, e.reply)) else None
  }

  /** What follows a review call; an answer without a verdict is repaired. */
  function FollowReview(env: Env, stage: Stage, t: Tally, e: Entry): Option<Stage>
    requires stage.Asked?
  {
    var Asked(n, cut, text, reply) := stage;
    match reply
    case Err(error) => Concluded(n, cut, text, Err(error), e)
    case Ok(answer) =>
      match env.ParseVerdict(answer.text)
      case Some(verdict) => Concluded(n, cut, text, Ok(verdict), e)
      case None =>
        if e == Call(RepairChat, 0, 0, env.chat(t.calls)) then Some(Repaired(n, cut, text, e.reply)) else None
  }

  function RepairedVerdict(env: Env, reply: Result<Reply, string>): Result<Verdict, string> {
    match reply
    case Err(error) => Err(error)
    case Ok(answer) =>
      match env.ParseVerdict(answer.text)
      case Some(verdict) => Ok(verdict)
      case None => Err(REPAIR_ERROR)
  }

  function Follow(env: Env, stage: Stage, t: Tally, e: Entry): Option<Stage> {
    match stage
    case Executing(_, _, _, _, _) => FollowExecution(env, stage, t, e)
    case Reviewing(_, _, _) => FollowResult(env, stage, t, e)
    case Asked(_, _, _, _) => FollowReview(env, stage, t, e)
    case Repaired(n, cut, text, reply) => Concluded(n, cut, text, RepairedVerdict(env, reply), e)
    case _ => None
  }

  /** The traces a run may leave: attempt 1, perhaps review 1, attempt 2, and so on. */
  function StageAfter(env: Env, log: seq<Entry>): Option<Stage> {
    if log == [] then Some(Executing(1, None, false, None, STARTED))
    else
      var n := |log| - 1;
      match StageAfter(env, log[..n])
      case None => None
      case Some(stage) => Follow(env, Entered(env, stage, Cost(env.pricing, log[..n])), TallyOf(env, log[..n]), log[n])
  }

  /** What a call adds to the tool trace of the run; `stage` is the one it leads to. */
  function ToolsOf(e: Entry, stage: Option<Stage>): seq<(string, bool)> {
    if !IsExecution(e) || e.reply.Err? then []
    else if e.reply.value.toolCalls != [] then ToolEntries(e.reply.value.toolCalls)
    else if stage.Some? && stage.value.Executing? && stage.value.progress.Going? then EMPTY_OUTPUT_ENTRIES
    else []
  }

  function ToolTraceOf(env: Env, log: seq<Entry>): seq<(string, bool)> {
    if log == [] then []
    else
      var n := |log| - 1;
      ToolTraceOf(env, log[..n]) + ToolsOf(log[n], StageAfter(env, log))
  }

  lemma TraceGrows(env: Env, log: seq<Entry>, e: Entry)
    ensures Cost(env.pricing, log + [e])
         == Cost(env.pricing, log) + (if e.Call? then ReplyCost(env.pricing, e.reply) else 0.0)
    ensures CountCalls(log + [e]) == CountCalls(log) + (if e.Call? then 1 else 0)
    ensures CountArtifacts(log + [e]) == CountArtifacts(log) + (if IsArtifact(e) then 1 else 0)
    ensures CountRounds(log + [e]) == CountRounds(log) + (if e.Refused? || IsExecution(e) then 1 else 0)
    ensures ToolTraceOf(env, log + [e]) == ToolTraceOf(env, log) + ToolsOf(e, StageAfter(env, log + [e]))
    ensures StageAfter(env, log).Some? ==>
              StageAfter(env, log + [e])
              == Follow(env, Entered(env, StageAfter(env, log).value, Cost(env.pricing, log)), TallyOf(env, log), e)
  {
    assert (log + [e])[..|log|] == log;
  }

  /** The counters of the run are those of its trace, which is one that a run may leave. */
  ghost predicate Tied(env: Env, s: State) {
    && s.spent == Cost(env.pricing, s.log) && s.calls == CountCalls(s.log) && s.writes == CountArtifacts(s.log)
    && s.toolTrace == ToolTraceOf(env, s.log) && StageAfter(env, s.log).Some?
  }

  /** And the trace stands at `stage`. */
  ghost predicate At(env: Env, s: State, stage: Stage) {
    Tied(env, s) && Entered(env, StageAfter(env, s.log).value, s.spent) == stage
  }

  ghost predicate Unfinished(s: State) {
    s.error.None? && (s.status.Running? || s.status.PartialBudgetOverdraw?)
  }

  ghost predicate AtProgress(env: Env, s: State, n: nat, reason: Option<string>, progress: Progress) {
    At(env, s, Executing(n, reason, s.status.PartialBudgetOverdraw?, s.result, progress)) && Unfinished(s)
  }

  /** An attempt is being executed. */
  ghost predicate Ready(env: Env, s: State, n: nat, reason: Option<string>, local: Local) {
    && AtProgress(env, s, n, reason, Going(local.trace, local.usedTools, local.recoveries))
    && s.iteration == CountRounds(s.log)
  }

  /** An execution has come to its end. */
  ghost predicate Executed(env: Env, s: State, n: nat, reason: Option<string>, r: Result<string, string>) {
    match r
    case Ok(text) => AtProgress(env, s, n, reason, Answered(text)) && s.iteration == CountRounds(s.log)
    case Err(e) =>
      || AtProgress(env, s, n, reason, CallFailed(e))
      || (CountRounds(s.log) >= MAX_EXECUTION_ITERATIONS && e == ITERATION_LIMIT_ERROR
          && exists local: Local ::
               AtProgress(env, s, n, reason, Going(local.trace, local.usedTools, local.recoveries)))
  }

  /** One entry was added to the trace, and its cost to the money spent. */
  ghost predicate Logged(env: Env, s: State, s': State, e: Entry) {
    && s'.log == s.log + [e] && s'.error == s.error
    && s'.spent == s.spent + (if e.Call? then ReplyCost(env.pricing, e.reply) else 0.0)
    && s'.calls == s.calls + (if e.Call? then 1 else 0) && s'.writes == s.writes + (if IsArtifact(e) then 1 else 0)
  }

  /** The entry is the next one of the trace. */
  lemma EntryLeadsTo(env: Env, s: State, s': State, stage: Stage, e: Entry)
    requires At(env, s, stage) && Logged(env, s, s', e)
    requires Follow(env, stage, TallyOf(env, s.log), e).Some?
    requires s'.toolTrace == s.toolTrace + ToolsOf(e, Follow(env, stage, TallyOf(env, s.log), e))
    ensures Tied(env, s') && StageAfter(env, s'.log) == Follow(env, stage, TallyOf(env, s.log), e)
    ensures At(env, s', Entered(env, Follow(env, stage, TallyOf(env, s.log), e).value, s'.spent))
    ensures CountRounds(s'.log) == CountRounds(s.log) + (if e.Refused? || IsExecution(e) then 1 else 0)
  {
    hide EstimateFromUsage, Follow, Entered, ToolsOf;
    TraceGrows(env, s.log, e);
  }

  lemma IterateRefuses(env: Env, s: State, n: nat, reason: Option<string>, local: Local)
    requires Ready(env, s, n, reason, local) && s.iteration < MAX_EXECUTION_ITERATIONS
    requires
      var (input, maxOutput) := env.executionTokens(s.iteration + 1);
      s.spent + EstimatePreflightCost(env.pricing, input, maxOutput) > env.Cap()
    ensures
      var (s', turn) := Iterate(env, s, reason, local);
      turn.Return? && turn.r.Ok? && Executed(env, s', n, reason, turn.r)
  {
    hide EstimateFromUsage, EstimatePreflightCost, ExhaustedText, ExecutionCap, StageAfter, Cost, CountCalls,
         CountRounds, CountArtifacts, ToolTraceOf;
    var (input, maxOutput) := env.executionTokens(s.iteration + 1);
    var s' := Iterate(env, s, reason, local).0;
    var stage := Executing(n, reason, s.status.PartialBudgetOverdraw?, s.result,
                           Going(local.trace, local.usedTools, local.recoveries));
    EntryLeadsTo(env, s, s', stage, Refused(input, maxOutput));
  }

  lemma IterateCalls(env: Env, s: State, n: nat, reason: Option<string>, local: Local)
    requires Ready(env, s, n, reason, local) && s.iteration < MAX_EXECUTION_ITERATIONS
    requires
      var (input, maxOutput) := env.executionTokens(s.iteration + 1);
      s.spent + EstimatePreflightCost(env.pricing, input, maxOutput) <= env.Cap()
    ensures
      var (s', turn) := Iterate(env, s, reason, local);
      match turn
      case Continue(next) => Ready(env, s', n, reason, next)
      case Return(r) => Executed(env, s', n, reason, r)
  {
    hide EstimateFromUsage, EstimatePreflightCost, ExecutionCap, StageAfter, Cost, CountCalls, CountRounds,
         CountArtifacts, ToolTraceOf;
    var (input, maxOutput) := env.executionTokens(s.iteration + 1);
    var s' := Iterate(env, s, reason, local).0;
    var stage := Executing(n, reason, s.status.PartialBudgetOverdraw?, s.result,
                           Going(local.trace, local.usedTools, local.recoveries));
    EntryLeadsTo(env, s, s', stage, Call(ExecutionChat(reason), input, maxOutput, env.chat(s.calls)));
  }

  lemma IterateFollows(env: Env, s: State, n: nat, reason: Option<string>, local: Local)
    requires Ready(env, s, n, reason, local)
    ensures
      var (s', turn) := Iterate(env, s, reason, local);
      match turn
      case Continue(next) => Ready(env, s', n, reason, next)
      case Return(r) => Executed(env, s', n, reason, r)
  {
    hide EstimateFromUsage, EstimatePreflightCost, ExecutionCap, StageAfter, Cost, CountCalls, CountRounds,
         CountArtifacts, ToolTraceOf;
    var (input, maxOutput) := env.executionTokens(s.iteration + 1);
    if s.iteration >= MAX_EXECUTION_ITERATIONS {
      assert AtProgress(env, Iterate(env, s, reason, local).0, n, reason,
                        Going(local.trace, local.usedTools, local.recoveries));
    } else if s.spent + EstimatePreflightCost(env.pricing, input, maxOutput) > env.Cap() {
      IterateRefuses(env, s, n, reason, local);
    } else {
      IterateCalls(env, s, n, reason, local);
    }
  }

  lemma {:induction false} LoopExecutes(env: Env, s: State, n: nat, reason: Option<string>, local: Local)
    requires Ready(env, s, n, reason, local)
    ensures
      var (s', r) := ExecutionLoop(env, s, reason, local);
      Executed(env, s', n, reason, r)
    decreases IterationsLeft(s)
  {
    hide Iterate, Ready, Executed;
    IterateFollows(env, s, n, reason, local);
    IterateAdvances(env, s, reason, local);
    var (s1, turn) := Iterate(env, s, reason, local);
    if turn.Continue? {
      LoopExecutes(env, s1, n, reason, turn.local);
    }
  }

  // ---- How attempts end ----

  ghost predicate Usable(result: Option<string>) {
    result.Some? ==> result.value != [] && Text.Trim(result.value) == result.value
  }

  /** The loop is over: the final status, result and error are what the end of the trace says. */
  ghost predicate Ended(env: Env, s: State) {
    && Tied(env, s)
    && match StageAfter(env, s.log).value
       case Passed(_, text) => s.status.Done? && s.result == Some(text) && s.error.None?
       case Broken(_, error, kept) => s.status.Failed? && s.result == kept && s.error == Some(error)
       case Returned(n, why, _, prefix, kept) =>
         && s.result == kept
         && if n > env.maxRetries then s.status.Failed? && s.error == Some(prefix + why)
            else s.spent >= env.Cap() && s.status.PartialBudgetOverdraw? && s.error.None?
       case _ => false
  }

  /** The run was stopped by a failed write of an artifact, or by a failed query for the deliverable. */
  ghost predicate Aborted(env: Env, s: State, error: string) {
    && StageAfter(env, s.log).Some?
    && (|| env.store(CountArtifacts(s.log)) == Some(error)
        || env.deliverable(Entered(env, StageAfter(env, s.log).value, Cost(env.pricing, s.log)).n)
           == QueryFailed(error))
    && s.spent == Cost(env.pricing, s.log) && s.calls == CountCalls(s.log) && s.toolTrace == ToolTraceOf(env, s.log)
  }

  /** What the next step of the loop finds. */
  ghost predicate Outcome(env: Env, s: State, n: nat, next: Next) {
    && Usable(s.result)
    && match next
       case Again(why) => Ready(env, s, n + 1, Some(why), FIRST_LOCAL)
       case Finish => Ended(env, s)
       case Abort(error) => Aborted(env, s, error)
  }

  lemma RetryOutcome(env: Env, s: State, n: nat, why: string, prefix: string)
    requires n > 0 && Tied(env, s) && Usable(s.result) && Unfinished(s) && s.iteration == CountRounds(s.log)
    requires StageAfter(env, s.log) == Some(Returned(n, why, s.status.PartialBudgetOverdraw?, prefix, s.result))
    ensures Outcome(env, RetryOrGiveUp(env, s, n, why, prefix).0, n, RetryOrGiveUp(env, s, n, why, prefix).1)
  {
    hide EstimateFromUsage, StageAfter, Cost, CountCalls, CountRounds, CountArtifacts, ToolTraceOf, ExecutionCap;
  }

  /** Storing the artifact that comes next in the trace, or failing to. */
  lemma StoreLeadsTo(env: Env, s: State, stage: Stage, artifact: Entry)
    requires At(env, s, stage) && IsArtifact(artifact) && Follow(env, stage, TallyOf(env, s.log), artifact).Some?
    ensures
      var (s', error) := Store(env, s, artifact);
      if error.Some? then Aborted(env, s', error.value)
      else
        && Tied(env, s') && StageAfter(env, s'.log) == Follow(env, stage, TallyOf(env, s.log), artifact)
        && CountRounds(s'.log) == CountRounds(s.log)
  {
    hide EstimateFromUsage, StageAfter, Cost, CountCalls, CountRounds, CountArtifacts, ToolTraceOf, Follow, Entered;
    var (s', error) := Store(env, s, artifact);
    if error.None? {
      assert s.toolTrace + [] == s.toolTrace;
      EntryLeadsTo(env, s, s', stage, artifact);
    }
  }

  /** What does not change while a result is reviewed. */
  ghost predicate SameTask(s: State, s': State) {
    s'.status == s.status && s'.error == s.error && s'.result == s.result && s'.iteration == s.iteration
  }

  ghost predicate InReview(s: State, text: string) {
    Unfinished(s) && s.result == Some(text) && Usable(s.result) && s.iteration == CountRounds(s.log)
  }

  /** A review or a repair is asked for. */
  lemma ChatLeadsTo(env: Env, s: State, stage: Stage, purpose: Purpose, input: nat, maxOutput: nat)
    requires At(env, s, stage) && !purpose.ExecutionChat?
    requires Follow(env, stage, TallyOf(env, s.log), Call(purpose, input, maxOutput, env.chat(s.calls))).Some?
    ensures
      var (s', reply) := Chat(env, s, purpose, input, maxOutput);
      var e := Call(purpose, input, maxOutput, reply);
      && SameTask(s, s') && CountRounds(s'.log) == CountRounds(s.log)
      && At(env, s', Entered(env, Follow(env, stage, TallyOf(env, s.log), e).value, s'.spent))
  {
    hide EstimateFromUsage, StageAfter, Cost, CountCalls, CountRounds, CountArtifacts, ToolTraceOf, Follow, Entered;
    var s' := Chat(env, s, purpose, input, maxOutput).0;
    assert s.toolTrace + [] == s.toolTrace;
    EntryLeadsTo(env, s, s', stage, Call(purpose, input, maxOutput, env.chat(s.calls)));
  }

  /** What a review ends with, as its artifact says it. */
  function ReviewEntry(n: nat, verdict: Result<Verdict, string>): Entry {
    match verdict
    case Ok(Accept) => Reviewed(n, OkVerdict, None)
    case Ok(SendBack(reason)) => Reviewed(n, RetryVerdict, Some(reason))
    case Err(e) => Reviewed(n, ErrorVerdict, Some(e))
  }

  /** The trace of a review calls for the artifact of its verdict. */
  lemma ReviewLeadsTo(env: Env, s: State, n: nat, cut: bool, result: string) returns (stage: Stage)
    requires At(env, s, Reviewing(n, cut, result)) && s.iteration == CountRounds(s.log)
    ensures
      var (s', verdict) := ReviewResult(env, s, n, result);
      var e := ReviewEntry(n, verdict);
      && SameTask(s, s') && s'.iteration == CountRounds(s'.log) && At(env, s', stage)
      && Follow(env, stage, TallyOf(env, s'.log), e) == Concluded(n, cut, result, verdict, e)
  {
    hide EstimateFromUsage, EstimatePreflightCost, SanitizeTaskResult, StageAfter, Cost, ParseReviewVerdict,
         CountCalls, CountRounds, CountArtifacts, ToolTraceOf;
    stage := Reviewing(n, cut, result);
    if !env.CannotReview(n, s.spent) && SanitizeTaskResult(result).Accepted? {
      var input := env.reviewTokens(n);
      ChatLeadsTo(env, s, stage, ReviewChat, input, REVIEW_OUTPUT_TOKENS);
      var (s1, reply) := Chat(env, s, ReviewChat, input, REVIEW_OUTPUT_TOKENS);
      stage := Asked(n, cut, result, reply);
      if reply.Ok? && env.ParseVerdict(reply.value.text).None? {
        ChatLeadsTo(env, s1, stage, RepairChat, 0, 0);
        stage := Repaired(n, cut, result, Chat(env, s1, RepairChat, 0, 0).1);
      }
    }
  }

  lemma ReviewOutcome(env: Env, s: State, n: nat, result: string)
    requires n > 0 && At(env, s, Reviewing(n, s.status.PartialBudgetOverdraw?, result)) && InReview(s, result)
    ensures
      var r := ReviewAttempt(env, s, n, n - 1, result);
      Outcome(env, r.0, n, r.1)
  {
    hide EstimateFromUsage, ReviewResult, StageAfter, Cost, Follow, CountCalls, CountRounds, CountArtifacts,
         ToolTraceOf, TallyOf, RetryOrGiveUp;
    var cut := s.status.PartialBudgetOverdraw?;
    var stage := ReviewLeadsTo(env, s, n, cut, result);
    var (s1, verdict) := ReviewResult(env, s, n, result);
    var entry := ReviewEntry(n, verdict);
    StoreLeadsTo(env, s1, stage, entry);
    var (s2, error) := Store(env, s1, entry);
    if error.None? && verdict.Ok? && verdict.value.SendBack? {
      RetryOutcome(env, s2, n, verdict.value.reason, "REVIEW_REJECTED: ");
    }
  }

  lemma UnusableOutcome(
      env: Env, s: State, n: nat, reason: Option<string>, raw: string, status: AttemptStatus, text: string, why: string,
      prefix: string)
    requires n > 0 && Executed(env, s, n, reason, Ok(raw)) && Usable(s.result)
    requires
      var stage := Executing(n, reason, s.status.PartialBudgetOverdraw?, s.result, Answered(raw));
      FollowText(env, stage, raw, Attempt(n, status, Some(why), text))
      == Some(Returned(n, why, s.status.PartialBudgetOverdraw?, prefix, None))
    ensures
      var r := Unusable(env, s, n, n - 1, status, text, why, prefix);
      Outcome(env, r.0, n, r.1)
  {
    hide EstimateFromUsage, StageAfter, Cost, CountCalls, CountRounds, CountArtifacts, ToolTraceOf, FollowText, TallyOf,
         RetryOrGiveUp;
    var entry := Attempt(n, status, Some(why), text);
    var stage := Executing(n, reason, s.status.PartialBudgetOverdraw?, s.result, Answered(raw));
    StoreLeadsTo(env, s, stage, entry);
    var (s1, error) := Store(env, s, entry);
    if error.None? {
      RetryOutcome(env, s1.(result := None), n, why, prefix);
    }
  }

  lemma UseOutcome(env: Env, s: State, n: nat, reason: Option<string>, raw: string, text: string)
    requires n > 0 && Executed(env, s, n, reason, Ok(raw)) && Usable(s.result) && Usable(Some(text))
    requires SanitizeTaskResult(raw) == Accepted(text)
    ensures
      var r := UseResult(env, s, n, n - 1, text);
      Outcome(env, r.0, n, r.1)
  {
    hide EstimateFromUsage, StageAfter, Cost, ReviewAttempt, Unusable, SanitizeTaskResult, CountCalls, CountRounds,
         CountArtifacts, ToolTraceOf, TallyOf;
    var check := env.deliverable(n);
    var s1 := s.(deliverableFactId := if check.Found? then Some(check.factId) else None);
    if check.Missing? {
      UnusableOutcome(env, s1, n, reason, raw, MissingTerminalDeliverable, text, check.reason,
                      "MISSING_TERMINAL_DELIVERABLE: ");
    } else if !check.QueryFailed? {
      var entry := Attempt(n, AttemptLabel(s1), None, text);
      var stage := Executing(n, reason, s.status.PartialBudgetOverdraw?, s.result, Answered(raw));
      StoreLeadsTo(env, s1, stage, entry);
      var (s2, error) := Store(env, s1, entry);
      if error.None? {
        ReviewOutcome(env, s2.(result := Some(text)), n, text);
      }
    }
  }

  lemma ErrorOutcome(env: Env, s: State, n: nat, reason: Option<string>, why: string)
    requires Executed(env, s, n, reason, Err(why)) && Usable(s.result)
    ensures
      var (s1, error) := Store(env, s, Attempt(n, ExecutionError, Some(why), []));
      if error.Some? then Outcome(env, s1, n, Abort(error.value))
      else Outcome(env, s1.(status := Failed, error := Some(why)), n, Finish)
  {
    hide EstimateFromUsage, StageAfter, Cost, CountCalls, CountRounds, CountArtifacts, ToolTraceOf;
    var cut := s.status.PartialBudgetOverdraw?;
    var entry := Attempt(n, ExecutionError, Some(why), []);
    if AtProgress(env, s, n, reason, CallFailed(why)) {
      StoreLeadsTo(env, s, Executing(n, reason, cut, s.result, CallFailed(why)), entry);
    } else {
      var local: Local :| AtProgress(env, s, n, reason, Going(local.trace, local.usedTools, local.recoveries));
      var going := Going(local.trace, local.usedTools, local.recoveries);
      StoreLeadsTo(env, s, Executing(n, reason, cut, s.result, going), entry);
    }
  }

  lemma IterateKeepsResult(env: Env, s: State, reason: Option<string>, local: Local)
    ensures Iterate(env, s, reason, local).0.result == s.result
  {
  }

  lemma {:induction false} LoopKeepsResult(env: Env, s: State, reason: Option<string>, local: Local)
    ensures ExecutionLoop(env, s, reason, local).0.result == s.result
    decreases IterationsLeft(s)
  {
    hide Iterate;
    IterateKeepsResult(env, s, reason, local);
    IterateAdvances(env, s, reason, local);
    var (s1, turn) := Iterate(env, s, reason, local);
    if turn.Continue? {
      LoopKeepsResult(env, s1, reason, turn.local);
    }
  }

  lemma AttemptOutcome(env: Env, s: State, n: nat, reason: Option<string>)
    requires n > 0 && Ready(env, s, n, reason, FIRST_LOCAL) && Usable(s.result)
    ensures
      var r := RunAttempt(env, s, n, n - 1, reason);
      Outcome(env, r.0, n, r.1)
  {
    hide EstimateFromUsage, StageAfter, Cost, ExecutionLoop, SanitizeTaskResult, UseResult, Unusable, Store, Ready,
         Executed, Usable;
    LoopExecutes(env, s, n, reason, FIRST_LOCAL);
    LoopKeepsResult(env, s, reason, FIRST_LOCAL);
    var (s1, executed) := ExecutionLoop(env, s, reason, FIRST_LOCAL);
    match executed
    case Err(e) => ErrorOutcome(env, s1, n, reason, e);
    case Ok(text) =>
      match SanitizeTaskResult(text)
      case Rejected(why) =>
        UnusableOutcome(env, s1, n, reason, text, InvalidResult, [], why, "EXECUTION_RESULT_INVALID: ");
      case Accepted(sanitized) =>
        AcceptedIsUsable(text);
        UseOutcome(env, s1, n, reason, text, sanitized);
  }

  lemma AcceptedIsUsable(text: string)
    requires SanitizeTaskResult(text).Accepted?
    ensures Usable(Some(SanitizeTaskResult(text).text))
  {
    hide SanitizeTaskResult;
    AcceptedIsSuffix(text);
  }

  lemma {:induction false} AttemptsOutcome(env: Env, s: State, n: nat, reason: Option<string>)
    requires 0 < n <= env.maxRetries + 1 && Ready(env, s, n, reason, FIRST_LOCAL) && Usable(s.result)
    ensures
      var (s', error) := RunAttempts(env, s, n, n - 1, reason);
      Usable(s'.result) && if error.None? then Ended(env, s') else Aborted(env, s', error.value)
    decreases env.maxRetries + 1 - n
  {
    hide EstimateFromUsage, StageAfter, Cost, RunAttempt, Usable, Ready, Ended, Aborted;
    AttemptOutcome(env, s, n, reason);
    var (s1, next) := RunAttempt(env, s, n, n - 1, reason);
    if next.Again? {
      AttemptsOutcome(env, s1, n + 1, Some(next.reason));
    }
  }

  lemma InitiallyReady(env: Env)
    ensures Ready(env, INITIAL, 1, None, FIRST_LOCAL) && Usable(INITIAL.result)
  {
  }

  /**
   Whatever the model, the deliverable check and the artifact store do, the run is what its trace says.
   The n-th call of the trace has the n-th answer of the model; the money spent is the cost of the calls and
   the tool trace is that of their answers; the trace is that of numbered attempts with their reviews, each
   attempt being told why the one before it was sent back, and started only with a retry and execution
   budget left. If the loop ends by itself, status, result and error are those of the end of the trace;
   otherwise a write or a query failed.
   */
  lemma RunEndsWell(env: Env)
    ensures
      var (s, error) := Run(env);
      && s.spent == Cost(env.pricing, s.log) && StageAfter(env, s.log).Some?
      && s.toolTrace == ToolTraceOf(env, s.log) && s.calls == CountCalls(s.log)
      && (s.result.Some? ==> s.result.value != [] && Text.Trim(s.result.value) == s.result.value)
      && (if error.None? then Ended(env, s) && s.shellSpent == s.spent else Aborted(env, s, error.value))
      && (error.None? ==> (s.status.Done? <==> StageAfter(env, s.log).value.Passed?))
  {
    hide EstimateFromUsage, RunAttempts, StageAfter, Cost, CountCalls, CountArtifacts, ToolTraceOf;
    InitiallyReady(env);
    AttemptsOutcome(env, INITIAL, 1, None);
  }

  // ---- How long a run can get ----

  function CountExecutions(log: seq<Entry>): nat {
    if log == [] then 0
    else var n := |log| - 1; CountExecutions(log[..n]) + (if IsExecution(log[n]) then 1 else 0)
  }

  function CountAttempts(log: seq<Entry>): nat {
    if log == [] then 0
    else var n := |log| - 1; CountAttempts(log[..n]) + (if log[n].Attempt? then 1 else 0)
  }

  /** One artifact an attempt, at most one review and one repair call a review. */
  lemma {:induction false} TraceIsBounded(env: Env, log: seq<Entry>)
    requires StageAfter(env, log).Some?
    ensures
      var stage := StageAfter(env, log).value;
      && 0 < stage.n <= env.maxRetries + 1
      && CountAttempts(log) == (if stage.Executing? then stage.n - 1 else stage.n)
      && CountExecutions(log) <= CountRounds(log) <= MAX_EXECUTION_ITERATIONS
      && CountCalls(log) <= CountExecutions(log) + 2 * (stage.n - 1)
           + (if stage.Executing? || stage.Reviewing? then 0 else if stage.Asked? then 1 else 2)
  {
    hide EstimateFromUsage, EstimatePreflightCost, Cost, SanitizeTaskResult, ParseReviewVerdict, ExhaustedText,
         AfterAnswer;
    if log != [] {
      TraceIsBounded(env, log[..|log| - 1]);
    }
  }

  /** Whatever the model answers, a run makes at most `maxRetries` + 1 attempts, at most 32 execution
      calls in all of them together, and at most two more calls an attempt. */
  lemma RunIsBounded(env: Env)
    ensures
      var log := Run(env).0.log;
      && CountAttempts(log) <= env.maxRetries + 1
      && CountExecutions(log) <= MAX_EXECUTION_ITERATIONS
      && CountCalls(log) <= MAX_EXECUTION_ITERATIONS + 2 * (env.maxRetries + 1)
  {
    hide RunAttempts, StageAfter, Cost, Run;
    RunEndsWell(env);
    TraceIsBounded(env, Run(env).0.log);
  }

  // ---- Which done runs were reviewed ----

  /** The review and repair calls after the last attempt artifact. */
  function ReviewCalls(log: seq<Entry>): seq<Entry> {
    if log == [] || log[|log| - 1].Attempt? then []
    else
      var n := |log| - 1;
      ReviewCalls(log[..n]) + (if log[n].Call? && !log[n].purpose.ExecutionChat? then [log[n]] else [])
  }

  /** The money spent when the last attempt artifact was stored. */
  function SpentAtReview(p: Pricing, log: seq<Entry>): real {
    if log == [] then 0.0
    else if log[|log| - 1].Attempt? then Cost(p, log)
    else SpentAtReview(p, log[..|log| - 1])
  }

  /** The last of the calls was answered with a payload whose verdict is "ok". */
  ghost predicate LastAccepts(env: Env, calls: seq<Entry>) {
    && calls != [] && calls[|calls| - 1].Call? && calls[|calls| - 1].reply.Ok?
    && Accepts(PayloadOf(env.parseJson, calls[|calls| - 1].reply.value.text))
  }

  lemma ExecutionLeadsTo(env: Env, stage: Stage, t: Tally, e: Entry)
    requires stage.Executing? && FollowExecution(env, stage, t, e).Some?
    ensures
      var next := FollowExecution(env, stage, t, e).value;
      if next.Executing? then !IsArtifact(e) else e.Attempt? && (next.Reviewing? || next.Returned? || next.Broken?)
  {
    hide EstimatePreflightCost, SanitizeTaskResult, ExhaustedText, AfterAnswer, ExecutionCap;
  }

  /** What the stage of a trace tells about the review of its last attempt. */
  lemma {:induction false} TraceReview(env: Env, log: seq<Entry>)
    requires StageAfter(env, log).Some?
    ensures
      var stage, calls, spent := StageAfter(env, log).value, ReviewCalls(log), SpentAtReview(env.pricing, log);
      match stage
      case Reviewing(_, _, _) => calls == [] && spent == Cost(env.pricing, log)
      case Asked(n, _, _, reply) =>
        |calls| == 1 && calls[0].Call? && calls[0].reply == reply && !env.CannotReview(n, spent)
      case Repaired(n, _, _, reply) =>
        |calls| == 2 && calls[1].Call? && calls[1].reply == reply && !env.CannotReview(n, spent)
      case Passed(n, _) => if env.CannotReview(n, spent) then calls == [] else LastAccepts(env, calls)
      case _ => true
  {
    hide EstimateFromUsage, EstimatePreflightCost, SanitizeTaskResult, ReplyCost, ParseReviewVerdict, PayloadOf,
         FollowExecution, CountCalls, CountRounds;
    if log != [] {
      var n := |log| - 1;
      TraceReview(env, log[..n]);
      var before := Entered(env, StageAfter(env, log[..n]).value, Cost(env.pricing, log[..n]));
      if before.Executing? {
        ExecutionLeadsTo(env, before, TallyOf(env, log[..n]), log[n]);
      }
      if log[n].Reviewed? && ReviewCalls(log) != [] && ReviewCalls(log)[|ReviewCalls(log)| - 1].Call? {
        var reply := ReviewCalls(log)[|ReviewCalls(log)| - 1].reply;
        if reply.Ok? {
          VerdictIsOfPayload(env.parseJson, reply.value.text);
        }
      }
    }
  }

  /**
   A run that is done was not reviewed by any model if and only if the estimate of its last review
   exceeded the budget that was left; otherwise the last answer to that review has the verdict "ok".
   */
  lemma DoneRunsAreReviewedExactly(env: Env)
    ensures
      var (s, error) := Run(env);
      error.None? && s.status.Done? ==>
        var calls, n := ReviewCalls(s.log), CountAttempts(s.log);
        && (calls == [] <==> env.CannotReview(n, SpentAtReview(env.pricing, s.log)))
        && (calls != [] ==> LastAccepts(env, calls))
  {
    hide EstimateFromUsage, EstimatePreflightCost, Run, StageAfter, Cost, ReviewCalls, CountAttempts, SpentAtReview,
         CountCalls, CountArtifacts, ToolTraceOf;
    RunEndsWell(env);
    TraceIsBounded(env, Run(env).0.log);
    TraceReview(env, Run(env).0.log);
  }

  // ---- What a run can cost ----

  /** No execution or review call costs more than its estimate, and no repair more than `repair`. */
  ghost predicate Fits(env: Env, log: seq<Entry>, repair: real) {
    forall i | 0 <= i < |log| :: FitsEntry(env, log[i], repair)
  }

  ghost predicate FitsEntry(env: Env, e: Entry, repair: real) {
    e.Call? ==>
      ReplyCost(env.pricing, e.reply)
      <= if e.purpose.RepairChat? then repair else EstimatePreflightCost(env.pricing, e.input, e.maxOutput)
  }

  ghost predicate SoundBudget(env: Env) {
    env.budget >= 0.0 && 0.0 <= env.Cap() <= env.budget
  }

  /** How much may be spent at a stage. */
  function Limit(env: Env, stage: Stage, repair: real): real {
    match stage
    case Executing(_, _, _, _, _) => env.Cap()
    case Reviewing(_, _, _) => env.Cap()
    case Asked(_, _, _, _) => env.budget
    case _ => env.budget + repair
  }

  lemma {:induction false} TraceSpends(env: Env, log: seq<Entry>, repair: real)
    requires SoundBudget(env) && repair >= 0.0 && Fits(env, log, repair) && StageAfter(env, log).Some?
    ensures Cost(env.pricing, log) <= Limit(env, StageAfter(env, log).value, repair)
  {
    hide EstimateFromUsage, EstimatePreflightCost, SanitizeTaskResult, ParseReviewVerdict, ExhaustedText, AfterAnswer,
         CountCalls, CountRounds;
    if log != [] {
      var n := |log| - 1;
      TraceSpends(env, log[..n], repair);
      assert FitsEntry(env, log[n], repair);
    }
  }

  lemma CapIsSound(env: Env)
    requires env.budget >= 0.0 && 0.0 <= env.reserve <= 1.0
    ensures SoundBudget(env) && env.budget - env.Cap() == env.reserve * env.budget
  {
    assert env.budget * (1.0 - env.reserve) == env.budget - env.budget * env.reserve;
    assert 0.0 <= env.budget * env.reserve <= env.budget * 1.0;
  }

  predicate NoRepairs(log: seq<Entry>) {
    forall i | 0 <= i < |log| :: log[i].Call? ==> !log[i].purpose.RepairChat?
  }

  /** If no call but a repair costs more than its estimate, a run overspends its budget by one repair
      call at most, and not at all without one; and every review starts with the whole reserve. */
  lemma RunStaysInBudget(env: Env, repair: real)
    requires env.budget >= 0.0 && 0.0 <= env.reserve <= 1.0 && repair >= 0.0
    requires Fits(env, Run(env).0.log, repair)
    ensures
      var s := Run(env).0;
      && s.spent <= env.budget + repair
      && (NoRepairs(s.log) ==> s.spent <= env.budget)
      && (forall i | 0 <= i <= |s.log| && UnreviewedAt(env, s.log[..i]) ::
            env.budget - Cost(env.pricing, s.log[..i]) >= env.reserve * env.budget)
  {
    hide EstimateFromUsage, EstimatePreflightCost, Run, StageAfter, Cost, FitsEntry;
    var s := Run(env).0;
    CapIsSound(env);
    RunEndsWell(env);
    TraceSpends(env, s.log, repair);
    LimitIsSmall(env, StageAfter(env, s.log).value, repair);
    if NoRepairs(s.log) {
      FitsWithoutRepairs(env, s.log, repair);
      TraceSpends(env, s.log, 0.0);
      LimitIsSmall(env, StageAfter(env, s.log).value, 0.0);
    }
    forall i | 0 <= i <= |s.log| && UnreviewedAt(env, s.log[..i])
      ensures env.budget - Cost(env.pricing, s.log[..i]) >= env.reserve * env.budget
    {
      TraceSpends(env, s.log[..i], repair);
    }
  }

  /** A result is about to be reviewed. */
  predicate UnreviewedAt(env: Env, log: seq<Entry>) {
    match StageAfter(env, log)
    case Some(Reviewing(_, _, _)) => true
    case _ => false
  }

  lemma LimitIsSmall(env: Env, stage: Stage, repair: real)
    requires SoundBudget(env) && repair >= 0.0
    ensures Limit(env, stage, repair) <= env.budget + repair
  {
  }

  lemma FitsWithoutRepairs(env: Env, log: seq<Entry>, repair: real)
    requires Fits(env, log, repair) && NoRepairs(log)
    ensures Fits(env, log, 0.0)
  {
    forall i | 0 <= i < |log|
      ensures FitsEntry(env, log[i], 0.0)
    {
      assert FitsEntry(env, log[i], repair);
    }
  }

  /** The calls fit when they stay within their tokens and the cache is never dearer than plain input. */
  lemma TokensWithinEstimatesFit(env: Env, log: seq<Entry>, repair: real)
    requires env.pricing.Valid() && env.pricing.cacheRead <= env.pricing.input
    requires env.pricing.cacheWrite <= env.pricing.input && repair >= 0.0
    requires forall i | 0 <= i < |log| :: log[i].Call? && log[i].reply.Ok? ==>
               if log[i].purpose.RepairChat? then EstimateFromUsage(env.pricing, log[i].reply.value.usage) <= repair
               else Within(log[i].reply.value.usage, log[i].input, log[i].maxOutput)
    ensures Fits(env, log, repair)
  {
    hide EstimateFromUsage, EstimatePreflightCost;
    forall i | 0 <= i < |log|
      ensures FitsEntry(env, log[i], repair)
    {
      if log[i].Call? && !log[i].purpose.RepairChat? {
        var none := Usage(0, 0, 0, 0, 0);
        PreflightCovers(env.pricing, none, log[i].input, log[i].maxOutput);
        CostIsNonNegative(env.pricing, none);
        if log[i].reply.Ok? {
          PreflightCovers(env.pricing, log[i].reply.value.usage, log[i].input, log[i].maxOutput);
        }
      }
    }
  }

  // ---- A run that is done without a call ----

  lemma {:induction false} DecimalIsPlain(n: nat)
    ensures DecimalText(n) != [] && forall i | 0 <= i < |DecimalText(n)| :: '0' <= DecimalText(n)[i] <= '9'
  {
    if n >= 10 {
      DecimalIsPlain(n / 10);
    }
  }

  /** What decimal digits stand for. */
  function NumberOf(digits: string): int {
    if digits == [] then 0 else NumberOf(digits[..|digits| - 1]) * 10 + (digits[|digits| - 1] as int - 48)
  }

  /** The notice of exhaustion tells the iteration. */
  lemma {:induction false} DecimalTextTells(n: nat)
    ensures NumberOf(DecimalText(n)) == n
  {
    if n >= 10 {
      DecimalTextTells(n / 10);
      var front := DecimalText(n / 10);
      assert DecimalText(n)[..|front|] == front;
    } else {
      assert DecimalText(n)[..0] == [];
    }
  }

  /** The text of a run whose first request cannot be afforded. */
  function ExhaustedLine(iteration: nat): string {
    "(budget exhausted after " + DecimalText(iteration) + " iterations)"
  }

  lemma ExhaustedTextIsAccepted(iteration: nat)
    ensures SanitizeTaskResult(ExhaustedText(iteration, [])) == Accepted(ExhaustedLine(iteration))
  {
    hide SanitizeTaskResult;
    var start, digits, end := "(budget exhausted after ", DecimalText(iteration), " iterations)";
    var t := ExhaustedLine(iteration);
    DecimalIsPlain(iteration);
    assert t == start + digits + end;
    forall i | 0 <= i < |t|
      ensures t[i] != '\n' && !('A' <= t[i] <= 'Z')
    {
      assert i >= |start| + |digits| ==> t[i] == end[i - |start| - |digits|];
      assert |start| <= i < |start| + |digits| ==> t[i] == digits[i - |start|];
    }
    assert t[|t| - 1] == end[|end| - 1] == ')';
    LowerIsItself(t);
    ParenthesizedLineIsAccepted(t);
    assert ExhaustedText(iteration, []) == t + "\n";
  }

  /**
   An exhausted budget does not show in the final status: when neither the first execution nor its
   review can be afforded, the notice of exhaustion passes as the result, unreviewed, and the run is
   done although no model was ever called.
   */
  lemma ExhaustedRunIsDone(env: Env)
    requires EstimatePreflightCost(env.pricing, env.executionTokens(1).0, env.executionTokens(1).1) > env.Cap()
    requires EstimatePreflightCost(env.pricing, env.reviewTokens(1), REVIEW_OUTPUT_TOKENS) > env.budget
    requires env.deliverable(1).NotRequired? && env.store(0).None? && env.store(1).None?
    ensures Run(env).1.None? && Run(env).0.status.Done?
    ensures Run(env).0.result == Some(ExhaustedLine(1)) && Run(env).0.spent == 0.0
    ensures
      var (input, maxOutput) := env.executionTokens(1);
      Run(env).0.log
      == [Refused(input, maxOutput), Attempt(1, CutShort, None, ExhaustedLine(1)), Reviewed(1, OkVerdict, None)]
  {
    hide EstimatePreflightCost, SanitizeTaskResult, ExhaustedText, ExhaustedLine;
    ExhaustedTextIsAccepted(1);
    var (input, maxOutput) := env.executionTokens(1);
    var refused := Refused(input, maxOutput);
    var s1 := INITIAL.(iteration := 1, status := PartialBudgetOverdraw, log := [refused]);
    assert INITIAL.log + [refused] == [refused];
    assert Iterate(env, INITIAL, None, FIRST_LOCAL) == (s1, Return(Ok(ExhaustedText(1, []))));
    assert ExecutionLoop(env, INITIAL, None, FIRST_LOCAL) == (s1, Ok(ExhaustedText(1, [])));
    assert RunAttempt(env, INITIAL, 1, 0, None) == UseResult(env, s1, 1, 0, ExhaustedLine(1));
  }
}
