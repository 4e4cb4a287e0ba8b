/**
 The loops of a task run as the agent executes them (src/agent/run.rs), over the mutable state of
 the run and its budget. Every method does what the function of the same purpose in `TaskRun` says.
 */
module TaskRunner {
  import opened Wrappers
  import opened Budget
  import opened Sanitizer
  import opened TaskRun
  import opened TaskStatus
  import opened Verdicts

  class TaskRunner {
    const env: Env
    const budget: BudgetController
    var status: Status
    var result: Option<string>
    var error: Option<string>
    var iteration: nat
    var shellSpent: real
    var toolTrace: seq<(string, bool)>
    var deliverableFactId: Option<string>
    var calls: nat
    var writes: nat
    ghost var log: seq<Entry>

    ghost predicate Valid() {
      budget.budget == env.budget && budget.reviewReserve == env.reserve
    }

    ghost function Now(): State
      reads this, budget
    {
      State(status, result, error, iteration, budget.spent, shellSpent, toolTrace, deliverableFactId,
            calls, writes, log)
    }

    constructor (env: Env)
      ensures Valid() && Now() == INITIAL && this.env == env && fresh(budget)
    {
      this.env := env;
      budget := new BudgetController(env.budget, env.reserve);
      status, result, error, iteration, shellSpent := Running, None, None, 0, 0.0;
      toolTrace, deliverableFactId, calls, writes, log := [], None, 0, 0, [];
    }

    /** A model call, charged when it is answered. */
    method Chat(purpose: Purpose, input: nat, maxOutput: nat) returns (reply: Result<Reply, string>)
      requires Valid()
      modifies this`calls, this`log, budget
      ensures (Now(), reply) == TaskRun.Chat(env, old(Now()), purpose, input, maxOutput)
    {
      hide EstimateFromUsage;
      reply := env.chat(calls);
      calls := calls + 1;
      log := log + [Call(purpose, input, maxOutput, reply)];
      if reply.Ok? {
        budget.Charge(EstimateFromUsage(env.pricing, reply.value.usage));
      }
    }

    method Store(artifact: Entry) returns (failure: Option<string>)
      modifies this`writes, this`log
      ensures (Now(), failure) == TaskRun.Store(env, old(Now()), artifact)
    {
      failure := env.store(writes);
      writes := writes + 1;
      if failure.None? {
        log := log + [artifact];
      }
    }

    /** One round of the execution loop. */
    method Iterate(reason: Option<string>, local: Local) returns (turn: Turn)
      requires Valid()
      modifies this, budget
      ensures (Now(), turn) == TaskRun.Iterate(env, old(Now()), reason, local)
    {
      hide EstimateFromUsage, EstimatePreflightCost, ExhaustedText, ReplyCost, NeedsRecovery, ExecutionCap,
           TaskRun.Chat;
      iteration := iteration + 1;
      if iteration > MAX_EXECUTION_ITERATIONS {
        return Return(Err(ITERATION_LIMIT_ERROR));
      }
      var (input, maxOutput) := env.executionTokens(iteration);
      var affordable := budget.CanAfford(EstimatePreflightCost(env.pricing, input, maxOutput), Phase.Execution);
      if !affordable {
        status := PartialBudgetOverdraw;
        log := log + [Refused(input, maxOutput)];
        return Return(Ok(ExhaustedText(iteration, local.trace)));
      }
      var reply := Chat(ExecutionChat(reason), input, maxOutput);
      if reply.Err? {
        return Return(Err(reply.error));
      }
      shellSpent := budget.spent;
      var answer := reply.value;
      if answer.toolCalls != [] {
        var trace := RecordTools(answer.toolCalls, local.trace);
        return Continue(Local(trace, true, local.recoveries));
      }
      if !NeedsRecovery(local, answer) {
        return Return(Ok(answer.text));
      }
      toolTrace := toolTrace + EMPTY_OUTPUT_ENTRIES;
      return Continue(Local(local.trace + [EMPTY_OUTPUT_LINE], true, local.recoveries + 1));
    }

    method ExecutionLoop(reason: Option<string>) returns (r: Result<string, string>)
      requires Valid()
      modifies this, budget
      ensures (Now(), r) == TaskRun.ExecutionLoop(env, old(Now()), reason, FIRST_LOCAL)
    {
      hide TaskRun.Iterate;
      var local := FIRST_LOCAL;
      while true
        invariant TaskRun.ExecutionLoop(env, old(Now()), reason, FIRST_LOCAL)
               == TaskRun.ExecutionLoop(env, Now(), reason, local)
        decreases IterationsLeft(Now())
      {
        IterateAdvances(env, Now(), reason, local);
        var turn := Iterate(reason, local);
        if turn.Return? {
          return turn.r;
        }
        local := turn.local;
      }
    }

    method RecordTools(toolCalls: seq<ToolCall>, before: seq<string>) returns (trace: seq<string>)
      modifies this`toolTrace
      ensures trace == before + ToolLines(toolCalls)
      ensures toolTrace == old(toolTrace) + ToolEntries(toolCalls)
    {
      trace := before;
      for i := 0 to |toolCalls|
        invariant trace + ToolLines(toolCalls[i..]) == before + ToolLines(toolCalls)
        invariant toolTrace + ToolEntries(toolCalls[i..]) == old(toolTrace) + ToolEntries(toolCalls)
      {
        ghost var rest := toolCalls[i + 1..];
        assert toolCalls[i..][1..] == rest;
        assert trace + ([ToolLine(toolCalls[i])] + ToolLines(rest))
            == trace + [ToolLine(toolCalls[i])] + ToolLines(rest);
        trace := trace + [ToolLine(toolCalls[i])];
        toolTrace := toolTrace + [(toolCalls[i].name, toolCalls[i].success)];
      }
    }

    method Review(attempt: nat, text: string) returns (verdict: Result<Verdict, string>)
      requires Valid()
      modifies this`calls, this`log, budget
      ensures (Now(), verdict) == ReviewResult(env, old(Now()), attempt, text)
    {
      hide EstimateFromUsage, EstimatePreflightCost, SanitizeTaskResult, ExecutionCap, ParseReviewVerdict;
      var input := env.reviewTokens(attempt);
      var affordable := budget.CanAfford(EstimatePreflightCost(env.pricing, input, REVIEW_OUTPUT_TOKENS), Phase.Review);
      if !affordable {
        return Ok(Accept);
      }
      var sanitized := Sanitize(text);
      if sanitized.Rejected? {
        return Ok(SendBack(sanitized.reason));
      }
      var reply := Chat(ReviewChat, input, REVIEW_OUTPUT_TOKENS);
      if reply.Err? {
        return Err(reply.error);
      }
      var first := ReadVerdict(env.parseJson, reply.value.text);
      if first.Some? {
        return Ok(first.value);
      }
      var repair := Chat(RepairChat, 0, 0);
      if repair.Err? {
        return Err(repair.error);
      }
      var second := ReadVerdict(env.parseJson, repair.value.text);
      return if second.Some? then Ok(second.value) else Err(REPAIR_ERROR);
    }

    /** Decides about another attempt after one that was sent back. */
    method RetryOrGiveUp(retries: nat, reason: string, prefix: string) returns (next: Next)
      requires Valid()
      modifies this`status, this`error
      ensures (Now(), next) == TaskRun.RetryOrGiveUp(env, old(Now()), retries, reason, prefix)
    {
      hide ExecutionCap;
      if retries > env.maxRetries {
        status := Failed;
        error := Some(prefix + reason);
        return Finish;
      }
      var remaining := budget.ExecutionRemaining();
      if remaining <= 0.0 {
        status := PartialBudgetOverdraw;
        return Finish;
      }
      return Again(reason);
    }

    method GiveBack(
        attempt: nat, retries: nat, attemptStatus: AttemptStatus, text: string, reason: string, prefix: string)
      returns (next: Next)
      requires Valid()
      modifies this
      ensures (Now(), next) == Unusable(env, old(Now()), attempt, retries, attemptStatus, text, reason, prefix)
    {
      hide TaskRun.RetryOrGiveUp;
      var failure := Store(Attempt(attempt, attemptStatus, Some(reason), text));
      if failure.Some? {
        return Abort(failure.value);
      }
      result := None;
      next := RetryOrGiveUp(retries + 1, reason, prefix);
    }

    method ReviewAttempt(attempt: nat, retries: nat, text: string) returns (next: Next)
      requires Valid()
      modifies this, budget
      ensures (Now(), next) == TaskRun.ReviewAttempt(env, old(Now()), attempt, retries, text)
    {
      hide ReviewResult, TaskRun.RetryOrGiveUp;
      var failure: Option<string>;
      var verdict := Review(attempt, text);
      if verdict.Err? {
        failure := Store(Reviewed(attempt, ErrorVerdict, Some(verdict.error)));
        if failure.Some? {
          return Abort(failure.value);
        }
        status := Failed;
        error := Some("REVIEW_ERROR: " + verdict.error);
        return Finish;
      }
      match verdict.value {
        case Accept =>
          failure := Store(Reviewed(attempt, OkVerdict, None));
          if failure.Some? {
            return Abort(failure.value);
          }
          status := Done;
          return Finish;
        case SendBack(reason) =>
          failure := Store(Reviewed(attempt, RetryVerdict, Some(reason)));
          if failure.Some? {
            return Abort(failure.value);
          }
          next := RetryOrGiveUp(retries + 1, reason, "REVIEW_REJECTED: ");
      }
    }

    method UseResult(attempt: nat, retries: nat, text: string) returns (next: Next)
      requires Valid()
      modifies this, budget
      ensures (Now(), next) == TaskRun.UseResult(env, old(Now()), attempt, retries, text)
    {
      hide TaskRun.ReviewAttempt, Unusable;
      var check := env.deliverable(attempt);
      deliverableFactId := if check.Found? then Some(check.factId) else None;
      if check.QueryFailed? {
        return Abort(check.error);
      }
      if check.Missing? {
        next := GiveBack(attempt, retries, MissingTerminalDeliverable, text, check.reason,
                         "MISSING_TERMINAL_DELIVERABLE: ");
        return;
      }
      var failure := Store(Attempt(attempt, if status.PartialBudgetOverdraw? then CutShort else Completed, None, text));
      if failure.Some? {
        return Abort(failure.value);
      }
      result := Some(text);
      next := ReviewAttempt(attempt, retries, text);
    }

    method RunAttempt(attempt: nat, retries: nat, reason: Option<string>) returns (next: Next)
      requires Valid()
      modifies this, budget
      ensures (Now(), next) == TaskRun.RunAttempt(env, old(Now()), attempt, retries, reason)
    {
      hide TaskRun.ExecutionLoop, SanitizeTaskResult, TaskRun.UseResult, Unusable;
      var executed := ExecutionLoop(reason);
      if executed.Err? {
        var failure := Store(Attempt(attempt, ExecutionError, Some(executed.error), []));
        if failure.Some? {
          return Abort(failure.value);
        }
        status := Failed;
        error := Some(executed.error);
        return Finish;
      }
      var sanitized := Sanitize(executed.value);
      if sanitized.Rejected? {
        next := GiveBack(attempt, retries, InvalidResult, [], sanitized.reason, "EXECUTION_RESULT_INVALID: ");
      } else {
        next := UseResult(attempt, retries, sanitized.text);
      }
    }

    /** The retry loop of the run; an error is one that ends the run without a result. */
    method Run() returns (aborted: Option<string>)
      requires Valid() && Now() == INITIAL
      modifies this, budget
      ensures (Now(), aborted) == TaskRun.Run(env)
    {
      hide TaskRun.RunAttempt;
      var attempt, retries, reason := 0, 0, None;
      while true
        invariant attempt == retries <= env.maxRetries
        invariant RunAttempts(env, INITIAL, 1, 0, None) == RunAttempts(env, Now(), attempt + 1, retries, reason)
        decreases env.maxRetries - retries
      {
        attempt := attempt + 1;
        var next := RunAttempt(attempt, retries, reason);
        match next {
          case Again(why) =>
            retries := retries + 1;
            reason := Some(why);
          case Finish =>
            shellSpent := budget.spent;
            return None;
          case Abort(e) =>
            return Some(e);
        }
      }
    }
  }
}
