/** A whole run of the agent: the task run followed by the persistence of its outcome. */
module AgentRun {
  import opened Wrappers
  import opened Budget
  import opened Sanitizer
  import opened TaskStatus
  import R = TaskRun
  import P = Persistence
  import V = Readers
  import A = Agreement

  function OutcomeOf(s: R.State, deliverableRequired: bool, localCli: bool): P.Outcome {
    P.Outcome(s.status, s.result, deliverableRequired, localCli)
  }

  /** A run that leaves its loop always ends with a status that can be persisted. */
  lemma EndedIsTerminal(env: R.Env)
    requires R.Run(env).1.None?
    ensures P.Terminal(R.Run(env).0.status)
    ensures R.Run(env).0.status.Done? ==> R.Run(env).0.result.Some?
  {
    hide R.Run, R.StageAfter, R.Cost;
    R.RunEndsWell(env);
  }

  /** Whenever the last attempt to persist succeeded, the status that a run of a fresh task returns is the one
      every later reader sees. */
  lemma ReturnedStatusIsRead(
      env: R.Env, memory: P.MemoryEnv, m: P.Memory, deliverableRequired: bool, localCli: bool, later: seq<P.Seen>)
    requires P.Fresh(m)
    ensures
      var (s, aborted) := R.Run(env);
      var (m', returned, persisted) := P.FinishRun(memory, m, OutcomeOf(s, deliverableRequired, localCli));
      aborted.None? && persisted ==> P.StatusAt(P.LookAll(m', later), P.LookAll(m', later).seen) == returned
  {
    hide R.Run, P.LookAll, P.FinishRun, P.StatusAt;
    if R.Run(env).1.None? {
      EndedIsTerminal(env);
      P.FinishedRunsAgree(memory, m, OutcomeOf(R.Run(env).0, deliverableRequired, localCli), later);
    }
  }

  // ---- The deliverable that a run found ----

  /** Memory as a run of a fresh task leaves it: the deliverable is checked exactly if an external program has to
      write it, and one that was found is there. */
  ghost predicate LeftBy(env: R.Env, m: P.Memory, deliverableRequired: bool, localCli: bool) {
    && P.Fresh(m)
    && (forall n: nat :: env.deliverable(n).NotRequired? <==> !(deliverableRequired && localCli))
    && (R.Run(env).0.deliverableFactId.Some? ==> m.deliverables > 0)
  }

  predicate Backed(s: R.State) {
    s.result.Some? ==> s.deliverableFactId.Some?
  }

  lemma {:induction false} LoopKeepsBacked(env: R.Env, s: R.State, reason: Option<string>, local: R.Local)
    ensures R.ExecutionLoop(env, s, reason, local).0.result == s.result
    ensures R.ExecutionLoop(env, s, reason, local).0.deliverableFactId == s.deliverableFactId
    decreases R.IterationsLeft(s)
  {
    R.IterateAdvances(env, s, reason, local);
    IterateKeepsDeliverable(env, s, reason, local);
    hide R.Iterate;
    var (s1, turn) := R.Iterate(env, s, reason, local);
    if turn.Continue? {
      LoopKeepsBacked(env, s1, reason, turn.local);
    }
  }

  lemma IterateKeepsDeliverable(env: R.Env, s: R.State, reason: Option<string>, local: R.Local)
    ensures R.Iterate(env, s, reason, local).0.result == s.result
    ensures R.Iterate(env, s, reason, local).0.deliverableFactId == s.deliverableFactId
  {
    hide R.NeedsRecovery, R.ExhaustedText;
  }

  lemma ReviewKeepsDeliverable(env: R.Env, s: R.State, n: nat, result: string)
    ensures R.ReviewResult(env, s, n, result).0.result == s.result
    ensures R.ReviewResult(env, s, n, result).0.deliverableFactId == s.deliverableFactId
  {
    hide SanitizeTaskResult;
  }

  lemma AttemptKeepsBacked(env: R.Env, s: R.State, n: nat, retries: nat, reason: Option<string>)
    requires Backed(s) && !env.deliverable(n).NotRequired?
    ensures !R.RunAttempt(env, s, n, retries, reason).1.Abort? ==> Backed(R.RunAttempt(env, s, n, retries, reason).0)
  {
    hide SanitizeTaskResult, R.ExecutionLoop, R.ReviewResult;
    LoopKeepsBacked(env, s, reason, R.FIRST_LOCAL);
    var (s1, executed) := R.ExecutionLoop(env, s, reason, R.FIRST_LOCAL);
    if executed.Ok? && SanitizeTaskResult(executed.value).Accepted? {
      var text, check := SanitizeTaskResult(executed.value).text, env.deliverable(n);
      var s2 := s1.(deliverableFactId := if check.Found? then Some(check.factId) else None);
      var (s3, _) := R.Store(env, s2, R.Attempt(n, R.AttemptLabel(s2), None, text));
      ReviewKeepsDeliverable(env, s3.(result := Some(text)), n, text);
    }
  }

  lemma {:induction false} AttemptsKeepBacked(env: R.Env, s: R.State, n: nat, retries: nat, reason: Option<string>)
    requires Backed(s) && forall k: nat :: !env.deliverable(k).NotRequired?
    ensures
      var (s', error) := R.RunAttempts(env, s, n, retries, reason);
      error.None? ==> Backed(s')
    decreases if retries <= env.maxRetries then env.maxRetries - retries else 0
  {
    hide R.RunAttempt, Backed;
    AttemptKeepsBacked(env, s, n, retries, reason);
    var (s1, next) := R.RunAttempt(env, s, n, retries, reason);
    if next.Again? {
      AttemptsKeepBacked(env, s1, n + 1, retries + 1, Some(next.reason));
    }
  }

  /**
   What a run ends with can be persisted, in some environment that lists versions at all, if and only if
   its result, should there be one, survives being sanitized once more. A missing deliverable is never in
   the way, as a run keeps no result without the deliverable that an external program had to write.
   */
  lemma RunCanBePersistedExactly(
      env: R.Env, m: P.Memory, deliverableRequired: bool, localCli: bool, depth: nat)
    requires R.Run(env).1.None? && LeftBy(env, m, deliverableRequired, localCli) && depth > 0
    ensures
      var s := R.Run(env).0;
      (s.result.Some? ==> SanitizeTaskResult(s.result.value).Accepted?) <==>
      exists memory: P.MemoryEnv :: memory.depth == depth
        && var (_, returned, persisted) := P.FinishRun(memory, m, OutcomeOf(s, deliverableRequired, localCli));
           persisted && returned == s.status
  {
    hide R.RunAttempts, P.PersistResults, SanitizeTaskResult, P.Coherent;
    var s := R.Run(env).0;
    var o := OutcomeOf(s, deliverableRequired, localCli);
    EndedIsTerminal(env);
    P.FreshIsCoherent(m, false);
    A.CanBePersistedExactly(depth, m, o);
    if deliverableRequired && localCli {
      AttemptsKeepBacked(env, R.INITIAL, 1, 0, None);
    }
    assert forall memory: P.MemoryEnv ::
      P.PersistResults(memory, m, o).1 <==>
      P.FinishRun(memory, m, o).2 && P.FinishRun(memory, m, o).1 == s.status;
  }

  /** A done result was either sanitized for its review, or there was no review call. */
  ghost predicate ReviewedIsSanitized(s: R.State) {
    s.status.Done? && s.result.Some? ==> R.ReviewCalls(s.log) == [] || SanitizeTaskResult(s.result.value).Accepted?
  }

  lemma LoopIsNotDone(env: R.Env, s: R.State, reason: Option<string>, local: R.Local)
    requires !s.status.Done?
    ensures !R.ExecutionLoop(env, s, reason, local).0.status.Done?
    decreases R.IterationsLeft(s)
  {
    hide R.NeedsRecovery, R.ExhaustedText;
    R.IterateAdvances(env, s, reason, local);
    var (s1, turn) := R.Iterate(env, s, reason, local);
    if turn.Continue? {
      LoopIsNotDone(env, s1, reason, turn.local);
    }
  }

  lemma NothingAsked(log: seq<R.Entry>, n: nat, status: R.AttemptStatus, text: string, review: R.Entry)
    requires review.Reviewed?
    ensures R.ReviewCalls(log + [R.Attempt(n, status, None, text)] + [review]) == []
  {
    var attempted := log + [R.Attempt(n, status, None, text)];
    assert (attempted + [review])[..|attempted|] == attempted;
  }

  lemma AttemptIsSanitized(env: R.Env, s: R.State, n: nat, retries: nat, reason: Option<string>)
    requires !s.status.Done?
    ensures
      var (s', next) := R.RunAttempt(env, s, n, retries, reason);
      ReviewedIsSanitized(s') && (next.Again? ==> !s'.status.Done?)
  {
    hide SanitizeTaskResult, R.ExecutionLoop, R.ReviewCalls;
    LoopIsNotDone(env, s, reason, R.FIRST_LOCAL);
    var (s1, executed) := R.ExecutionLoop(env, s, reason, R.FIRST_LOCAL);
    if executed.Ok? && SanitizeTaskResult(executed.value).Accepted? {
      var text, check := SanitizeTaskResult(executed.value).text, env.deliverable(n);
      var s2 := s1.(deliverableFactId := if check.Found? then Some(check.factId) else None);
      NothingAsked(s1.log, n, R.AttemptLabel(s2), text, R.Reviewed(n, R.OkVerdict, None));
      if check.NotRequired? || check.Found? {
        var (s3, error) := R.Store(env, s2, R.Attempt(n, R.AttemptLabel(s2), None, text));
        if error.None? {
          ReviewIsSanitized(env, s1.log, s3.(result := Some(text)), n, retries, text);
        }
      }
    }
  }

  lemma ReviewIsSanitized(env: R.Env, log: seq<R.Entry>, s: R.State, n: nat, retries: nat, text: string)
    requires !s.status.Done? && s.result == Some(text)
    requires R.ReviewCalls(s.log + [R.Reviewed(n, R.OkVerdict, None)]) == []
    ensures
      var (s', next) := R.ReviewAttempt(env, s, n, retries, text);
      ReviewedIsSanitized(s') && (next.Again? ==> !s'.status.Done?)
  {
    hide SanitizeTaskResult, R.ReviewCalls;
  }

  lemma {:induction false} AttemptsAreSanitized(
      env: R.Env, s: R.State, n: nat, retries: nat, reason: Option<string>)
    requires !s.status.Done?
    ensures ReviewedIsSanitized(R.RunAttempts(env, s, n, retries, reason).0)
    decreases if retries <= env.maxRetries then env.maxRetries - retries else 0
  {
    hide R.RunAttempt, ReviewedIsSanitized;
    AttemptIsSanitized(env, s, n, retries, reason);
    var (s1, next) := R.RunAttempt(env, s, n, retries, reason);
    if next.Again? {
      AttemptsAreSanitized(env, s1, n + 1, retries + 1, Some(next.reason));
    }
  }

  /** So a done run whose last review asked a model can be persisted as done. */
  lemma ReviewedRunsCanBePersisted(env: R.Env, m: P.Memory, deliverableRequired: bool, localCli: bool, depth: nat)
    requires R.Run(env).1.None? && LeftBy(env, m, deliverableRequired, localCli) && depth > 0
    requires R.Run(env).0.status.Done? && R.ReviewCalls(R.Run(env).0.log) != []
    ensures
      exists memory: P.MemoryEnv :: memory.depth == depth
        && var (_, returned, persisted) :=
             P.FinishRun(memory, m, OutcomeOf(R.Run(env).0, deliverableRequired, localCli));
           persisted && returned.Done?
  {
    hide R.RunAttempts, P.FinishRun, SanitizeTaskResult, LeftBy;
    AttemptsAreSanitized(env, R.INITIAL, 1, 0, None);
    RunCanBePersistedExactly(env, m, deliverableRequired, localCli, depth);
  }

  /**
   Without a review call it may be out of reach: when the model answers at once and its answer is marked, but the
   review cannot be afforded, the run is done with a result that is refused when it is sanitized again. In
   every environment both attempts to persist it fail, and it is returned as failed.
   */
  lemma UnreviewedRunCanBeLost(
      env: R.Env, usage: Usage, memory: P.MemoryEnv, m: P.Memory, deliverableRequired: bool, localCli: bool)
    requires P.Fresh(m)
    requires env.chat(0) == Ok(R.Reply("answer:<analysis>x", [], usage))
    requires EstimatePreflightCost(env.pricing, env.executionTokens(1).0, env.executionTokens(1).1) <= env.Cap()
    requires env.CannotReview(1, EstimateFromUsage(env.pricing, usage))
    requires (env.deliverable(1).NotRequired? || env.deliverable(1).Found?) && env.store(0).None? && env.store(1).None?
    ensures R.Run(env).1.None? && R.Run(env).0.status.Done? && R.Run(env).0.result == Some("<analysis>x")
    ensures P.FinishRun(memory, m, OutcomeOf(R.Run(env).0, deliverableRequired, localCli)) == (m, Failed, false)
  {
    hide EstimatePreflightCost, EstimateFromUsage, SanitizeTaskResult, P.PersistWithResult;
    var text, answer := "answer:<analysis>x", "<analysis>x";
    AcceptedOnceRefusedTwice(text, answer);
    var (input, maxOutput) := env.executionTokens(1);
    var cost := EstimateFromUsage(env.pricing, usage);
    var call := R.Call(R.ExecutionChat(None), input, maxOutput, env.chat(0));
    var s1 := R.INITIAL.(iteration := 1, spent := cost, shellSpent := cost, calls := 1, log := [call]);
    assert R.INITIAL.log + [call] == [call];
    assert R.Iterate(env, R.INITIAL, None, R.FIRST_LOCAL) == (s1, R.Return(Ok(text)));
    assert R.ExecutionLoop(env, R.INITIAL, None, R.FIRST_LOCAL) == (s1, Ok(text));
    assert R.RunAttempt(env, R.INITIAL, 1, 0, None) == R.UseResult(env, s1, 1, 0, answer);
  }

  // ---- What a reader's "done" means ----

  lemma DoneVersionsComeFromDone(memory: P.MemoryEnv, m: P.Memory, o: P.Outcome, i: nat)
    requires P.Fresh(m) && P.Terminal(o.status) && (o.status.Done? ==> o.result.Some?)
    requires
      var m' := P.FinishRun(memory, m, o).0;
      || (i < |m'.sessions| && m'.sessions[i].Done?)
      || (i < |m'.sessionCopies| && m'.sessionCopies[i].Done?)
    ensures o.status.Done?
  {
    hide P.PersistResults, P.Coherent, P.Verified;
    P.FreshIsCoherent(m, false);
    var p, v := P.PersistResultsStages(memory, m, false, o);
  }

  /** The last review of the run passed: the model's last answer to it has the verdict "ok", or, exactly if its
      estimate exceeded the budget left, nobody was asked. There is a result and no error. */
  ghost predicate PassedReview(env: R.Env, s: R.State) {
    && R.StageAfter(env, s.log).Some? && R.StageAfter(env, s.log).value.Passed?
    && (if env.CannotReview(R.CountAttempts(s.log), R.SpentAtReview(env.pricing, s.log))
        then R.ReviewCalls(s.log) == [] else R.LastAccepts(env, R.ReviewCalls(s.log)))
    && s.result.Some? && s.error.None?
  }

  lemma DoneRunsPassed(env: R.Env)
    ensures R.Run(env).1.None? && R.Run(env).0.status.Done? ==> PassedReview(env, R.Run(env).0)
  {
    hide R.Run, R.StageAfter, R.Cost, R.ReviewCalls, R.CountAttempts, R.SpentAtReview, R.LastAccepts;
    R.RunEndsWell(env);
    R.DoneRunsAreReviewedExactly(env);
    NoCallsNoVerdict(env);
  }

  lemma NoCallsNoVerdict(env: R.Env)
    ensures !R.LastAccepts(env, [])
  {
  }

  /** Wherever the queries of a reader fall before, during or after the persistence of a fresh task, it is told
      "done" only if the last review of the run passed. */
  lemma DoneMeansReviewed(
      env: R.Env, memory: P.MemoryEnv, m: P.Memory, deliverableRequired: bool, localCli: bool, later: seq<P.Seen>)
    requires P.Fresh(m)
    ensures
      var (s, aborted) := R.Run(env);
      var m' := V.FinishedMemory(memory, m, OutcomeOf(s, deliverableRequired, localCli), later);
      aborted.None? ==> forall q | P.InOrder(m', q) && P.Told(m', q).Done? :: PassedReview(env, s)
  {
    hide R.Run, V.FinishedMemory, P.Told, PassedReview;
    var (s, aborted) := R.Run(env);
    var o := OutcomeOf(s, deliverableRequired, localCli);
    var m' := V.FinishedMemory(memory, m, o, later);
    if q :| aborted.None? && P.InOrder(m', q) && P.Told(m', q).Done? {
      EndedIsTerminal(env);
      DoneReadComesFromDone(memory, m, o, later, q);
      DoneRunsPassed(env);
    }
  }

  lemma DoneReadComesFromDone(memory: P.MemoryEnv, m: P.Memory, o: P.Outcome, later: seq<P.Seen>, q: P.Reading)
    requires P.Fresh(m) && P.Terminal(o.status) && (o.status.Done? ==> o.result.Some?)
    requires
      var m' := V.FinishedMemory(memory, m, o, later);
      P.InOrder(m', q) && P.Told(m', q).Done?
    ensures o.status.Done?
  {
    hide P.FinishRun, P.Coherent, P.Told, P.LookAll;
    P.FreshIsCoherent(m, false);
    V.SplitReadSaysDoneExactly(memory, m, o, later, q);
    var m' := V.FinishedMemory(memory, m, o, later);
    P.LooksKeepVersions(P.FinishRun(memory, m, o).0, later);
    DoneVersionsComeFromDone(memory, m, o,
      if V.SessionFound(m', q).None? then m'.history[q.sessionCopy].sessionCopies - 1
      else m'.history[q.session].sessions - 1);
  }
}
