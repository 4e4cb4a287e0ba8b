/**
 What readers see whose two queries fall anywhere in the history of memory (`handle`,
 src/server/handlers/mcp/status.rs), and when a run that returns "failed" can be seen as done.
 */
module Readers {
  import opened Wrappers
  import opened Sanitizer
  import opened TaskStatus
  import opened Persistence
  import opened MemoryRuns

  // ---- Two queries ----

  /** Memory after the end of a run, and after any further moves of visibility. */
  function FinishedMemory(env: MemoryEnv, m: Memory, o: Outcome, later: seq<Seen>): Memory
    requires InBounds(m)
  {
    LookAll(FinishRun(env, m, o).0, later)
  }

  lemma FinishedIsCoherent(env: MemoryEnv, m: Memory, anchored: bool, o: Outcome, later: seq<Seen>)
    requires Coherent(m, anchored) && (o.status.Done? || anchored ==> o.result.Some?)
    ensures InBounds(m) && Coherent(FinishedMemory(env, m, o, later), anchored)
  {
    hide FinishRun, LookAll, Coherent;
    FinishRunIsCoherent(env, m, anchored, o);
    LookAllKeepsCoherent(FinishRun(env, m, o).0, anchored, later);
  }

  /** The newest session visible to a reader's query for it, and the newest copy of one to its last query. */
  function SessionFound(m: Memory, q: Reading): Option<Status>
    requires InOrder(m, q)
  {
    Newest(m.sessions, m.history[q.session].sessions)
  }

  function SessionCopyFound(m: Memory, q: Reading): Option<Status>
    requires InOrder(m, q)
  {
    Newest(m.sessionCopies, m.history[q.sessionCopy].sessionCopies)
  }

  predicate ResultFound(m: Memory, q: Reading)
    requires InOrder(m, q)
  {
    m.history[q.result].results > 0
  }

  predicate ResultCopyFound(m: Memory, q: Reading)
    requires InOrder(m, q)
  {
    m.history[q.resultCopy].resultCopies > 0
  }

  /** However the queries fall, a reader is told "done" exactly when a done session was found, and a result or
      its copy; or neither session nor result was, and the copy of a session that was found last says "done". */
  lemma SplitReadSaysDoneExactly(env: MemoryEnv, m: Memory, o: Outcome, later: seq<Seen>, q: Reading)
    requires Coherent(m, false) && (o.status.Done? ==> o.result.Some?) && InBounds(m)
    requires InOrder(FinishedMemory(env, m, o, later), q)
    ensures
      var m' := FinishedMemory(env, m, o, later);
      Told(m', q).Done? <==>
      || (SessionFound(m', q) == Some(Done) && (ResultFound(m', q) || ResultCopyFound(m', q)))
      || (SessionFound(m', q).None? && !ResultFound(m', q) && SessionCopyFound(m', q) == Some(Done))
  {
    hide FinishedMemory, Coherent;
    FinishedIsCoherent(env, m, false, o, later);
    var m' := FinishedMemory(env, m, o, later);
    HistoryInBounds(m', false, q.result);
    HistoryInBounds(m', false, q.session);
    HistoryIsMonotone(m', false, q.result, q.session);
  }

  /** For a fresh task that answer is true: memory said so at the reader's second query, or, when that came
      before there was any session, at its last. */
  lemma DoneReadsAreTrue(env: MemoryEnv, m: Memory, o: Outcome, later: seq<Seen>, q: Reading)
    requires Fresh(m) && (o.status.Done? ==> o.result.Some?)
    requires InOrder(FinishedMemory(env, m, o, later), q) && Told(FinishedMemory(env, m, o, later), q).Done?
    ensures
      var m' := FinishedMemory(env, m, o, later);
      StatusAt(m', m'.history[if SessionFound(m', q).None? then q.sessionCopy else q.session]).Done?
  {
    hide FinishedMemory, Coherent;
    FreshIsCoherent(m, false);
    SplitReadSaysDoneExactly(env, m, o, later, q);
    FinishedIsCoherent(env, m, false, o, later);
    var m' := FinishedMemory(env, m, o, later);
    HistoryInBounds(m', false, q.session);
    HistoryInBounds(m', false, q.sessionCopy);
    if SessionFound(m', q).None? {
      CopiesFollowSessions(env, m, o, later, q.sessionCopy);
    }
  }

  /** Where the copy of a done session is visible, so is the session. */
  lemma CopiesFollowSessions(env: MemoryEnv, m: Memory, o: Outcome, later: seq<Seen>, k: nat)
    requires Fresh(m) && (o.status.Done? ==> o.result.Some?)
    requires k < |FinishedMemory(env, m, o, later).history|
    requires
      var m' := FinishedMemory(env, m, o, later);
      Newest(m'.sessionCopies, m'.history[k].sessionCopies) == Some(Done)
    ensures
      var m' := FinishedMemory(env, m, o, later);
      Newest(m'.sessions, m'.history[k].sessions) == Some(Done)
  {
    hide PersistResults, LookAll, Coherent;
    FreshIsCoherent(m, false);
    var p, v := PersistResultsStages(env, m, false, o);
    var (m1, ok) := PersistResults(env, m, o);
    if !ok && o.status.Done? {
      var p', v' := PersistResultsStages(env, m1, false, o.(status := Failed));
    }
    LooksKeepVersions(FinishRun(env, m, o).0, later);
    assert ok && o.status.Done?;
    LookAllKeepsCoherent(m1, false, later);
    LooksAreLater(m1, later);
    var m' := LookAll(m1, later);
    HistoryInBounds(m', false, k);
    if k < |m1.history| {
      assert m1.history[k] == m'.history[k];
      HistoryIsMonotone(m1, false, k, |m1.history| - 1);
      assert false;
    }
    HistoryIsMonotone(m', false, |m1.history| - 1, k);
    assert m'.history[|m1.history| - 1] == m1.history[|m1.history| - 1];
    CoherentInBounds(m1, false);
    assert o.status != Running && m1.seen.sessions > p;
  }

  /** The first attempt at a done outcome, up to its deliverable: no session is done yet, and when it comes to the
      result, a required deliverable has been seen. */
  lemma DeliverableComesFirst(env: MemoryEnv, m: Memory, o: Outcome) returns (m1: Memory)
    requires Fresh(m) && o.status.Done? && o.result.Some? && o.deliverableRequired
    ensures InBounds(m1) && Later(m1, PersistResults(env, m, o).0) && !HasDone(m1.sessions) && m1.history != []
    ensures m1.history[|m1.history| - 1] == m1.seen
    ensures m1.seen.deliverables > 0 || !HasDone(PersistResults(env, m, o).0.sessions)
  {
    hide PersistVerified, ResolveDeliverable, PersistResult, PersistSession, SanitizeTaskResult, Coherent;
    FreshIsCoherent(m, false);
    m1 := m;
    if SanitizeTaskResult(o.result.value).Accepted? {
      PersistKeepsCoherent(env, m, false, SessionFact, Running, 1);
      var (a, anchored) := PersistVerified(env, m, SessionFact, Running, 1);
      RestIsLater(env, m, o);
      m1 := a;
      if anchored {
        ResolveKeepsCoherent(env, a, false, o);
        var (b, resolved) := ResolveDeliverable(env, a, o);
        m1 := b;
        if resolved {
          ResolvedIsSeen(env, a, o);
          FinalStepsAreLater(env, b, o.status);
        }
      }
    }
  }

  /** So wherever a done session of such an outcome is the newest visible one, a deliverable is visible. */
  lemma DoneShowsDeliverable(env: MemoryEnv, m: Memory, o: Outcome, later: seq<Seen>, k: nat)
    requires Fresh(m) && o.status.Done? && o.result.Some? && o.deliverableRequired
    requires k < |FinishedMemory(env, m, o, later).history|
    requires
      var m' := FinishedMemory(env, m, o, later);
      Newest(m'.sessions, m'.history[k].sessions) == Some(Done)
    ensures FinishedMemory(env, m, o, later).history[k].deliverables > 0
  {
    hide PersistResults, LookAll, Coherent, HasDone;
    FreshIsCoherent(m, false);
    var m1 := DeliverableComesFirst(env, m, o);
    var (m2, ok) := PersistResults(env, m, o);
    var m3 := FinishRun(env, m, o).0;
    if !ok {
      FailedIsLater(env, m2, o.(status := Failed));
      LaterStill(m1, m2, m3);
    }
    LooksAreLater(m3, later);
    var m' := LookAll(m3, later);
    LaterStill(m1, m3, m');
    FinishedIsCoherent(env, m, false, o, later);
    HistoryInBounds(m', false, k);
    if k < |m1.history| {
      HistoryIsMonotone(m', false, k, |m1.history| - 1);
      NoDoneIn(m1.sessions, m'.sessions, m'.history[k].sessions);
    } else {
      HistoryIsMonotone(m', false, |m1.history| - 1, k);
      if m1.seen.deliverables == 0 {
        NoDoneEver(env, m, o, later);
        NoDoneIn(m'.sessions, m'.sessions, m'.history[k].sessions);
      }
    }
  }

  /** Whoever is told "done" of an outcome that needs a deliverable can find one: it was visible at the moment at
      which memory said "done". */
  lemma DoneReadsHaveDeliverable(env: MemoryEnv, m: Memory, o: Outcome, later: seq<Seen>, q: Reading)
    requires Fresh(m) && o.status.Done? && o.result.Some? && o.deliverableRequired
    requires InOrder(FinishedMemory(env, m, o, later), q) && Told(FinishedMemory(env, m, o, later), q).Done?
    ensures
      var m' := FinishedMemory(env, m, o, later);
      m'.history[if SessionFound(m', q).None? then q.sessionCopy else q.session].deliverables > 0
  {
    hide FinishedMemory, Coherent;
    FreshIsCoherent(m, false);
    SplitReadSaysDoneExactly(env, m, o, later, q);
    var m' := FinishedMemory(env, m, o, later);
    if SessionFound(m', q).None? {
      CopiesFollowSessions(env, m, o, later, q.sessionCopy);
      DoneShowsDeliverable(env, m, o, later, q.sessionCopy);
    } else {
      DoneShowsDeliverable(env, m, o, later, q.session);
    }
  }

  lemma NoDoneIn(sessions: seq<Status>, more: seq<Status>, n: nat)
    requires sessions <= more && !HasDone(sessions) && n <= |sessions|
    ensures Newest(more, n) != Some(Done)
  {
  }

  lemma FailedIsLater(env: MemoryEnv, m: Memory, o: Outcome)
    requires InBounds(m) && o.result.Some?
    ensures Later(m, PersistResults(env, m, o).0)
  {
    hide InBounds, PersistVerified, SanitizeTaskResult, PersistWithResult;
    if SanitizeTaskResult(o.result.value).Accepted? {
      PersistIsLater(env, m, SessionFact, Running, 1);
      RestIsLater(env, m, o);
      LaterStill(m, PersistVerified(env, m, SessionFact, Running, 1).0, PersistResults(env, m, o).0);
    }
  }

  lemma FinalStepsAreLater(env: MemoryEnv, m: Memory, status: Status)
    requires InBounds(m)
    ensures Later(m, PersistResultAndSession(env, m, status, true).0)
  {
    hide InBounds, PersistResult, PersistSession;
    PersistResultIsLater(env, m, status, true);
    var (m1, ok) := PersistResult(env, m, status, true);
    if ok {
      PersistSessionIsLater(env, m1, status);
    }
  }

  /** If the first attempt leaves no done session, no session is ever done. */
  lemma NoDoneEver(env: MemoryEnv, m: Memory, o: Outcome, later: seq<Seen>)
    requires Fresh(m) && o.status.Done? && o.result.Some? && !HasDone(PersistResults(env, m, o).0.sessions)
    ensures !HasDone(FinishedMemory(env, m, o, later).sessions)
  {
    hide PersistResults, LookAll, Coherent;
    FreshIsCoherent(m, false);
    var p, v := PersistResultsStages(env, m, false, o);
    var (m1, ok) := PersistResults(env, m, o);
    LooksKeepVersions(FinishRun(env, m, o).0, later);
    if !ok {
      var p', v' := PersistResultsStages(env, m1, false, o.(status := Failed));
      var m2 := PersistResults(env, m1, o.(status := Failed)).0;
      assert forall i | 0 <= i < |m1.sessions| :: m2.sessions[i] == m2.sessions[..|m1.sessions|][i] == m1.sessions[i];
    }
  }

  /**
   The queries are not one snapshot. For a fresh task whose run was done, also when it had to be persisted
   again as failed, a reader is told "failed" exactly when memory says so at its second query; or that query
   found a done session, and neither the first found a result nor the fourth a copy of it; or it found no
   session, and the copies found later are of a result only, or say "failed".
   */
  lemma SplitReadFailsExactly(env: MemoryEnv, m: Memory, o: Outcome, later: seq<Seen>, q: Reading)
    requires Fresh(m) && o.status.Done? && o.result.Some?
    requires InOrder(FinishedMemory(env, m, o, later), q)
    ensures
      var m' := FinishedMemory(env, m, o, later);
      Told(m', q).Failed? <==>
      || StatusAt(m', m'.history[q.session]).Failed?
      || (StatusAt(m', m'.history[q.session]).Done? && !ResultFound(m', q) && !ResultCopyFound(m', q))
      || (&& SessionFound(m', q).None?
          && (SessionCopyFound(m', q) == Some(Failed) || (SessionCopyFound(m', q).None? && ResultCopyFound(m', q))))
  {
    hide FinishedMemory, Coherent;
    FreshIsCoherent(m, true);
    FinishedIsCoherent(env, m, true, o, later);
    var m' := FinishedMemory(env, m, o, later);
    HistoryInBounds(m', true, q.result);
    HistoryInBounds(m', true, q.session);
    HistoryIsMonotone(m', true, q.result, q.session);
  }

  /** All versions are visible at once, and so are the copies if `copied`. */
  function Eager(copied: bool): nat -> Seen {
    (n: nat) => if copied then Seen(9, 9, 9, 9, 9) else Seen(9, 9, 9, 0, 0)
  }

  /** It does happen, although every call succeeds: the session can become visible between the first two queries
      while the copy of the result does not, or that copy before the last query but after the second. */
  lemma SplitReadCanFail(result: string, copied: bool)
    requires SanitizeTaskResult(result).Accepted?
    ensures
      var (m, returned, ok) :=
        FinishRun(Obliging(QUERY_LIMIT, Eager(copied)), EMPTY, Outcome(Done, Some(result), false, false));
      && ok && returned.Done? && StatusAt(m, m.seen).Done?
      && exists q :: InOrder(m, q) && Told(m, q).Failed?
  {
    hide SanitizeTaskResult, FinishRun;
    var m := EagerRun(result, copied);
    var last := |m.history| - 1;
    var q := if copied then Reading(0, 0, last, last, last) else Reading(0, last, last, last, last);
    assert InOrder(m, q) && Told(m, q).Failed?;
  }

  lemma EagerRun(result: string, copied: bool) returns (m: Memory)
    requires SanitizeTaskResult(result).Accepted?
    ensures InBounds(m) && m.history[0] == NOTHING && m.sessions == [Running, Done] && m.results == [Done]
    ensures m.seen.results == 1 && m.seen.sessions == 2 && m.seen.sessionCopies == 0
    ensures m.seen.resultCopies == if copied then 1 else 0
    ensures
      FinishRun(Obliging(QUERY_LIMIT, Eager(copied)), EMPTY, Outcome(Done, Some(result), false, false))
      == (m, Done, true)
  {
    hide SanitizeTaskResult, PersistVerified, Write, IsVisible, Look;
    var m1 := EagerRound(copied, EMPTY, SessionFact, Running);
    var m2 := EagerRound(copied, m1, ResultFact, Done);
    var m3 := EagerCopy(copied, m2, ResultCopy, Done);
    var m4 := EagerRound(copied, m3, SessionFact, Done);
    m := EagerCopy(copied, m4, SessionCopy, Done);
  }

  lemma EagerRound(copied: bool, m: Memory, kind: Kind, status: Status) returns (m': Memory)
    requires InBounds(m) && |m.results| < 9 && |m.sessions| < 9 && (kind.ResultFact? || kind.SessionFact?)
    requires m.history[0] == NOTHING && (copied ==> m.resultCopies <= 9) && (!copied ==> m.seen.resultCopies == 0)
    requires m.seen.sessionCopies == 0 && m.sessionCopies == []
    ensures InBounds(m') && PersistVerified(Obliging(QUERY_LIMIT, Eager(copied)), m, kind, status, 1) == (m', true)
    ensures m'.results == Appended(m, kind, status).results && m'.sessions == Appended(m, kind, status).sessions
    ensures m'.seen.results == |m'.results| && m'.seen.sessions == |m'.sessions| && m'.history[0] == NOTHING
    ensures m'.resultCopies == m.resultCopies && m'.seen.resultCopies == if copied then m.resultCopies else 0
    ensures m'.seen.sessionCopies == 0 && m'.sessionCopies == []
  {
    Round(QUERY_LIMIT, Eager(copied), m, kind, status, 1);
    m' := AfterRound(Eager(copied), m, kind, status);
    assert kind.ResultFact? ==> m'.results[|m.results|] == status;
    assert kind.SessionFact? ==> m'.sessions[|m.sessions|] == status;
  }

  lemma EagerCopy(copied: bool, m: Memory, kind: Kind, status: Status) returns (m': Memory)
    requires InBounds(m) && m.seen.results == |m.results| && m.seen.sessions == |m.sessions|
    requires m.history[0] == NOTHING && m.resultCopies <= 1 && (kind.ResultCopy? || kind.SessionCopy?)
    requires m.seen.resultCopies == (if copied then m.resultCopies else 0)
    requires m.seen.sessionCopies == 0 && m.sessionCopies == []
    ensures InBounds(m') && Write(Obliging(QUERY_LIMIT, Eager(copied)), m, kind, status) == (m', true)
    ensures m'.results == m.results && m'.sessions == m.sessions && m'.history[0] == NOTHING
    ensures m'.resultCopies == Appended(m, kind, status).resultCopies && m'.seen.resultCopies == m.seen.resultCopies
    ensures m'.seen.results == |m'.results| && m'.seen.sessions == |m'.sessions| && m'.seen.sessionCopies == 0
    ensures m'.sessionCopies == Appended(m, kind, status).sessionCopies
  {
    CopyWritten(QUERY_LIMIT, Eager(copied), m, kind, status);
    m' := Appended(Look(m, Eager(copied)(m.calls)), kind, status).(calls := m.calls + 1);
  }

  // ---- A run that was done and returns "failed" ----

  /** The steps of a result before its final session. */
  function UpToResult(env: MemoryEnv, m: Memory, o: Outcome): (r: (Memory, bool))
    requires InBounds(m)
    ensures InBounds(r.0)
  {
    var (m1, anchored) := PersistVerified(env, m, SessionFact, Running, 1);
    if !anchored then (m1, false)
    else
      var (m2, resolved) := ResolveDeliverable(env, m1, o);
      if !resolved then (m2, false) else PersistResult(env, m2, o.status, true)
  }

  ghost predicate HasDone(sessions: seq<Status>) {
    exists i :: 0 <= i < |sessions| && sessions[i].Done?
  }

  /** Some reader was told "done", wherever its queries fell. */
  ghost predicate SeenAsDone(m: Memory) {
    exists q :: InOrder(m, q) && Told(m, q).Done?
  }

  lemma {:induction false} PersistWrites(env: MemoryEnv, m: Memory, status: Status, attempt: nat)
    requires InBounds(m)
    ensures
      var m' := PersistVerified(env, m, SessionFact, status, attempt).0;
      && m.sessions <= m'.sessions
      && (forall i | |m.sessions| <= i < |m'.sessions| :: m'.sessions[i] == status)
      && (|m'.sessions| > |m.sessions| <==> env.answers(m.calls) || env.takesEffect(m.calls))
    decreases PERSIST_VISIBILITY_ATTEMPTS - attempt
  {
    hide Query, InBounds;
    LooksKeepVersions(m, env.looks(m.calls));
    WriteInBounds(env, m, SessionFact, status);
    var (m1, ok) := Write(env, m, SessionFact, status);
    if ok {
      QueryInBounds(env, m1, SessionFact, status);
      QueryKeepsVersions(env, m1, SessionFact, status);
      var (m2, found) := Query(env, m1, SessionFact, status);
      if found != Some(true) && attempt < PERSIST_VISIBILITY_ATTEMPTS {
        PersistWrites(env, m2, status, attempt + 1);
      }
    }
  }

  lemma QueryKeepsVersions(env: MemoryEnv, m: Memory, kind: Kind, expected: Status)
    requires InBounds(m)
    ensures Query(env, m, kind, expected).0.sessions == m.sessions
  {
    LooksKeepVersions(m, env.looks(m.calls));
  }

  lemma NoDoneBeforeSession(env: MemoryEnv, m: Memory, o: Outcome)
    requires Fresh(m)
    ensures !HasDone(UpToResult(env, m, o).0.sessions)
  {
    hide PersistVerified, ResolveDeliverable, PersistResult, Coherent;
    FreshIsCoherent(m, false);
    PersistKeepsCoherent(env, m, false, SessionFact, Running, 1);
    var (m1, anchored) := PersistVerified(env, m, SessionFact, Running, 1);
    if anchored {
      VisibleMeansSeen(env, m1, SessionFact, Running);
      ResolveKeepsCoherent(env, m1, false, o);
      var (m2, resolved) := ResolveDeliverable(env, m1, o);
      if resolved {
        ResultStage(env, m2, false, o.status, true);
      }
    }
  }

  /** A done session is written exactly when the anchor, the deliverable and the result were persisted and
      the first write of the session was carried out. */
  lemma DoneSessionIsWrittenExactly(env: MemoryEnv, m: Memory, o: Outcome)
    requires Fresh(m) && o.status.Done? && o.result.Some? && SanitizeTaskResult(o.result.value).Accepted?
    ensures
      var (m', ok) := UpToResult(env, m, o);
      HasDone(PersistResults(env, m, o).0.sessions) <==>
      ok && (env.answers(m'.calls) || env.takesEffect(m'.calls))
  {
    hide PersistVerified, SanitizeTaskResult, UpToResult, Write;
    StepsJoin(env, m, o);
    NoDoneBeforeSession(env, m, o);
    var (m1, ok) := UpToResult(env, m, o);
    if ok {
      PersistWrites(env, m1, Done, 1);
      var m2 := PersistVerified(env, m1, SessionFact, Done, 1).0;
      assert |m2.sessions| > |m1.sessions| ==> m2.sessions[|m1.sessions|].Done?;
      assert |m2.sessions| == |m1.sessions| ==> m2.sessions == m1.sessions;
      CopyKeepsSessions(env, m2, SessionCopy, Done);
    }
  }

  lemma CopyKeepsSessions(env: MemoryEnv, m: Memory, kind: Kind, status: Status)
    requires kind.ResultCopy? || kind.SessionCopy?
    ensures Write(env, m, kind, status).0.sessions == m.sessions
  {
    LooksKeepVersions(m, env.looks(m.calls));
  }

  lemma StepsJoin(env: MemoryEnv, m: Memory, o: Outcome)
    requires InBounds(m) && o.result.Some? && SanitizeTaskResult(o.result.value).Accepted?
    ensures
      var (m', ok) := UpToResult(env, m, o);
      PersistResults(env, m, o) == if ok then PersistSession(env, m', o.status) else (m', false)
  {
    hide PersistVerified, ResolveDeliverable, PersistResult, PersistSession, SanitizeTaskResult;
  }

  // ---- Histories only grow ----

  ghost predicate Later(m: Memory, m': Memory) {
    m.history <= m'.history && m.sessions <= m'.sessions && m.results <= m'.results
  }

  lemma {:induction false} LooksAreLater(m: Memory, wishes: seq<Seen>)
    ensures Later(m, LookAll(m, wishes))
    decreases |wishes|
  {
    if wishes != [] {
      LooksAreLater(Look(m, wishes[0]), wishes[1..]);
    }
  }

  lemma LaterStill(a: Memory, b: Memory, c: Memory)
    requires Later(a, b) && Later(b, c)
    ensures Later(a, c)
  {
  }

  lemma WriteIsLater(env: MemoryEnv, m: Memory, kind: Kind, status: Status)
    ensures Later(LookAll(m, env.looks(m.calls)), Write(env, m, kind, status).0)
    ensures Later(m, Write(env, m, kind, status).0)
  {
    hide LookAll;
    LooksAreLater(m, env.looks(m.calls));
  }

  lemma QueryIsLater(env: MemoryEnv, m: Memory, kind: Kind, expected: Status)
    requires InBounds(m)
    ensures Later(m, Query(env, m, kind, expected).0)
  {
    hide LookAll, InBounds, IsVisible;
    LooksAreLater(m, env.looks(m.calls));
  }

  lemma {:induction false} PersistIsLater(env: MemoryEnv, m: Memory, kind: Kind, status: Status, attempt: nat)
    requires InBounds(m)
    ensures Later(m, PersistVerified(env, m, kind, status, attempt).0)
    ensures Later(LookAll(m, env.looks(m.calls)), PersistVerified(env, m, kind, status, attempt).0)
    decreases PERSIST_VISIBILITY_ATTEMPTS - attempt
  {
    hide InBounds, LookAll, Write, Query, Later;
    WriteIsLater(env, m, kind, status);
    WriteInBounds(env, m, kind, status);
    var (m1, ok) := Write(env, m, kind, status);
    if ok {
      QueryIsLater(env, m1, kind, status);
      QueryInBounds(env, m1, kind, status);
      var (m2, found) := Query(env, m1, kind, status);
      LaterStill(m, m1, m2);
      LaterStill(LookAll(m, env.looks(m.calls)), m1, m2);
      if found != Some(true) && attempt < PERSIST_VISIBILITY_ATTEMPTS {
        PersistIsLater(env, m2, kind, status, attempt + 1);
        LaterStill(m, m2, PersistVerified(env, m2, kind, status, attempt + 1).0);
        LaterStill(LookAll(m, env.looks(m.calls)), m2, PersistVerified(env, m2, kind, status, attempt + 1).0);
      }
    }
  }

  lemma ResolveIsLater(env: MemoryEnv, m: Memory, o: Outcome)
    requires InBounds(m)
    ensures Later(m, ResolveDeliverable(env, m, o).0)
  {
    hide InBounds, Query, PersistVerified;
    QueryIsLater(env, m, DeliverableFact, o.status);
    QueryInBounds(env, m, DeliverableFact, o.status);
    PersistIsLater(env, Query(env, m, DeliverableFact, o.status).0, DeliverableFact, o.status, 1);
  }

  lemma PersistResultIsLater(env: MemoryEnv, m: Memory, status: Status, copied: bool)
    requires InBounds(m)
    ensures Later(m, PersistResult(env, m, status, copied).0)
  {
    hide InBounds, Write, PersistVerified;
    PersistIsLater(env, m, ResultFact, status, 1);
    WriteIsLater(env, PersistVerified(env, m, ResultFact, status, 1).0, ResultCopy, status);
  }

  lemma PersistSessionIsLater(env: MemoryEnv, m: Memory, status: Status)
    requires InBounds(m)
    ensures Later(m, PersistSession(env, m, status).0)
  {
    hide InBounds, Write, PersistVerified;
    PersistIsLater(env, m, SessionFact, status, 1);
    WriteIsLater(env, PersistVerified(env, m, SessionFact, status, 1).0, SessionCopy, status);
  }

  /** The anchor of a result is written first, and everything after it is later. */
  lemma RestIsLater(env: MemoryEnv, m: Memory, o: Outcome)
    requires InBounds(m) && o.result.Some? && SanitizeTaskResult(o.result.value).Accepted?
    ensures Later(PersistVerified(env, m, SessionFact, Running, 1).0, PersistResults(env, m, o).0)
  {
    hide InBounds, PersistVerified, ResolveDeliverable, PersistResult, PersistSession, SanitizeTaskResult;
    var (m1, anchored) := PersistVerified(env, m, SessionFact, Running, 1);
    if anchored {
      ResolveIsLater(env, m1, o);
      var (m2, resolved) := ResolveDeliverable(env, m1, o);
      if resolved {
        PersistResultIsLater(env, m2, o.status, true);
        var (m3, ok) := PersistResult(env, m2, o.status, true);
        if ok {
          PersistSessionIsLater(env, m3, o.status);
        }
      }
    }
  }

  // ---- Environments that agree up to a call ----

  ghost predicate SameUntil(env: MemoryEnv, env': MemoryEnv, limit: nat) {
    && env'.depth == env.depth
    && (forall n: nat :: env'.answers(n) == env.answers(n) && env'.takesEffect(n) == env.takesEffect(n))
    && (forall n: nat | n < limit :: env'.looks(n) == env.looks(n))
  }

  lemma {:induction false} PersistTakesCalls(env: MemoryEnv, m: Memory, kind: Kind, status: Status, attempt: nat)
    requires InBounds(m)
    ensures PersistVerified(env, m, kind, status, attempt).0.calls > m.calls
    decreases PERSIST_VISIBILITY_ATTEMPTS - attempt
  {
    hide InBounds, LookAll, IsVisible;
    WriteInBounds(env, m, kind, status);
    var (m1, ok) := Write(env, m, kind, status);
    if ok {
      QueryInBounds(env, m1, kind, status);
      var (m2, found) := Query(env, m1, kind, status);
      if found != Some(true) && attempt < PERSIST_VISIBILITY_ATTEMPTS {
        PersistTakesCalls(env, m2, kind, status, attempt + 1);
      }
    }
  }

  lemma SameWrite(env: MemoryEnv, env': MemoryEnv, limit: nat, m: Memory, kind: Kind, status: Status)
    requires SameUntil(env, env', limit) && m.calls < limit
    ensures Write(env', m, kind, status) == Write(env, m, kind, status)
    ensures Write(env, m, kind, status).0.calls == m.calls + 1
  {
    hide LookAll;
  }

  lemma SameQuery(env: MemoryEnv, env': MemoryEnv, limit: nat, m: Memory, kind: Kind, expected: Status)
    requires InBounds(m) && SameUntil(env, env', limit) && m.calls < limit
    ensures Query(env', m, kind, expected) == Query(env, m, kind, expected)
  {
    hide LookAll, Listed, InBounds;
    LookAllInBounds(m, env.looks(m.calls));
  }

  lemma QueryTakesCall(env: MemoryEnv, m: Memory, kind: Kind, expected: Status)
    requires InBounds(m)
    ensures Query(env, m, kind, expected).0.calls == m.calls + 1
  {
    hide LookAll, Listed, InBounds;
    LookAllInBounds(m, env.looks(m.calls));
  }

  lemma {:induction false} SamePersist(
      env: MemoryEnv, env': MemoryEnv, limit: nat, m: Memory, kind: Kind, status: Status, attempt: nat)
    requires InBounds(m) && SameUntil(env, env', limit)
    requires PersistVerified(env, m, kind, status, attempt).0.calls <= limit
    ensures PersistVerified(env', m, kind, status, attempt) == PersistVerified(env, m, kind, status, attempt)
    decreases PERSIST_VISIBILITY_ATTEMPTS - attempt
  {
    hide InBounds, Write, Query, SameUntil;
    PersistTakesCalls(env, m, kind, status, attempt);
    SameWrite(env, env', limit, m, kind, status);
    WriteInBounds(env, m, kind, status);
    var (m1, ok) := Write(env, m, kind, status);
    if ok {
      QueryInBounds(env, m1, kind, status);
      QueryTakesCall(env, m1, kind, status);
      var (m2, found) := Query(env, m1, kind, status);
      if found != Some(true) && attempt < PERSIST_VISIBILITY_ATTEMPTS {
        PersistTakesCalls(env, m2, kind, status, attempt + 1);
        SamePersist(env, env', limit, m2, kind, status, attempt + 1);
      }
      SameQuery(env, env', limit, m1, kind, status);
    }
  }

  lemma SameResolve(env: MemoryEnv, env': MemoryEnv, limit: nat, m: Memory, o: Outcome)
    requires InBounds(m) && SameUntil(env, env', limit) && ResolveDeliverable(env, m, o).0.calls <= limit
    ensures ResolveDeliverable(env', m, o) == ResolveDeliverable(env, m, o)
    ensures ResolveDeliverable(env, m, o).0.calls >= m.calls
  {
    hide InBounds, LookAll, Listed, PersistVerified;
    if o.deliverableRequired {
      QueryInBounds(env, m, DeliverableFact, o.status);
      var (m1, found) := Query(env, m, DeliverableFact, o.status);
      LookAllInBounds(m, env.looks(m.calls));
      PersistTakesCalls(env, m1, DeliverableFact, o.status, 1);
      assert Query(env', m, DeliverableFact, o.status) == (m1, found);
      if found == Some(false) && !o.localCli {
        SamePersist(env, env', limit, m1, DeliverableFact, o.status, 1);
      }
    }
  }

  lemma SameResult(env: MemoryEnv, env': MemoryEnv, limit: nat, m: Memory, status: Status)
    requires InBounds(m) && SameUntil(env, env', limit) && PersistResult(env, m, status, true).0.calls <= limit
    ensures PersistResult(env', m, status, true) == PersistResult(env, m, status, true)
  {
    hide InBounds, LookAll, PersistVerified;
    var (m1, ok) := PersistVerified(env, m, ResultFact, status, 1);
    if ok {
      assert m1.calls < limit;
      SameWrite(env, env', limit, m1, ResultCopy, status);
    }
    SamePersist(env, env', limit, m, ResultFact, status, 1);
  }

  lemma SameSession(env: MemoryEnv, env': MemoryEnv, limit: nat, m: Memory, status: Status)
    requires InBounds(m) && SameUntil(env, env', limit) && PersistSession(env, m, status).0.calls <= limit
    ensures PersistSession(env', m, status) == PersistSession(env, m, status)
  {
    hide InBounds, LookAll, PersistVerified;
    var (m1, ok) := PersistVerified(env, m, SessionFact, status, 1);
    if ok {
      assert m1.calls < limit;
      SameWrite(env, env', limit, m1, SessionCopy, status);
    }
    SamePersist(env, env', limit, m, SessionFact, status, 1);
  }

  lemma ResultTakesCalls(env: MemoryEnv, m: Memory, status: Status)
    requires InBounds(m)
    ensures PersistResult(env, m, status, true).0.calls > m.calls
    ensures PersistSession(env, m, status).0.calls > m.calls
  {
    hide InBounds, LookAll, PersistVerified;
    PersistTakesCalls(env, m, ResultFact, status, 1);
    PersistTakesCalls(env, m, SessionFact, status, 1);
  }

  /** Persisting a result takes the same steps in environments that agree until its end. */
  lemma SamePersistResults(env: MemoryEnv, env': MemoryEnv, m: Memory, o: Outcome)
    requires InBounds(m) && o.result.Some? && SanitizeTaskResult(o.result.value).Accepted?
    requires SameUntil(env, env', PersistResults(env, m, o).0.calls)
    ensures PersistResults(env', m, o) == PersistResults(env, m, o)
  {
    var limit := PersistResults(env, m, o).0.calls;
    hide PersistVerified, ResolveDeliverable, PersistResult, PersistSession, SanitizeTaskResult, InBounds;
    PersistTakesCalls(env, m, SessionFact, Running, 1);
    var (m1, anchored) := PersistVerified(env, m, SessionFact, Running, 1);
    if anchored {
      var (m2, resolved) := ResolveDeliverable(env, m1, o);
      ResolveTakesCalls(env, m1, o);
      if resolved {
        ResultTakesCalls(env, m2, o.status);
        var (m3, ok) := PersistResult(env, m2, o.status, true);
        if ok {
          ResultTakesCalls(env, m3, o.status);
          SameSession(env, env', limit, m3, o.status);
        }
        SameResult(env, env', limit, m2, o.status);
      }
      SameResolve(env, env', limit, m1, o);
    }
    SamePersist(env, env', limit, m, SessionFact, Running, 1);
  }

  lemma ResolveTakesCalls(env: MemoryEnv, m: Memory, o: Outcome)
    requires InBounds(m)
    ensures ResolveDeliverable(env, m, o).0.calls >= m.calls
  {
    hide InBounds, LookAll, Listed, PersistVerified;
    if o.deliverableRequired {
      QueryInBounds(env, m, DeliverableFact, o.status);
      PersistTakesCalls(env, Query(env, m, DeliverableFact, o.status).0, DeliverableFact, o.status, 1);
    }
  }

  /** Every fact that was written. */
  function AllOf(m: Memory): Seen {
    Seen(|m.results|, |m.sessions|, m.deliverables, m.resultCopies, |m.sessionCopies|)
  }

  /** `env`, but with everything written visible from call `call` on. */
  function Revealing(env: MemoryEnv, call: nat, m: Memory): MemoryEnv {
    env.(looks := (n: nat) => if n < call then env.looks(n) else [AllOf(m)])
  }

  /** If the first attempt left a done session, the second begins by showing it. */
  lemma RevealedIsSeen(env: MemoryEnv, m: Memory, o: Outcome)
    requires Coherent(m, false) && InBounds(m) && m.sessions != [] && m.sessions[|m.sessions| - 1].Done?
    requires o.result.Some? && SanitizeTaskResult(o.result.value).Accepted?
    requires env.looks(m.calls) == [AllOf(m)]
    ensures SeenAsDone(PersistResults(env, m, o).0)
  {
    hide PersistResults, PersistVerified, SanitizeTaskResult;
    LookOnce(m, AllOf(m));
    LookKeepsCoherent(m, false, AllOf(m));
    var m1, m2 := Look(m, AllOf(m)), PersistResults(env, m, o).0;
    PersistIsLater(env, m, SessionFact, Running, 1);
    RestIsLater(env, m, o);
    LaterStill(m1, PersistVerified(env, m, SessionFact, Running, 1).0, m2);
    var k := |m1.history| - 1;
    HistoryInBounds(m1, false, k);
    assert StatusAt(m1, m1.history[k]).Done?;
    assert m2.history[k] == m1.history[k];
    var q := Reading(k, k, k, k, k);
    assert InOrder(m2, q) && Told(m2, q).Done?;
  }

  lemma DoneComesFromFirst(env: MemoryEnv, m: Memory, o: Outcome)
    requires Coherent(m, false) && InBounds(m) && o.status.Failed? && m.sessionCopies == []
    requires SeenAsDone(PersistResults(env, m, o).0)
    ensures HasDone(m.sessions)
  {
    hide PersistResults, Verified, Coherent, TwoStage, Told, HasDone;
    var p, v := PersistResultsStages(env, m, false, o);
    var m' := PersistResults(env, m, o).0;
    var q :| InOrder(m', q) && Told(m', q).Done?;
    DoneWasFound(m', q);
    if SessionFound(m', q) == Some(Done) {
      DoneIsOlder(m, m', p, o.status, m'.history[q.session].sessions - 1);
    } else {
      NoDoneCopy(m, m', p, o.status, m'.history[q.sessionCopy].sessionCopies - 1);
    }
  }

  lemma DoneWasFound(m: Memory, q: Reading)
    requires Coherent(m, false) && InOrder(m, q) && Told(m, q).Done?
    ensures SessionFound(m, q) == Some(Done) || SessionCopyFound(m, q) == Some(Done)
  {
    HistoryInBounds(m, false, q.result);
    HistoryInBounds(m, false, q.session);
    HistoryIsMonotone(m, false, q.result, q.session);
  }

  lemma DoneIsOlder(m: Memory, m': Memory, p: nat, status: Status, k: int)
    requires TwoStage(m, m', p, status) && status.Failed? && 0 <= k < |m'.sessions| && m'.sessions[k].Done?
    ensures HasDone(m.sessions)
  {
    assert k < |m.sessions| && m'.sessions[..|m.sessions|][k] == m.sessions[k];
  }

  lemma NoDoneCopy(m: Memory, m': Memory, p: nat, status: Status, k: int)
    requires TwoStage(m, m', p, status) && status.Failed? && m.sessionCopies == [] && 0 <= k < |m'.sessionCopies|
    ensures !m'.sessionCopies[k].Done?
  {
  }

  /**
   When a run that was done and could not be persisted, so that it returns "failed", can be seen as done:
   some movement of visibility after the first attempt shows it to some reader if and only if that
   attempt left a done session. Otherwise no reader, wherever its queries fall, is ever told "done".
   */
  lemma DoneSeenBeforeFailedExactly(env: MemoryEnv, m: Memory, o: Outcome)
    requires Fresh(m) && o.status.Done? && o.result.Some? && SanitizeTaskResult(o.result.value).Accepted?
    requires !PersistResults(env, m, o).1
    ensures FinishRun(env, m, o).1.Failed?
    ensures (exists env' :: SameUntil(env, env', PersistResults(env, m, o).0.calls)
                            && SeenAsDone(FinishRun(env', m, o).0))
        <==> HasDone(PersistResults(env, m, o).0.sessions)
  {
    hide PersistResults, SanitizeTaskResult, SeenAsDone, HasDone, Coherent;
    FreshIsCoherent(m, false);
    var m1 := PersistResults(env, m, o).0;
    var p, v := PersistResultsStages(env, m, false, o);
    if env' :| SameUntil(env, env', m1.calls) && SeenAsDone(FinishRun(env', m, o).0) {
      SamePersistResults(env, env', m, o);
      DoneComesFromFirst(env', m1, o.(status := Failed));
    }
    if HasDone(m1.sessions) {
      var env' := Revealing(env, m1.calls, m1);
      SamePersistResults(env, env', m, o);
      LastIsDone(m, m1, p);
      RevealedIsSeen(env', m1, o.(status := Failed));
      assert SeenAsDone(FinishRun(env', m, o).0);
    }
  }

  lemma LastIsDone(m: Memory, m': Memory, p: nat)
    requires Fresh(m) && TwoStage(m, m', p, Done) && HasDone(m'.sessions)
    ensures m'.sessions != [] && m'.sessions[|m'.sessions| - 1].Done?
  {
  }

  // ---- Such a run ----

  /** The first final session and its repetitions stay invisible until call 14, and copies always do. */
  function LateWish(n: nat): Seen {
    if n == 1 then Seen(0, 1, 0, 0, 0)
    else if n == 3 then Seen(1, 1, 0, 0, 0)
    else if n == 14 then Seen(2, 2, 0, 0, 0)
    else if n == 17 then Seen(2, 6, 0, 0, 0)
    else NOTHING
  }

  const LATE := Obliging(QUERY_LIMIT, LateWish)

  lemma LateRound(m: Memory, kind: Kind, status: Status, attempt: nat) returns (m': Memory)
    requires InBounds(m) && LateWish(m.calls) == NOTHING
    ensures InBounds(m') && m'.calls == m.calls + 2 && |m'.history| > 0 && m'.history[|m'.history| - 1] == m'.seen
    ensures m'.results == Appended(m, kind, status).results && m'.sessions == Appended(m, kind, status).sessions
    ensures m'.seen == Look(Appended(m, kind, status), LateWish(m.calls + 1)).seen
    ensures PersistVerified(LATE, m, kind, status, attempt) ==
      (if IsVisible(LATE, m', kind, status) then (m', true)
       else if attempt < PERSIST_VISIBILITY_ATTEMPTS then PersistVerified(LATE, m', kind, status, attempt + 1)
       else (m', false))
  {
    hide PersistVerified, IsVisible;
    Round(QUERY_LIMIT, LateWish, m, kind, status, attempt);
    m' := AfterRound(LateWish, m, kind, status);
    assert Look(m, NOTHING).seen == m.seen;
  }

  lemma LateCopy(m: Memory, kind: Kind, status: Status) returns (m': Memory)
    requires InBounds(m) && LateWish(m.calls) == NOTHING && (kind.ResultCopy? || kind.SessionCopy?)
    ensures InBounds(m') && Write(LATE, m, kind, status) == (m', true) && m'.calls == m.calls + 1
    ensures m'.results == m.results && m'.sessions == m.sessions && m'.seen == m.seen && m.history <= m'.history
  {
    CopyWritten(QUERY_LIMIT, LateWish, m, kind, status);
    m' := Appended(Look(m, NOTHING), kind, status).(calls := m.calls + 1);
  }

  /** The first attempt: the anchor and the result are seen in time, the final session is not. */
  lemma LateFirstAttempt(o: Outcome) returns (m: Memory)
    requires o.status.Done? && o.result.Some? && SanitizeTaskResult(o.result.value).Accepted? && !o.deliverableRequired
    ensures InBounds(m) && PersistResults(LATE, EMPTY, o) == (m, false)
    ensures m.results == [Done] && m.sessions == [Running, Done, Done, Done]
    ensures m.seen == Seen(1, 1, 0, 0, 0) && m.calls == 11
  {
    hide SanitizeTaskResult, PersistVerified, Write, PersistResults, IsVisible, Appended, Look;
    StepsJoin(LATE, EMPTY, o);
    var m1 := LateAnchorIsSeen();
    var m2 := LateResultIsSeen(m1);
    var m3 := LateCopy(m2, ResultCopy, Done);
    m := LateSession(m3);
  }

  lemma LateAnchorIsSeen() returns (m: Memory)
    ensures InBounds(m) && PersistVerified(LATE, EMPTY, SessionFact, Running, 1) == (m, true)
    ensures m.results == [] && m.sessions == [Running] && m.seen == Seen(0, 1, 0, 0, 0) && m.calls == 2
  {
    hide PersistVerified;
    m := LateRound(EMPTY, SessionFact, Running, 1);
    assert m.sessions[0] == Running;
  }

  lemma LateResultIsSeen(m: Memory) returns (m': Memory)
    requires InBounds(m) && m.results == [] && m.sessions == [Running] && m.seen == Seen(0, 1, 0, 0, 0) && m.calls == 2
    ensures InBounds(m') && PersistVerified(LATE, m, ResultFact, Done, 1) == (m', true)
    ensures m'.results == [Done] && m'.sessions == [Running] && m'.seen == Seen(1, 1, 0, 0, 0) && m'.calls == 4
  {
    hide PersistVerified;
    m' := LateRound(m, ResultFact, Done, 1);
    assert m'.results[0] == Done;
  }

  lemma LateSession(m: Memory) returns (m': Memory)
    requires InBounds(m) && m.results == [Done] && m.sessions == [Running]
    requires m.seen == Seen(1, 1, 0, 0, 0) && m.calls == 5
    ensures InBounds(m') && PersistVerified(LATE, m, SessionFact, Done, 1) == (m', false)
    ensures m'.results == [Done] && m'.sessions == [Running, Done, Done, Done]
    ensures m'.seen == Seen(1, 1, 0, 0, 0) && m'.calls == 11
  {
    hide PersistVerified;
    var m1 := LateRound(m, SessionFact, Done, 1);
    var m2 := LateRound(m1, SessionFact, Done, 2);
    m' := LateRound(m2, SessionFact, Done, 3);
  }

  /** The second attempt: the old anchor passes for the new one, so the failed result is written and seen
      while a done session is the newest visible one. */
  lemma LateSecondAttempt(m: Memory, o: Outcome) returns (m': Memory)
    requires o.status.Failed? && o.result.Some? && SanitizeTaskResult(o.result.value).Accepted?
    requires !o.deliverableRequired
    requires InBounds(m) && m.results == [Done] && m.sessions == [Running, Done, Done, Done]
    requires m.seen == Seen(1, 1, 0, 0, 0) && m.calls == 11
    ensures PersistResults(LATE, m, o) == (m', true)
    ensures StatusAt(m', m'.seen).Failed?
    ensures exists k :: 0 <= k < |m'.history| && StatusAt(m', m'.history[k]).Done?
  {
    hide SanitizeTaskResult, PersistVerified, Write;
    assert m.sessions[0] == Running;
    var m1 := LateRound(m, SessionFact, Running, 1);
    assert m1.sessions[0] == Running;
    var m2 := LateRound(m1, ResultFact, Failed, 1);
    var k := |m2.history| - 1;
    assert m2.results[1] == Failed && m2.sessions[1] == Done && m2.history[k] == Seen(2, 2, 0, 0, 0);
    var m3 := LateCopy(m2, ResultCopy, Failed);
    var m4 := LateRound(m3, SessionFact, Failed, 1);
    assert m4.sessions[5] == Failed;
    PersistIsLater(LATE, m3, SessionFact, Failed, 1);
    m' := LateCopy(m4, SessionCopy, Failed);
    assert m'.history[k] == m2.history[k] && StatusAt(m', m'.history[k]).Done?;
  }

  /** "done" is not final: a run that returns "failed" and is read as failed at its end can be seen as done in
      between, by a reader of one state of memory, although no call to memory fails. */
  lemma DoneCanBeSeenBeforeFailed(o: Outcome)
    requires o.status.Done? && o.result.Some? && SanitizeTaskResult(o.result.value).Accepted? && !o.deliverableRequired
    ensures
      var (m, returned, ok) := FinishRun(LATE, EMPTY, o);
      && ok && returned.Failed? && StatusAt(m, m.seen).Failed?
      && exists k :: 0 <= k < |m.history| && StatusAt(m, m.history[k]).Done?
  {
    hide SanitizeTaskResult, PersistResults, StatusAt;
    var m1 := LateFirstAttempt(o);
    var m2 := LateSecondAttempt(m1, o.(status := Failed));
  }
}
