/**
 When an outcome can be persisted at all, and when the status written by `persist_results` is the status
 read afterwards (src/agent/run.rs, src/server/handlers/mcp/status.rs), for tasks with any history.
 */
module Agreement {
  import opened Wrappers
  import opened Sanitizer
  import opened TaskStatus
  import opened Persistence
  import opened MemoryRuns

  /** Nothing but memory can keep the outcome from being persisted. */
  predicate CanBePersisted(m: Memory, o: Outcome) {
    o.result.Some? ==>
      && SanitizeTaskResult(o.result.value).Accepted?
      && (o.deliverableRequired && o.localCli ==> m.deliverables > 0)
  }

  /**
   Memory from which a success can mislead: an older session with the status can be listed while the
   final one is verified, and a session with another status be the newest visible one then or later.
   For an outcome with a result that can always be its running anchor, but the anchor must have been
   verified before, perhaps by an older running session.
   */
  ghost predicate CanMislead(m: Memory, limit: nat, o: Outcome) {
    && CanBePersisted(m, o)
    && if o.result.None? then exists v: nat, w: nat :: MisleadsLater(m, v, w, limit, o.status)
       else exists u: nat, v: nat :: MisleadsAfterAnchor(m, u, v, limit, o.status)
  }

  ghost predicate MisleadsLater(m: Memory, v: nat, w: nat, limit: nat, status: Status) {
    && m.seen.sessions <= v <= w <= |m.sessions| && 0 < v
    && Listed(m.sessions, v, limit, status) && m.sessions[w - 1] != status
  }

  ghost predicate MisleadsAfterAnchor(m: Memory, u: nat, v: nat, limit: nat, status: Status) {
    var anchored := m.sessions + [Running];
    && m.seen.sessions <= u <= v <= |anchored|
    && Listed(anchored, u, limit, Running) && Listed(anchored, v, limit, status)
  }

  // ---- What a success needs ----

  lemma LocalNeedsDeliverable(env: MemoryEnv, m: Memory, o: Outcome)
    requires Coherent(m, false) && InBounds(m)
    requires ResolveDeliverable(env, m, o).1 && o.deliverableRequired && o.localCli
    ensures m.deliverables > 0
  {
    hide Coherent;
    QueryKeepsCoherent(env, m, false, DeliverableFact, o.status);
    QueryInBounds(env, m, DeliverableFact, o.status);
  }

  lemma SuccessWasPossible(env: MemoryEnv, m: Memory, o: Outcome)
    requires Coherent(m, false) && InBounds(m) && PersistResults(env, m, o).1
    ensures CanBePersisted(m, o)
  {
    hide Coherent, PersistVerified, SanitizeTaskResult, ResolveDeliverable, PersistResultAndSession;
    if o.result.Some? && o.deliverableRequired && o.localCli {
      PersistKeepsCoherent(env, m, false, SessionFact, Running, 1);
      LocalNeedsDeliverable(env, PersistVerified(env, m, SessionFact, Running, 1).0, o);
    }
  }

  /** After a success, however visibility moves on, another newest session has such a cause. */
  lemma UnreadSuccessHasCause(env: MemoryEnv, m: Memory, o: Outcome, w: nat)
    requires Coherent(m, false) && Terminal(o.status) && (o.status.Done? ==> o.result.Some?) && InBounds(m)
    requires PersistResults(env, m, o).1
    requires
      var m1 := PersistResults(env, m, o).0;
      m1.seen.sessions <= w <= |m1.sessions| && Newest(m1.sessions, w) != Some(o.status)
    ensures CanMislead(m, Limit(env.depth), o)
  {
    hide PersistWithResult, Coherent, SanitizeTaskResult, PersistResultAndSession, PersistSession, Listed;
    SuccessWasPossible(env, m, o);
    var limit := Limit(env.depth);
    if o.result.None? {
      var p, v := PersistResultsStages(env, m, false, o);
      var m1 := PersistResults(env, m, o).0;
      ListedNeedsOne(m1.sessions, v, limit, o.status);
      assert w <= p;
      ListedInPrefix(m.sessions, m1.sessions, v, limit, o.status);
      assert m1.sessions[w - 1] == m1.sessions[..|m.sessions|][w - 1];
      assert MisleadsLater(m, v, w, limit, o.status);
    } else {
      var p, u, v := WithResultStages(env, m, false, o);
      var m1 := PersistResults(env, m, o).0;
      ListedNeedsOne(m1.sessions, v, limit, o.status);
      assert w <= p;
      AnchorsMislead(m, m1, p, u, v, limit, o.status);
    }
  }

  lemma ListedNeedsOne(versions: seq<Status>, seen: nat, limit: nat, expected: Status)
    requires seen <= |versions| && Listed(versions, seen, limit, expected)
    ensures limit > 0 && seen > 0
  {
  }

  /** Several anchors mislead no more than one. */
  lemma AnchorsMislead(m: Memory, m1: Memory, p: nat, u: nat, v: nat, limit: nat, status: Status)
    requires TwoStage(m, m1, p, status) && Terminal(status) && m.seen.sessions <= u <= v <= p && InBounds(m)
    requires Listed(m1.sessions, u, limit, Running) && Listed(m1.sessions, v, limit, status)
    ensures exists u': nat, v': nat :: MisleadsAfterAnchor(m, u', v', limit, status)
  {
    var n, anchored := |m.sessions|, m.sessions + [Running];
    var k: nat :| k < v && v <= k + limit && m1.sessions[k] == status;
    assert k < n && m1.sessions[k] == m1.sessions[..n][k] == anchored[k];
    if v <= n {
      ListedInPrefix(m.sessions, m1.sessions, u, limit, Running);
      ListedInPrefix(m.sessions, m1.sessions, v, limit, status);
      ListedInPrefix(m.sessions, anchored, u, limit, Running);
      ListedInPrefix(m.sessions, anchored, v, limit, status);
      assert MisleadsAfterAnchor(m, u, v, limit, status);
    } else {
      assert anchored[n] == Running;
      assert MisleadsAfterAnchor(m, n + 1, n + 1, limit, status);
    }
  }

  // ---- Environments in which every call succeeds ----

  /** At least `big` versions of everything but sessions are shown. */
  ghost predicate ShowsAll(wish: nat -> Seen, big: nat) {
    forall n: nat :: wish(n).results >= big && wish(n).deliverables >= big
  }

  function Least(a: nat, b: nat): nat {
    if a <= b then a else b
  }

  /** What one round leaves visible. */
  lemma ShownAfterRound(wish: nat -> Seen, big: nat, m: Memory, kind: Kind, status: Status)
    requires InBounds(m) && ShowsAll(wish, big) && |m.results| < big && m.deliverables < big
    requires m.seen.sessions <= wish(m.calls).sessions <= wish(m.calls + 1).sessions
    ensures
      var m' := AfterRound(wish, m, kind, status);
      && InBounds(m') && m'.calls == m.calls + 2
      && m'.results == Appended(m, kind, status).results && m'.sessions == Appended(m, kind, status).sessions
      && m'.deliverables == Appended(m, kind, status).deliverables
      && m'.seen.results == |m'.results| && m'.seen.deliverables == m'.deliverables
      && m'.seen.sessions == Least(wish(m.calls + 1).sessions, |m'.sessions|)
  {
    RoundInBounds(wish, m, kind, status);
    assert wish(m.calls).results >= big && wish(m.calls + 1).results >= big;
  }

  /** The result is listed as soon as it is written. */
  lemma ResultRound(depth: nat, wish: nat -> Seen, big: nat, m: Memory, status: Status) returns (m': Memory)
    requires InBounds(m) && ShowsAll(wish, big) && |m.results| < big && m.deliverables < big && depth > 0
    requires m.seen.sessions <= wish(m.calls).sessions <= wish(m.calls + 1).sessions
    ensures InBounds(m') && PersistVerified(Obliging(depth, wish), m, ResultFact, status, 1) == (m', true)
    ensures m'.results == m.results + [status] && m'.sessions == m.sessions && m'.seen.results == |m'.results|
    ensures m'.seen.sessions == Least(wish(m.calls + 1).sessions, |m'.sessions|) && m'.calls == m.calls + 2
    ensures m'.deliverables == m.deliverables
  {
    hide AfterRound;
    Round(depth, wish, m, ResultFact, status, 1);
    ShownAfterRound(wish, big, m, ResultFact, status);
    m' := AfterRound(wish, m, ResultFact, status);
    assert m'.results[|m.results|] == status;
  }

  /** A session is verified by whatever older one is listed at that moment. */
  lemma SessionRound(depth: nat, wish: nat -> Seen, big: nat, m: Memory, status: Status) returns (m': Memory)
    requires InBounds(m) && ShowsAll(wish, big) && |m.results| < big && m.deliverables < big
    requires m.seen.sessions <= wish(m.calls).sessions <= wish(m.calls + 1).sessions
    requires
      Listed(m.sessions + [status], Least(wish(m.calls + 1).sessions, |m.sessions| + 1), Limit(depth), status)
    ensures InBounds(m') && PersistVerified(Obliging(depth, wish), m, SessionFact, status, 1) == (m', true)
    ensures m'.results == m.results && m'.sessions == m.sessions + [status] && m'.seen.results == |m'.results|
    ensures m'.seen.sessions == Least(wish(m.calls + 1).sessions, |m'.sessions|) && m'.calls == m.calls + 2
    ensures m'.deliverables == m.deliverables
  {
    hide AfterRound;
    Round(depth, wish, m, SessionFact, status, 1);
    ShownAfterRound(wish, big, m, SessionFact, status);
    m' := AfterRound(wish, m, SessionFact, status);
  }

  lemma CopyRound(depth: nat, wish: nat -> Seen, big: nat, m: Memory, kind: Kind, status: Status) returns (m': Memory)
    requires InBounds(m) && m.seen.sessions <= wish(m.calls).sessions && (kind.ResultCopy? || kind.SessionCopy?)
    ensures InBounds(m') && Write(Obliging(depth, wish), m, kind, status) == (m', true)
    ensures m'.results == m.results && m'.sessions == m.sessions && m'.seen.results >= m.seen.results
    ensures m'.seen.sessions == Least(wish(m.calls).sessions, |m'.sessions|) && m'.calls == m.calls + 1
    ensures m'.deliverables == m.deliverables
  {
    CopyWritten(depth, wish, m, kind, status);
    m' := Appended(Look(m, wish(m.calls)), kind, status).(calls := m.calls + 1);
  }

  function DeliverableCalls(m: Memory, o: Outcome): nat {
    if !o.deliverableRequired then 0 else if m.deliverables > 0 then 1 else 3
  }

  lemma DeliverableRound(depth: nat, wish: nat -> Seen, big: nat, m: Memory, o: Outcome, v: nat) returns (m': Memory)
    requires InBounds(m) && ShowsAll(wish, big) && |m.results| < big && m.deliverables + 1 < big
    requires m.seen.sessions <= v && forall n | m.calls <= n < m.calls + 3 :: wish(n).sessions == v
    requires o.deliverableRequired && o.localCli ==> m.deliverables > 0
    ensures InBounds(m') && ResolveDeliverable(Obliging(depth, wish), m, o) == (m', true)
    ensures m'.results == m.results && m'.sessions == m.sessions && m'.deliverables <= m.deliverables + 1
    ensures m'.calls == m.calls + DeliverableCalls(m, o) && m'.seen.sessions <= v
  {
    m' := m;
    if o.deliverableRequired {
      assert wish(m.calls).deliverables >= big;
      ObligingQuery(depth, wish, m, DeliverableFact, o.status);
      var m1 := Look(m, wish(m.calls)).(calls := m.calls + 1);
      LookInBounds(m, wish(m.calls));
      m' := m1;
      if m.deliverables == 0 {
        Round(depth, wish, m1, DeliverableFact, o.status, 1);
        ShownAfterRound(wish, big, m1, DeliverableFact, o.status);
        m' := AfterRound(wish, m1, DeliverableFact, o.status);
      }
    }
  }

  /** The calls from the result to the verification of the final session. */
  function FinalCalls(copied: bool): nat {
    if copied then 4 else 3
  }

  /** The result and the final session, each listed when it is verified; `w` are visible when that is copied. */
  lemma FinalSteps(
      depth: nat, wish: nat -> Seen, big: nat, m: Memory, status: Status, copied: bool, v: nat, w: nat)
    returns (m': Memory)
    requires InBounds(m) && ShowsAll(wish, big) && |m.results| + 1 < big && m.deliverables < big && depth > 0
    requires m.seen.sessions <= v <= w && wish(m.calls + FinalCalls(copied) + 1).sessions == w
    requires forall n | m.calls <= n <= m.calls + FinalCalls(copied) :: wish(n).sessions == v
    requires Listed(m.sessions + [status], Least(v, |m.sessions| + 1), Limit(depth), status)
    ensures InBounds(m') && PersistResultAndSession(Obliging(depth, wish), m, status, copied) == (m', true)
    ensures m'.sessions == m.sessions + [status] && m'.seen.sessions == Least(w, |m'.sessions|)
    ensures m'.seen.results > 0
  {
    hide PersistVerified, Listed, Write, ShowsAll;
    var m1 := ResultRound(depth, wish, big, m, status);
    if copied {
      m1 := CopyRound(depth, wish, big, m1, ResultCopy, status);
    }
    var m2 := SessionRound(depth, wish, big, m1, status);
    m' := CopyRound(depth, wish, big, m2, SessionCopy, status);
  }

  /** Everything is shown but sessions: `u` up to call `a`, `v` up to call `b`, and `w` from then on. */
  function Showing(big: nat, a: nat, u: nat, b: nat, v: nat, w: nat): nat -> Seen {
    (n: nat) => Seen(big, if n <= a then u else if n <= b then v else w, big, big, big)
  }

  /** The steps of an outcome with a result: the anchor is verified with `u` sessions visible. */
  lemma StepsWithResult(depth: nat, m: Memory, o: Outcome, u: nat, v: nat, w: nat) returns (env: MemoryEnv, m': Memory)
    requires InBounds(m) && o.result.Some? && CanBePersisted(m, o) && m.seen.sessions <= u <= v <= w && depth > 0
    requires Listed(m.sessions + [Running], Least(u, |m.sessions| + 1), Limit(depth), Running)
    requires Listed(m.sessions + [Running] + [o.status], Least(v, |m.sessions| + 2), Limit(depth), o.status)
    ensures env.depth == depth && PersistResults(env, m, o) == (m', true) && InBounds(m')
    ensures m'.sessions == m.sessions + [Running] + [o.status] && m'.seen.sessions == Least(w, |m'.sessions|)
    ensures m'.seen.results > 0
  {
    hide PersistResultAndSession, PersistVerified, ResolveDeliverable, SanitizeTaskResult, Listed;
    var big := |m.results| + m.deliverables + 3;
    var d := m.calls + 2 + DeliverableCalls(m, o);
    var wish := Showing(big, m.calls + 1, u, d + 4, v, w);
    env := Obliging(depth, wish);
    var m1 := SessionRound(depth, wish, big, m, Running);
    var m2 := DeliverableRound(depth, wish, big, m1, o, v);
    m' := FinalSteps(depth, wish, big, m2, o.status, true, v, w);
  }

  /** The steps of an outcome without one. */
  lemma StepsWithoutResult(depth: nat, m: Memory, o: Outcome, v: nat, w: nat) returns (env: MemoryEnv, m': Memory)
    requires InBounds(m) && o.result.None? && EndsWithoutResult(o.status) && m.seen.sessions <= v <= w && depth > 0
    requires Listed(m.sessions + [o.status], Least(v, |m.sessions| + 1), Limit(depth), o.status)
    ensures env.depth == depth && PersistResults(env, m, o) == (m', true) && InBounds(m')
    ensures m'.sessions == m.sessions + [o.status] && m'.seen.sessions == Least(w, |m'.sessions|)
    ensures m'.seen.results > 0
  {
    hide PersistResultAndSession, Listed;
    var big := |m.results| + m.deliverables + 2;
    var wish := Showing(big, 0, v, m.calls + 3, v, w);
    env := Obliging(depth, wish);
    m' := FinalSteps(depth, wish, big, m, o.status, false, v, w);
  }

  // ---- When an outcome can be persisted ----

  lemma LastIsListed(versions: seq<Status>, status: Status, limit: nat)
    requires limit > 0
    ensures Listed(versions + [status], |versions| + 1, limit, status)
  {
    assert (versions + [status])[|versions|] == status;
  }

  /** Whatever memory holds, there is an environment in which the outcome is persisted if and only if its
      result, if any, is sanitized once more and a deliverable that only the external program could have
      written is there. */
  lemma CanBePersistedExactly(depth: nat, m: Memory, o: Outcome)
    requires Coherent(m, false) && Terminal(o.status) && (o.status.Done? ==> o.result.Some?) && InBounds(m) && depth > 0
    ensures CanBePersisted(m, o) <==> exists env: MemoryEnv :: env.depth == depth && PersistResults(env, m, o).1
  {
    hide PersistResults, SanitizeTaskResult, Listed, Coherent;
    if env: MemoryEnv :| env.depth == depth && PersistResults(env, m, o).1 {
      SuccessWasPossible(env, m, o);
    }
    if CanBePersisted(m, o) {
      var n := |m.sessions|;
      LastIsListed(m.sessions, Running, Limit(depth));
      LastIsListed(m.sessions, o.status, Limit(depth));
      LastIsListed(m.sessions + [Running], o.status, Limit(depth));
      if o.result.Some? {
        var env, m' := StepsWithResult(depth, m, o, n + 2, n + 2, n + 2);
      } else {
        var env, m' := StepsWithoutResult(depth, m, o, n + 1, n + 1);
      }
    }
  }

  // ---- When a success can mislead ----

  lemma OtherStatusIsRead(m: Memory, status: Status)
    requires Newest(m.sessions, m.seen.sessions).Some? && Newest(m.sessions, m.seen.sessions) != Some(status)
    requires InBounds(m) && m.seen.results > 0
    ensures StatusAt(m, m.seen) != status
  {
  }

  lemma CauseHasUnreadSuccess(depth: nat, m: Memory, o: Outcome) returns (env: MemoryEnv)
    requires InBounds(m) && Terminal(o.status) && (o.status.Done? ==> o.result.Some?)
    requires CanMislead(m, Limit(depth), o)
    ensures env.depth == depth && PersistResults(env, m, o).1
    ensures StatusAt(PersistResults(env, m, o).0, PersistResults(env, m, o).0.seen) != o.status
  {
    hide PersistResults, StatusAt, Listed, SanitizeTaskResult;
    var n, limit, m' := |m.sessions|, Limit(depth), m;
    if o.result.None? {
      var v: nat, w: nat :| MisleadsLater(m, v, w, limit, o.status);
      ListedNeedsOne(m.sessions, v, limit, o.status);
      ListedInPrefix(m.sessions, m.sessions + [o.status], v, limit, o.status);
      env, m' := StepsWithoutResult(depth, m, o, v, w);
    } else {
      var u: nat, v: nat :| MisleadsAfterAnchor(m, u, v, limit, o.status);
      var anchored := m.sessions + [Running];
      ListedNeedsOne(anchored, v, limit, o.status);
      ListedInPrefix(anchored, anchored + [o.status], v, limit, o.status);
      env, m' := StepsWithResult(depth, m, o, u, v, n + 1);
      assert m'.sessions[n] == Running;
    }
    OtherStatusIsRead(m', o.status);
  }

  /**
   Exactly when a successful `persist_results` can leave reader and writer in disagreement, over all
   environments in which queries list `depth` versions.
   */
  lemma AgreementFailsExactly(depth: nat, m: Memory, o: Outcome)
    requires Coherent(m, false) && Terminal(o.status) && (o.status.Done? ==> o.result.Some?) && InBounds(m)
    ensures CanMislead(m, Limit(depth), o) <==>
            exists env: MemoryEnv ::
              && env.depth == depth && PersistResults(env, m, o).1
              && StatusAt(PersistResults(env, m, o).0, PersistResults(env, m, o).0.seen) != o.status
  {
    hide PersistResults, StatusAt, CanMislead;
    if env: MemoryEnv :|
      && env.depth == depth && PersistResults(env, m, o).1
      && StatusAt(PersistResults(env, m, o).0, PersistResults(env, m, o).0.seen) != o.status
    {
      WriterAndReaderAgree(env, m, o, []);
    }
    if CanMislead(m, Limit(depth), o) {
      var env := CauseHasUnreadSuccess(depth, m, o);
    }
  }

  /** In particular there is no disagreement when no older session has the status, as for a fresh task, or when
      queries list only the newest version and every older session is visible already. */
  lemma NothingMisleads(depth: nat, m: Memory, o: Outcome)
    requires Terminal(o.status) && InBounds(m)
    requires NoVersionHas(m.sessions, o.status) || (depth <= 1 && m.seen.sessions == |m.sessions|)
    ensures !CanMislead(m, Limit(depth), o)
  {
    hide SanitizeTaskResult;
    var anchored := m.sessions + [Running];
    assert forall i | 0 <= i < |m.sessions| :: anchored[i] == m.sessions[i];
  }

  /** Writer and reader agree: without such a cause the status read after a success is the one written, and
      from then on. */
  lemma WriterAndReaderAgree(env: MemoryEnv, m: Memory, o: Outcome, later: seq<Seen>)
    requires Coherent(m, false) && Terminal(o.status) && (o.status.Done? ==> o.result.Some?) && InBounds(m)
    ensures
      var (m1, ok) := PersistResults(env, m, o);
      ok && !CanMislead(m, Limit(env.depth), o) ==>
        StatusAt(LookAll(m1, later), LookAll(m1, later).seen) == o.status
  {
    hide PersistResults, StatusAt, CanMislead, LookAll, Coherent;
    if PersistResults(env, m, o).1 {
      var p, v := PersistResultsStages(env, m, false, o);
      var m1 := PersistResults(env, m, o).0;
      LookAllKeepsCoherent(m1, false, later);
      var m2 := LookAll(m1, later);
      CoherentInBounds(m2, false);
      if Newest(m2.sessions, m2.seen.sessions) == Some(o.status) {
        NewestIsRead(m2, o.status);
      } else {
        UnreadSuccessHasCause(env, m, o, m2.seen.sessions);
      }
    }
  }

  // ---- A task that failed, was done, and failed again ----

  /** The first thirteen calls see everything; after them nothing new becomes visible. */
  function StaleWish(n: nat): Seen {
    if n < 13 then Seen(9, 9, 9, 9, 9) else NOTHING
  }

  const STALE := Obliging(QUERY_LIMIT, StaleWish)

  lemma StaleRound(m: Memory, kind: Kind, status: Status) returns (m': Memory)
    requires InBounds(m) && m.calls < 12 && |m.results| < 9 && |m.sessions| < 9
    requires kind.ResultFact? || kind.SessionFact?
    ensures InBounds(m') && PersistVerified(STALE, m, kind, status, 1) == (m', true)
    ensures m'.results == Appended(m, kind, status).results && m'.sessions == Appended(m, kind, status).sessions
    ensures m'.seen.results == |m'.results| && m'.seen.sessions == |m'.sessions| && m'.calls == m.calls + 2
  {
    Round(QUERY_LIMIT, StaleWish, m, kind, status, 1);
    m' := AfterRound(StaleWish, m, kind, status);
    assert kind.ResultFact? ==> m'.results[|m.results|] == status;
    assert kind.SessionFact? ==> m'.sessions[|m.sessions|] == status;
  }

  /** Copies do not matter here. */
  lemma StaleCopy(m: Memory, kind: Kind, status: Status) returns (m': Memory)
    requires InBounds(m) && (kind.ResultCopy? || kind.SessionCopy?)
    requires m.calls < 13 ==> m.seen.results == |m.results| && m.seen.sessions == |m.sessions|
    ensures InBounds(m') && Write(STALE, m, kind, status) == (m', true) && m'.calls == m.calls + 1
    ensures m'.results == m.results && m'.sessions == m.sessions
    ensures m'.seen.results == m.seen.results && m'.seen.sessions == m.seen.sessions
  {
    CopyWritten(QUERY_LIMIT, StaleWish, m, kind, status);
    m' := Appended(Look(m, StaleWish(m.calls)), kind, status).(calls := m.calls + 1);
  }

  lemma BlindRound(m: Memory, kind: Kind, status: Status) returns (m': Memory)
    requires InBounds(m) && m.calls >= 13 && IsVisible(STALE, m, kind, status)
    requires kind.ResultFact? || kind.SessionFact?
    ensures InBounds(m') && PersistVerified(STALE, m, kind, status, 1) == (m', true) && m'.calls == m.calls + 2
    ensures m'.results == Appended(m, kind, status).results && m'.sessions == Appended(m, kind, status).sessions
    ensures m'.seen.results == m.seen.results && m'.seen.sessions == m.seen.sessions
  {
    Round(QUERY_LIMIT, StaleWish, m, kind, status, 1);
    m' := AfterRound(StaleWish, m, kind, status);
    if kind.ResultFact? {
      ListedInPrefix(m.results, m'.results, m.seen.results, Limit(QUERY_LIMIT), status);
    } else {
      ListedInPrefix(m.sessions, m'.sessions, m.seen.sessions, Limit(QUERY_LIMIT), status);
    }
  }

  lemma FailedThenDone(done: Outcome) returns (m: Memory)
    requires done.status.Done? && done.result.Some? && SanitizeTaskResult(done.result.value).Accepted?
    requires !done.deliverableRequired
    ensures InBounds(m) && m.calls == 13 && m.seen.results == 2 && m.seen.sessions == 3
    ensures m.results == [Failed, Done] && m.sessions == [Failed, Running, Done]
    ensures
      var (m1, returned, ok) := FinishRun(STALE, EMPTY, Outcome(Failed, None, false, false));
      ok && FinishRun(STALE, m1, done) == (m, Done, true)
  {
    hide PersistVerified, SanitizeTaskResult, Write;
    var a := StaleRound(EMPTY, ResultFact, Failed);
    var b := StaleRound(a, SessionFact, Failed);
    var c := StaleCopy(b, SessionCopy, Failed);
    var d := StaleRound(c, SessionFact, Running);
    var e := StaleRound(d, ResultFact, Done);
    var f := StaleCopy(e, ResultCopy, Done);
    var g := StaleRound(f, SessionFact, Done);
    m := StaleCopy(g, SessionCopy, Done);
  }

  /**
   Such a cause arises from runs: a task that failed and was done is run again and fails, an older failed
   session passes for the new one, and the reader still sees what the run before left.
   */
  lemma StaleVersionsCanDisagree(done: Outcome)
    requires done.status.Done? && done.result.Some? && SanitizeTaskResult(done.result.value).Accepted?
    requires !done.deliverableRequired
    ensures
      var failed := Outcome(Failed, None, false, false);
      var m1 := FinishRun(STALE, EMPTY, failed).0;
      var m2 := FinishRun(STALE, m1, done).0;
      var (m3, returned, ok) := FinishRun(STALE, m2, failed);
      CanMislead(m2, Limit(QUERY_LIMIT), failed) && ok && returned.Failed? && StatusAt(m3, m3.seen).Done?
  {
    hide PersistVerified, SanitizeTaskResult, Write;
    var m := FailedThenDone(done);
    assert m.results[0] == Failed && m.sessions[0] == Failed && m.sessions[2] == Done;
    assert MisleadsLater(m, 3, 3, Limit(QUERY_LIMIT), Failed);
    var a := BlindRound(m, ResultFact, Failed);
    assert a.sessions[0] == Failed;
    var b := BlindRound(a, SessionFact, Failed);
    var c := StaleCopy(b, SessionCopy, Failed);
  }
}
