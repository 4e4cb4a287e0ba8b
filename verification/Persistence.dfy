/**
 How the outcome of a run is persisted (`persist_results` and its helpers, src/agent/run.rs) and what a
 reader sees meanwhile.

 Memory keeps versions of the result and the session of a task under stable ids, and plain copies of
 them under ids of their own, which are written without verification and have no status. A written
 version becomes visible later, in the order of writing, and a failed call may or may not have taken
 effect. All of that is decided by `MemoryEnv`; `history` records every state of visibility passed
 through.
 */
module Persistence {
  import opened Wrappers
  import opened Sanitizer
  import opened StatusReader
  import opened TaskStatus

  const PERSIST_VISIBILITY_ATTEMPTS := 3
  const QUERY_LIMIT := 5

  datatype Kind = ResultFact | SessionFact | DeliverableFact | ResultCopy | SessionCopy

  /** How many versions of each kind are visible. */
  datatype Seen = Seen(results: nat, sessions: nat, deliverables: nat, resultCopies: nat, sessionCopies: nat)

  const NOTHING := Seen(0, 0, 0, 0, 0)

  /** A copy of a session says in its text which status it was written with. */
  datatype Memory = Memory(
    results: seq<Status>, sessions: seq<Status>, deliverables: nat, resultCopies: nat, sessionCopies: seq<Status>,
    seen: Seen, history: seq<Seen>, calls: nat)

  const EMPTY := Memory([], [], 0, 0, [], NOTHING, [NOTHING], 0)

  datatype MemoryEnv = MemoryEnv(
    depth: nat,                  // how many versions of a fact a query lists
    answers: nat -> bool,        // the n-th call succeeds
    takesEffect: nat -> bool,    // the n-th call is carried out although it fails
    looks: nat -> seq<Seen>)     // how visibility moves before the n-th call

  function Clip(low: nat, wish: nat, high: nat): nat {
    if wish < low then low else if wish > high && high >= low then high else if high < low then low else wish
  }

  function Look(m: Memory, wish: Seen): Memory {
    var seen := Seen(Clip(m.seen.results, wish.results, |m.results|),
                     Clip(m.seen.sessions, wish.sessions, |m.sessions|),
                     Clip(m.seen.deliverables, wish.deliverables, m.deliverables),
                     Clip(m.seen.resultCopies, wish.resultCopies, m.resultCopies),
                     Clip(m.seen.sessionCopies, wish.sessionCopies, |m.sessionCopies|));
    m.(seen := seen, history := m.history + [seen])
  }

  function LookAll(m: Memory, wishes: seq<Seen>): Memory
    decreases |wishes|
  {
    if wishes == [] then m else LookAll(Look(m, wishes[0]), wishes[1..])
  }

  // ---- Calls to memory ----

  function Appended(m: Memory, kind: Kind, status: Status): Memory {
    match kind
    case ResultFact => m.(results := m.results + [status])
    case SessionFact => m.(sessions := m.sessions + [status])
    case DeliverableFact => m.(deliverables := m.deliverables + 1)
    case ResultCopy => m.(resultCopies := m.resultCopies + 1)
    case SessionCopy => m.(sessionCopies := m.sessionCopies + [status])
  }

  function Write(env: MemoryEnv, m: Memory, kind: Kind, status: Status): (Memory, bool) {
    var m1 := LookAll(m, env.looks(m.calls));
    var m2 := if env.answers(m.calls) || env.takesEffect(m.calls) then Appended(m1, kind, status) else m1;
    (m2.(calls := m.calls + 1), env.answers(m.calls))
  }

  /** Some listed version has the expected status. */
  predicate Listed(versions: seq<Status>, seen: nat, limit: nat, expected: Status)
    requires seen <= |versions|
  {
    exists k: nat :: k < seen && seen <= k + limit && versions[k] == expected
  }

  /** How many versions a verification query lists. */
  function Limit(depth: nat): nat {
    if depth < QUERY_LIMIT then depth else QUERY_LIMIT
  }

  predicate InBounds(m: Memory) {
    && m.seen.results <= |m.results| && m.seen.sessions <= |m.sessions| && m.seen.deliverables <= m.deliverables
    && m.seen.resultCopies <= m.resultCopies && m.seen.sessionCopies <= |m.sessionCopies|
    && m.history != [] && m.history[|m.history| - 1] == m.seen
  }

  predicate IsVisible(env: MemoryEnv, m: Memory, kind: Kind, expected: Status)
    requires InBounds(m)
  {
    match kind
    case ResultFact => Listed(m.results, m.seen.results, Limit(env.depth), expected)
    case SessionFact => Listed(m.sessions, m.seen.sessions, Limit(env.depth), expected)
    case DeliverableFact => m.seen.deliverables > 0
    case ResultCopy => m.seen.resultCopies > 0
    case SessionCopy => Listed(m.sessionCopies, m.seen.sessionCopies, Limit(env.depth), expected)
  }

  lemma {:induction false} LookAllInBounds(m: Memory, wishes: seq<Seen>)
    requires InBounds(m)
    ensures InBounds(LookAll(m, wishes))
    decreases |wishes|
  {
    if wishes != [] {
      LookAllInBounds(Look(m, wishes[0]), wishes[1..]);
    }
  }

  lemma {:induction false} LooksKeepVersions(m: Memory, wishes: seq<Seen>)
    ensures
      var m' := LookAll(m, wishes);
      && m'.sessions == m.sessions && m'.results == m.results && m'.deliverables == m.deliverables
      && m'.resultCopies == m.resultCopies && m'.sessionCopies == m.sessionCopies
    decreases |wishes|
  {
    if wishes != [] {
      LooksKeepVersions(Look(m, wishes[0]), wishes[1..]);
    }
  }

  /** The verification query; none if the call fails. */
  function Query(env: MemoryEnv, m: Memory, kind: Kind, expected: Status): (Memory, Option<bool>)
    requires InBounds(m)
  {
    LookAllInBounds(m, env.looks(m.calls));
    var m1 := LookAll(m, env.looks(m.calls));
    (m1.(calls := m.calls + 1),
     if env.answers(m.calls) then Some(IsVisible(env, m1, kind, expected)) else None)
  }

  lemma WriteInBounds(env: MemoryEnv, m: Memory, kind: Kind, status: Status)
    requires InBounds(m)
    ensures InBounds(Write(env, m, kind, status).0)
  {
    LookAllInBounds(m, env.looks(m.calls));
  }

  lemma QueryInBounds(env: MemoryEnv, m: Memory, kind: Kind, expected: Status)
    requires InBounds(m)
    ensures InBounds(Query(env, m, kind, expected).0)
  {
    LookAllInBounds(m, env.looks(m.calls));
  }

  /** Writes until the status is seen, three times at most; a failed write ends it at once. */
  function PersistVerified(env: MemoryEnv, m: Memory, kind: Kind, status: Status, attempt: nat)
    : (r: (Memory, bool))
    requires InBounds(m)
    ensures InBounds(r.0)
    decreases PERSIST_VISIBILITY_ATTEMPTS - attempt
  {
    WriteInBounds(env, m, kind, status);
    var (m1, ok) := Write(env, m, kind, status);
    if !ok then (m1, false)
    else
      QueryInBounds(env, m1, kind, status);
      var (m2, found) := Query(env, m1, kind, status);
      if found == Some(true) then (m2, true)
      else if attempt < PERSIST_VISIBILITY_ATTEMPTS then PersistVerified(env, m2, kind, status, attempt + 1)
      else (m2, false)
  }

  // ---- Persisting a finished run ----

  /** What the run leaves to be persisted. */
  datatype Outcome = Outcome(status: Status, result: Option<string>, deliverableRequired: bool, localCli: bool)

  predicate EndsWithoutResult(status: Status) {
    status.Failed? || status.PartialBudgetOverdraw? || status.TooComplex?
  }

  function ResolveDeliverable(env: MemoryEnv, m: Memory, o: Outcome): (r: (Memory, bool))
    requires InBounds(m)
    ensures InBounds(r.0)
  {
    if !o.deliverableRequired then (m, true)
    else
      QueryInBounds(env, m, DeliverableFact, o.status);
      var (m1, found) := Query(env, m, DeliverableFact, o.status);
      if found.None? then (m1, false)
      else if found.value then (m1, true)
      else if o.localCli then (m1, false)
      else PersistVerified(env, m1, DeliverableFact, o.status, 1)
  }

  /** A result; one that the model gave is also copied, whether or not the copy succeeds. */
  function PersistResult(env: MemoryEnv, m: Memory, status: Status, copied: bool): (r: (Memory, bool))
    requires InBounds(m)
    ensures InBounds(r.0)
  {
    var (m1, ok) := PersistVerified(env, m, ResultFact, status, 1);
    if !ok || !copied then (m1, ok)
    else
      WriteInBounds(env, m1, ResultCopy, status);
      (Write(env, m1, ResultCopy, status).0, true)
  }

  /** The final session and its copy. */
  function PersistSession(env: MemoryEnv, m: Memory, status: Status): (r: (Memory, bool))
    requires InBounds(m)
    ensures InBounds(r.0)
  {
    var (m1, ok) := PersistVerified(env, m, SessionFact, status, 1);
    if !ok then (m1, false)
    else
      WriteInBounds(env, m1, SessionCopy, status);
      (Write(env, m1, SessionCopy, status).0, true)
  }

  function PersistResultAndSession(env: MemoryEnv, m: Memory, status: Status, copied: bool): (r: (Memory, bool))
    requires InBounds(m)
    ensures InBounds(r.0)
  {
    var (m1, ok) := PersistResult(env, m, status, copied);
    if !ok then (m1, false) else PersistSession(env, m1, status)
  }

  /** With a result: the running anchor, the deliverable, the result, the final session. */
  function PersistWithResult(env: MemoryEnv, m: Memory, o: Outcome): (r: (Memory, bool))
    requires InBounds(m)
    ensures InBounds(r.0)
  {
    var (m1, anchored) := PersistVerified(env, m, SessionFact, Running, 1);
    if !anchored then (m1, false)
    else
      var (m2, resolved) := ResolveDeliverable(env, m1, o);
      if !resolved then (m2, false) else PersistResultAndSession(env, m2, o.status, true)
  }

  function PersistResults(env: MemoryEnv, m: Memory, o: Outcome): (r: (Memory, bool))
    requires InBounds(m)
    ensures InBounds(r.0)
  {
    if o.result.Some? then
      if SanitizeTaskResult(o.result.value).Rejected? then (m, false) else PersistWithResult(env, m, o)
    else if EndsWithoutResult(o.status) then PersistResultAndSession(env, m, o.status, false)
    else PersistSession(env, m, o.status)
  }

  /** The end of a run: a run that is done but could not be persisted is persisted as failed instead.
      Yields the memory, the status returned, and whether the last attempt to persist succeeded. */
  function FinishRun(env: MemoryEnv, m: Memory, o: Outcome): (r: (Memory, Status, bool))
    requires InBounds(m)
    ensures InBounds(r.0)
  {
    var (m1, ok) := PersistResults(env, m, o);
    if !ok && o.status.Done? then
      var (m2, remedied) := PersistResults(env, m1, o.(status := Failed));
      (m2, Failed, remedied)
    else (m1, o.status, ok)
  }

  // ---- What a reader sees ----

  function Newest(versions: seq<Status>, n: nat): Option<Status> {
    if 0 < n <= |versions| then Some(versions[n - 1]) else None
  }

  /** The moments of a reader's queries, in their order: result, session, deliverable and then, if they
      are needed, the copy of the result and the copy of the session. */
  datatype Reading = Reading(result: nat, session: nat, deliverable: nat, resultCopy: nat, sessionCopy: nat)

  predicate InOrder(m: Memory, q: Reading) {
    q.result <= q.session <= q.deliverable <= q.resultCopy <= q.sessionCopy < |m.history|
  }

  function StatusFrom(m: Memory, result: Seen, session: Seen, deliverable: Seen, resultCopy: Seen, sessionCopy: Seen)
    : Status
  {
    Effective(Newest(m.results, result.results), resultCopy.resultCopies > 0,
              Newest(m.sessions, session.sessions), Newest(m.sessionCopies, sessionCopy.sessionCopies),
              deliverable.deliverables > 0)
  }

  /** The status that a reader is told. */
  function Told(m: Memory, q: Reading): Status
    requires InOrder(m, q)
  {
    StatusFrom(m, m.history[q.result], m.history[q.session], m.history[q.deliverable], m.history[q.resultCopy],
               m.history[q.sessionCopy])
  }

  /** The status that is told when all queries find the same state of memory. */
  function StatusAt(m: Memory, s: Seen): Status {
    StatusFrom(m, s, s, s, s, s)
  }

  predicate Leq(a: Seen, b: Seen) {
    && a.results <= b.results && a.sessions <= b.sessions && a.deliverables <= b.deliverables
    && a.resultCopies <= b.resultCopies && a.sessionCopies <= b.sessionCopies
  }

  ghost predicate Monotone(history: seq<Seen>) {
    forall i, j | 0 <= i <= j < |history| :: Leq(history[i], history[j])
  }

  // ---- A done session never becomes visible before a result ----

  /** What is visible makes sense: no done session without a result, no done result without a session,
      no copy without a session, and, where every result was anchored, no result at all without one. */
  ghost predicate CoherentAt(m: Memory, anchored: bool, s: Seen) {
    && (Newest(m.sessions, s.sessions) == Some(Done) ==> s.results > 0)
    && (s.sessions == 0 ==> Newest(m.results, s.results) != Some(Done))
    && (s.sessions == 0 ==> s.resultCopies == 0 && s.sessionCopies == 0)
    && (anchored && s.results > 0 ==> s.sessions > 0)
  }

  /** It made sense at every moment so far, and will, however visibility moves on. */
  ghost predicate Coherent(m: Memory, anchored: bool) {
    && InBounds(m) && Monotone(m.history)
    && (forall k | 0 <= k < |m.history| :: CoherentAt(m, anchored, m.history[k]))
    && (forall i | m.seen.sessions <= i < |m.sessions| :: m.sessions[i].Done? ==> m.seen.results > 0)
    && (m.seen.sessions == 0 ==> forall i | m.seen.results <= i < |m.results| :: !m.results[i].Done?)
    && (m.seen.sessions == 0 ==> m.resultCopies == 0 && m.sessionCopies == [])
    && (anchored && m.seen.sessions == 0 ==> m.results == [])
  }

  /** `m'` came from `m` by looking around. */
  ghost predicate Looked(m: Memory, m': Memory) {
    && m'.results == m.results && m'.sessions == m.sessions && m'.deliverables == m.deliverables
    && m'.resultCopies == m.resultCopies && m'.sessionCopies == m.sessionCopies
    && Leq(m.seen, m'.seen)
  }

  lemma LookKeepsCoherent(m: Memory, anchored: bool, wish: Seen)
    requires Coherent(m, anchored)
    ensures Coherent(Look(m, wish), anchored) && Looked(m, Look(m, wish))
  {
    var m' := Look(m, wish);
    var last := |m.history| - 1;
    assert m.history[last] == m.seen;
    assert CoherentAt(m, anchored, m.history[last]);
    assert CoherentAt(m', anchored, m'.seen);
    forall k | 0 <= k < |m'.history|
      ensures CoherentAt(m', anchored, m'.history[k]) && Leq(m'.history[k], m'.seen)
    {
      assert k <= last ==> CoherentAt(m, anchored, m.history[k]) && Leq(m.history[k], m.history[last]);
    }
  }

  lemma {:induction false} LookAllKeepsCoherent(m: Memory, anchored: bool, wishes: seq<Seen>)
    requires Coherent(m, anchored)
    ensures Coherent(LookAll(m, wishes), anchored) && Looked(m, LookAll(m, wishes))
    decreases |wishes|
  {
    hide Coherent, Look;
    if wishes != [] {
      LookKeepsCoherent(m, anchored, wishes[0]);
      LookAllKeepsCoherent(Look(m, wishes[0]), anchored, wishes[1..]);
    }
  }

  ghost predicate Extends(before: seq<Status>, after: seq<Status>, status: Status) {
    && |before| <= |after| && after[..|before|] == before
    && (forall i | |before| <= i < |after| :: after[i] == status)
  }

  /** From `m` to `m'` only versions of one kind were written, all with one status. */
  ghost predicate Grew(m: Memory, m': Memory, kind: Kind, status: Status) {
    && (if kind.ResultFact? then Extends(m.results, m'.results, status) else m'.results == m.results)
    && (if kind.SessionFact? then Extends(m.sessions, m'.sessions, status) else m'.sessions == m.sessions)
    && (if kind.DeliverableFact? then m.deliverables <= m'.deliverables else m'.deliverables == m.deliverables)
    && (if kind.ResultCopy? then m.resultCopies <= m'.resultCopies else m'.resultCopies == m.resultCopies)
    && (if kind.SessionCopy? then Extends(m.sessionCopies, m'.sessionCopies, status)
        else m'.sessionCopies == m.sessionCopies)
    && Leq(m.seen, m'.seen)
  }

  lemma GrewTwice(a: Memory, b: Memory, c: Memory, kind: Kind, status: Status)
    requires Grew(a, b, kind, status) && Grew(b, c, kind, status)
    ensures Grew(a, c, kind, status)
  {
    if kind.ResultFact? {
      ExtendsTwice(a.results, b.results, c.results, status);
    } else if kind.SessionFact? {
      ExtendsTwice(a.sessions, b.sessions, c.sessions, status);
    } else if kind.SessionCopy? {
      ExtendsTwice(a.sessionCopies, b.sessionCopies, c.sessionCopies, status);
    }
  }

  lemma ExtendsTwice(a: seq<Status>, b: seq<Status>, c: seq<Status>, status: Status)
    requires Extends(a, b, status) && Extends(b, c, status)
    ensures Extends(a, c, status)
  {
    assert c[..|a|] == c[..|b|][..|a|];
    forall i | |a| <= i < |c|
      ensures c[i] == status
    {
      assert i < |b| ==> c[i] == c[..|b|][i];
    }
  }

  /** A version that would make the reader say "done", an anchored result, or a copy may be written. */
  ghost predicate MayWrite(m: Memory, anchored: bool, kind: Kind, status: Status) {
    && (kind.SessionFact? && status.Done? ==> m.seen.results > 0)
    && (kind.ResultFact? && (status.Done? || anchored) ==> m.seen.sessions > 0)
    && (kind.ResultCopy? || kind.SessionCopy? ==> m.seen.sessions > 0)
  }

  lemma AppendKeepsCoherent(m: Memory, anchored: bool, kind: Kind, status: Status)
    requires Coherent(m, anchored) && MayWrite(m, anchored, kind, status)
    ensures Coherent(Appended(m, kind, status), anchored) && Grew(m, Appended(m, kind, status), kind, status)
  {
    var m' := Appended(m, kind, status);
    forall k | 0 <= k < |m.history|
      ensures CoherentAt(m', anchored, m.history[k])
    {
      assert CoherentAt(m, anchored, m.history[k]);
      assert Leq(m.history[k], m.history[|m.history| - 1]);
    }
  }

  lemma LookedGrew(m: Memory, m': Memory, kind: Kind, status: Status)
    requires Looked(m, m')
    ensures Grew(m, m', kind, status)
  {
  }

  lemma CountedCoherent(m: Memory, anchored: bool, calls: nat)
    requires Coherent(m, anchored)
    ensures Coherent(m.(calls := calls), anchored)
  {
    var m' := m.(calls := calls);
    forall k | 0 <= k < |m.history|
      ensures CoherentAt(m', anchored, m'.history[k])
    {
      assert CoherentAt(m, anchored, m.history[k]);
    }
  }

  lemma WriteKeepsCoherent(env: MemoryEnv, m: Memory, anchored: bool, kind: Kind, status: Status)
    requires Coherent(m, anchored) && MayWrite(m, anchored, kind, status)
    ensures
      var m' := Write(env, m, kind, status).0;
      Coherent(m', anchored) && Grew(m, m', kind, status)
  {
    hide Coherent, LookAll, CoherentAt;
    LookAllKeepsCoherent(m, anchored, env.looks(m.calls));
    var m1 := LookAll(m, env.looks(m.calls));
    LookedGrew(m, m1, kind, status);
    AppendKeepsCoherent(m1, anchored, kind, status);
    GrewTwice(m, m1, Appended(m1, kind, status), kind, status);
    CountedCoherent(m1, anchored, m.calls + 1);
    CountedCoherent(Appended(m1, kind, status), anchored, m.calls + 1);
  }

  lemma QueryKeepsCoherent(env: MemoryEnv, m: Memory, anchored: bool, kind: Kind, expected: Status)
    requires Coherent(m, anchored)
    ensures
      var (m', found) := Query(env, m, kind, expected);
      && Coherent(m', anchored) && Looked(m, m')
      && (found == Some(true) ==> IsVisible(env, m', kind, expected))
  {
    hide LookAll, CoherentAt;
    LookAllKeepsCoherent(m, anchored, env.looks(m.calls));
    CountedCoherent(LookAll(m, env.looks(m.calls)), anchored, m.calls + 1);
  }

  lemma CoherentInBounds(m: Memory, anchored: bool)
    requires Coherent(m, anchored)
    ensures InBounds(m)
  {
  }

  lemma {:induction false} PersistKeepsCoherent(
      env: MemoryEnv, m: Memory, anchored: bool, kind: Kind, status: Status, attempt: nat)
    requires Coherent(m, anchored) && MayWrite(m, anchored, kind, status)
    ensures InBounds(m)
    ensures
      var (m', ok) := PersistVerified(env, m, kind, status, attempt);
      && Coherent(m', anchored) && Grew(m, m', kind, status) && InBounds(m')
      && (ok ==> IsVisible(env, m', kind, status))
    decreases PERSIST_VISIBILITY_ATTEMPTS - attempt
  {
    hide Coherent, Write, Query, IsVisible, Grew, CoherentAt;
    CoherentInBounds(m, anchored);
    WriteKeepsCoherent(env, m, anchored, kind, status);
    var (m1, ok) := Write(env, m, kind, status);
    WriteInBounds(env, m, kind, status);
    if ok {
      QueryKeepsCoherent(env, m1, anchored, kind, status);
      var (m2, found) := Query(env, m1, kind, status);
      QueryInBounds(env, m1, kind, status);
      LookedGrew(m1, m2, kind, status);
      GrewTwice(m, m1, m2, kind, status);
      if found != Some(true) && attempt < PERSIST_VISIBILITY_ATTEMPTS {
        MayWriteLater(m, m2, anchored, kind, status);
        PersistKeepsCoherent(env, m2, anchored, kind, status, attempt + 1);
        GrewTwice(m, m2, PersistVerified(env, m2, kind, status, attempt + 1).0, kind, status);
      }
    }
  }

  lemma MayWriteLater(m: Memory, m': Memory, anchored: bool, kind: Kind, status: Status)
    requires MayWrite(m, anchored, kind, status) && Grew(m, m', kind, status)
    ensures MayWrite(m', anchored, kind, status)
  {
  }

  // ---- One call of persist_results ----

  /** New sessions are running anchors up to version `p` and have the final status from there on; new
      results and copies have the final status, and no new copy of a session is visible yet. */
  ghost predicate TwoStage(m: Memory, m': Memory, p: nat, status: Status) {
    && |m.sessions| <= p <= |m'.sessions| && m'.sessions[..|m.sessions|] == m.sessions
    && (forall i | |m.sessions| <= i < p :: m'.sessions[i] == Running)
    && (forall i | p <= i < |m'.sessions| :: m'.sessions[i] == status)
    && Extends(m.results, m'.results, status) && Leq(m.seen, m'.seen)
    && Extends(m.sessionCopies, m'.sessionCopies, status) && m'.seen.sessionCopies <= |m.sessionCopies|
  }

  /** With `v` sessions visible the final status was listed; without that no session was copied. */
  ghost predicate Verified(depth: nat, m: Memory, m': Memory, ok: bool, status: Status, v: nat) {
    if ok then m.seen.sessions <= v <= m'.seen.sessions <= |m'.sessions| && Listed(m'.sessions, v, Limit(depth), status)
    else m'.sessionCopies == m.sessionCopies
  }

  lemma VisibleMeansSeen(env: MemoryEnv, m: Memory, kind: Kind, status: Status)
    requires InBounds(m) && IsVisible(env, m, kind, status)
    ensures kind.ResultFact? ==> m.seen.results > 0
    ensures kind.SessionFact? ==> m.seen.sessions > 0
  {
  }

  lemma ResultStage(env: MemoryEnv, m: Memory, anchored: bool, status: Status, copied: bool)
    requires Coherent(m, anchored) && MayWrite(m, anchored, ResultFact, status) && (copied ==> m.seen.sessions > 0)
    ensures InBounds(m)
    ensures
      var (m', ok) := PersistResult(env, m, status, copied);
      && Coherent(m', anchored) && Extends(m.results, m'.results, status) && m'.sessions == m.sessions
      && m'.sessionCopies == m.sessionCopies && Leq(m.seen, m'.seen) && (ok ==> m'.seen.results > 0)
  {
    hide Coherent, PersistVerified, Write, IsVisible, CoherentAt;
    PersistKeepsCoherent(env, m, anchored, ResultFact, status, 1);
    var (m1, ok) := PersistVerified(env, m, ResultFact, status, 1);
    if ok {
      VisibleMeansSeen(env, m1, ResultFact, status);
      if copied {
        WriteKeepsCoherent(env, m1, anchored, ResultCopy, status);
      }
    }
  }

  lemma CopyIsNotSeenYet(env: MemoryEnv, m: Memory, anchored: bool, status: Status)
    requires Coherent(m, anchored)
    ensures Write(env, m, SessionCopy, status).0.seen.sessionCopies <= |m.sessionCopies|
  {
    hide Coherent;
    CoherentInBounds(m, anchored);
    LookAllKeepsCoherent(m, anchored, env.looks(m.calls));
    CoherentInBounds(LookAll(m, env.looks(m.calls)), anchored);
  }

  lemma SessionStage(env: MemoryEnv, m: Memory, anchored: bool, status: Status) returns (v: nat)
    requires Coherent(m, anchored) && MayWrite(m, anchored, SessionFact, status)
    ensures InBounds(m)
    ensures
      var (m', ok) := PersistSession(env, m, status);
      && Coherent(m', anchored) && TwoStage(m, m', |m.sessions|, status) && Verified(env.depth, m, m', ok, status, v)
  {
    hide Coherent, PersistVerified, Write, CoherentAt, Listed;
    CoherentInBounds(m, anchored);
    PersistKeepsCoherent(env, m, anchored, SessionFact, status, 1);
    var (m1, ok) := PersistVerified(env, m, SessionFact, status, 1);
    v := m1.seen.sessions;
    if ok {
      VisibleMeansSeen(env, m1, SessionFact, status);
      WriteKeepsCoherent(env, m1, anchored, SessionCopy, status);
      WriteInBounds(env, m1, SessionCopy, status);
      CopyIsNotSeenYet(env, m1, anchored, status);
    }
  }

  lemma ResultAndSessionStages(env: MemoryEnv, m: Memory, anchored: bool, status: Status, copied: bool)
    returns (v: nat)
    requires Coherent(m, anchored) && MayWrite(m, anchored, ResultFact, status) && (copied ==> m.seen.sessions > 0)
    ensures InBounds(m)
    ensures
      var (m', ok) := PersistResultAndSession(env, m, status, copied);
      && Coherent(m', anchored) && TwoStage(m, m', |m.sessions|, status) && Verified(env.depth, m, m', ok, status, v)
  {
    hide Coherent, PersistResult, PersistSession, CoherentAt, Listed;
    CoherentInBounds(m, anchored);
    v := 0;
    ResultStage(env, m, anchored, status, copied);
    var (m1, ok) := PersistResult(env, m, status, copied);
    if ok {
      v := SessionStage(env, m1, anchored, status);
    }
  }

  lemma ResolveKeepsCoherent(env: MemoryEnv, m: Memory, anchored: bool, o: Outcome)
    requires Coherent(m, anchored)
    ensures InBounds(m)
    ensures
      var m' := ResolveDeliverable(env, m, o).0;
      Coherent(m', anchored) && Grew(m, m', DeliverableFact, o.status)
  {
    hide Coherent, PersistVerified, Query, IsVisible, CoherentAt;
    CoherentInBounds(m, anchored);
    QueryKeepsCoherent(env, m, anchored, DeliverableFact, o.status);
    var m1 := Query(env, m, DeliverableFact, o.status).0;
    PersistKeepsCoherent(env, m1, anchored, DeliverableFact, o.status, 1);
  }

  /** The anchor is verified with `u` sessions visible, before the final session is with `v`. */
  lemma WithResultStages(env: MemoryEnv, m: Memory, anchored: bool, o: Outcome) returns (p: nat, u: nat, v: nat)
    requires Coherent(m, anchored)
    ensures InBounds(m)
    ensures
      var (m', ok) := PersistWithResult(env, m, o);
      && Coherent(m', anchored) && TwoStage(m, m', p, o.status) && Verified(env.depth, m, m', ok, o.status, v)
      && (ok ==> m.seen.sessions <= u <= v && u <= p && Listed(m'.sessions, u, Limit(env.depth), Running))
  {
    hide Coherent, PersistVerified, ResolveDeliverable, PersistResultAndSession, CoherentAt;
    CoherentInBounds(m, anchored);
    PersistKeepsCoherent(env, m, anchored, SessionFact, Running, 1);
    var (m1, anchor) := PersistVerified(env, m, SessionFact, Running, 1);
    p, u, v := |m1.sessions|, m1.seen.sessions, 0;
    if anchor {
      VisibleMeansSeen(env, m1, SessionFact, Running);
      ResolveKeepsCoherent(env, m1, anchored, o);
      var (m2, resolved) := ResolveDeliverable(env, m1, o);
      if resolved {
        v := ResultAndSessionStages(env, m2, anchored, o.status, true);
        var m3 := PersistResultAndSession(env, m2, o.status, true).0;
        StagesJoin(m, m2, m3, o.status);
        ListedInPrefix(m2.sessions, m3.sessions, u, Limit(env.depth), Running);
      }
    }
  }

  lemma ListedInPrefix(versions: seq<Status>, more: seq<Status>, seen: nat, limit: nat, expected: Status)
    requires seen <= |versions| <= |more| && more[..|versions|] == versions
    ensures Listed(more, seen, limit, expected) <==> Listed(versions, seen, limit, expected)
  {
    forall k: nat | k < seen
      ensures more[k] == versions[k]
    {
      assert more[k] == more[..|versions|][k];
    }
  }

  lemma StagesJoin(a: Memory, b: Memory, c: Memory, status: Status)
    requires Extends(a.sessions, b.sessions, Running) && a.results == b.results && Leq(a.seen, b.seen)
    requires a.sessionCopies == b.sessionCopies && TwoStage(b, c, |b.sessions|, status)
    ensures TwoStage(a, c, |b.sessions|, status)
  {
    assert c.sessions[..|a.sessions|] == c.sessions[..|b.sessions|][..|a.sessions|];
    forall i | |a.sessions| <= i < |b.sessions|
      ensures c.sessions[i] == Running
    {
      assert c.sessions[i] == c.sessions[..|b.sessions|][i];
    }
  }

  lemma PersistResultsStages(env: MemoryEnv, m: Memory, anchored: bool, o: Outcome) returns (p: nat, v: nat)
    requires Coherent(m, anchored)
    requires o.status.Done? || anchored ==> o.result.Some?
    ensures InBounds(m)
    ensures
      var (m', ok) := PersistResults(env, m, o);
      && Coherent(m', anchored) && TwoStage(m, m', p, o.status) && Verified(env.depth, m, m', ok, o.status, v)
      && (o.result.None? ==> p == |m.sessions|)
  {
    hide Coherent, PersistSession, PersistWithResult, PersistResultAndSession, Listed, SanitizeTaskResult, CoherentAt;
    CoherentInBounds(m, anchored);
    p, v := |m.sessions|, 0;
    if o.result.Some? {
      if SanitizeTaskResult(o.result.value).Accepted? {
        var u;
        p, u, v := WithResultStages(env, m, anchored, o);
      }
    } else if EndsWithoutResult(o.status) {
      v := ResultAndSessionStages(env, m, anchored, o.status, false);
    } else {
      v := SessionStage(env, m, anchored, o.status);
    }
  }

  // ---- What readers see of any run ----

  lemma FinishRunIsCoherent(env: MemoryEnv, m: Memory, anchored: bool, o: Outcome)
    requires Coherent(m, anchored) && (o.status.Done? || anchored ==> o.result.Some?)
    ensures InBounds(m) && Coherent(FinishRun(env, m, o).0, anchored)
  {
    hide Coherent, PersistResults, TwoStage, Verified;
    var p, v := PersistResultsStages(env, m, anchored, o);
    var (m1, ok) := PersistResults(env, m, o);
    if !ok && o.status.Done? {
      p, v := PersistResultsStages(env, m1, anchored, o.(status := Failed));
    }
  }

  /**
   Whatever fails or is delayed, and also when a done run has to be persisted again as failed: at
   every moment a reader that sees one state of memory reads the status of the newest visible
   session, or, before there is one, of the newest visible result, which is then not a done one. It
   reads "done" only when a result and a done session are both visible.
   */
  lemma SnapshotsAreConsistent(env: MemoryEnv, m: Memory, o: Outcome)
    requires Coherent(m, false) && (o.status.Done? ==> o.result.Some?)
    ensures InBounds(m)
    ensures
      var m' := FinishRun(env, m, o).0;
      forall k | 0 <= k < |m'.history| ::
        var h := m'.history[k];
        var session, result := Newest(m'.sessions, h.sessions), Newest(m'.results, h.results);
        && (session.Some? ==> StatusAt(m', h) == session.value)
        && (session.None? && result.Some? && h.sessions == 0 ==> StatusAt(m', h) == result.value != Done)
        && (StatusAt(m', h).Done? ==> session == Some(Done) && h.results > 0)
  {
    hide FinishRun;
    FinishRunIsCoherent(env, m, false, o);
    var m' := FinishRun(env, m, o).0;
    forall k | 0 <= k < |m'.history|
      ensures CoherentAt(m', false, m'.history[k])
      ensures m'.history[k].results <= |m'.results|
    {
      assert Leq(m'.history[k], m'.history[|m'.history| - 1]);
    }
  }

  /** A verification looks at the five newest visible versions, or at fewer if the service lists fewer. */
  lemma OldVersionsDoNotPass(env: MemoryEnv, m: Memory, expected: Status)
    requires InBounds(m)
    ensures IsVisible(env, m, SessionFact, expected) <==>
            exists k :: 0 <= k < m.seen.sessions && m.seen.sessions - 5 <= k && m.seen.sessions - env.depth <= k
                        && m.sessions[k] == expected
    ensures IsVisible(env, m, ResultFact, expected) <==>
            exists k :: 0 <= k < m.seen.results && m.seen.results - 5 <= k && m.seen.results - env.depth <= k
                        && m.results[k] == expected
  {
    if k :| 0 <= k < m.seen.sessions && m.seen.sessions - 5 <= k && m.seen.sessions - env.depth <= k
            && m.sessions[k] == expected {
      assert k >= 0 && m.seen.sessions <= k + Limit(env.depth);
    }
    if k :| 0 <= k < m.seen.results && m.seen.results - 5 <= k && m.seen.results - env.depth <= k
            && m.results[k] == expected {
      assert k >= 0 && m.seen.results <= k + Limit(env.depth);
    }
  }

  // ---- What a success leaves ----

  lemma ResolvedIsSeen(env: MemoryEnv, m: Memory, o: Outcome)
    requires Coherent(m, false) && InBounds(m) && o.deliverableRequired && ResolveDeliverable(env, m, o).1
    ensures ResolveDeliverable(env, m, o).0.seen.deliverables > 0
  {
    hide Coherent, PersistVerified, Write, CoherentAt;
    QueryKeepsCoherent(env, m, false, DeliverableFact, o.status);
    QueryInBounds(env, m, DeliverableFact, o.status);
    var (m1, found) := Query(env, m, DeliverableFact, o.status);
    if found == Some(false) && !o.localCli {
      PersistKeepsCoherent(env, m1, false, DeliverableFact, o.status, 1);
    }
  }

  /** How many versions there are of a kind. */
  function Versions(m: Memory, kind: Kind): nat {
    match kind
    case ResultFact => |m.results|
    case SessionFact => |m.sessions|
    case DeliverableFact => m.deliverables
    case ResultCopy => m.resultCopies
    case SessionCopy => |m.sessionCopies|
  }

  /** What is reported as persisted was written. */
  lemma {:induction false} PersistedIsWritten(env: MemoryEnv, m: Memory, kind: Kind, status: Status, attempt: nat)
    requires InBounds(m)
    ensures
      var (m', ok) := PersistVerified(env, m, kind, status, attempt);
      && Versions(m, kind) <= Versions(m', kind) && (ok ==> Versions(m, kind) < Versions(m', kind))
    decreases PERSIST_VISIBILITY_ATTEMPTS - attempt
  {
    hide LookAll, InBounds, IsVisible;
    LooksKeepVersions(m, env.looks(m.calls));
    WriteInBounds(env, m, kind, status);
    var (m1, ok) := Write(env, m, kind, status);
    if ok {
      LooksKeepVersions(m1, env.looks(m1.calls));
      QueryInBounds(env, m1, kind, status);
      var (m2, found) := Query(env, m1, kind, status);
      if found != Some(true) && attempt < PERSIST_VISIBILITY_ATTEMPTS {
        PersistedIsWritten(env, m2, kind, status, attempt + 1);
      }
    }
  }

  lemma ResultIsWritten(env: MemoryEnv, m: Memory, status: Status, copied: bool)
    requires InBounds(m) && PersistResult(env, m, status, copied).1
    ensures |PersistResult(env, m, status, copied).0.results| > |m.results|
  {
    hide PersistVerified, LookAll;
    PersistedIsWritten(env, m, ResultFact, status, 1);
    var m1 := PersistVerified(env, m, ResultFact, status, 1).0;
    LooksKeepVersions(m1, env.looks(m1.calls));
  }

  lemma SessionIsWritten(env: MemoryEnv, m: Memory, status: Status)
    requires InBounds(m) && PersistSession(env, m, status).1
    ensures |PersistSession(env, m, status).0.sessions| > |m.sessions|
    ensures PersistSession(env, m, status).0.results == PersistVerified(env, m, SessionFact, status, 1).0.results
  {
    hide PersistVerified, LookAll;
    PersistedIsWritten(env, m, SessionFact, status, 1);
    var m1 := PersistVerified(env, m, SessionFact, status, 1).0;
    LooksKeepVersions(m1, env.looks(m1.calls));
  }

  lemma ExtendsToEnd(before: seq<Status>, after: seq<Status>, status: Status)
    requires Extends(before, after, status) && |before| < |after|
    ensures Ends(before, after, status)
  {
  }

  lemma ResultAndSessionLeft(env: MemoryEnv, m: Memory, status: Status, copied: bool)
    requires Coherent(m, false) && MayWrite(m, false, ResultFact, status) && (copied ==> m.seen.sessions > 0)
    requires InBounds(m) && PersistResultAndSession(env, m, status, copied).1
    ensures
      var m' := PersistResultAndSession(env, m, status, copied).0;
      Ends(m.results, m'.results, status) && Ends(m.sessions, m'.sessions, status) && Leq(m.seen, m'.seen)
  {
    hide Coherent, PersistResult, PersistSession, CoherentAt, Listed;
    var v := ResultAndSessionStages(env, m, false, status, copied);
    ResultStage(env, m, false, status, copied);
    ResultIsWritten(env, m, status, copied);
    var m1 := PersistResult(env, m, status, copied).0;
    var w := SessionStage(env, m1, false, status);
    SessionIsWritten(env, m1, status);
    var m' := PersistResultAndSession(env, m, status, copied).0;
    ExtendsToEnd(m.results, m'.results, status);
    ExtendsToEnd(m.sessions, m'.sessions, status);
  }

  /**
   A success leaves what was asked for. For a result: a session that is running, the required deliverable, a
   result and at last a session with the status. For a failure without a result: both of them, and
   otherwise the session.
   */
  lemma SuccessLeavesAll(env: MemoryEnv, m: Memory, o: Outcome)
    requires Coherent(m, false) && (o.status.Done? ==> o.result.Some?) && InBounds(m) && PersistResults(env, m, o).1
    ensures
      var m' := PersistResults(env, m, o).0;
      && (o.result.Some? && o.deliverableRequired ==> m'.seen.deliverables > 0)
      && (o.result.Some? ==> |m'.sessions| > |m.sessions| + 1 && m'.sessions[|m.sessions|] == Running)
      && (o.result.Some? || EndsWithoutResult(o.status) ==> Ends(m.results, m'.results, o.status))
      && Ends(m.sessions, m'.sessions, o.status)
  {
    hide Coherent, PersistVerified, ResolveDeliverable, PersistResultAndSession, PersistSession, SanitizeTaskResult,
         CoherentAt, Listed, IsVisible;
    if o.result.Some? {
      PersistKeepsCoherent(env, m, false, SessionFact, Running, 1);
      PersistedIsWritten(env, m, SessionFact, Running, 1);
      var m1 := PersistVerified(env, m, SessionFact, Running, 1).0;
      VisibleMeansSeen(env, m1, SessionFact, Running);
      ResolveKeepsCoherent(env, m1, false, o);
      if o.deliverableRequired {
        ResolvedIsSeen(env, m1, o);
      }
      var m2 := ResolveDeliverable(env, m1, o).0;
      ResultAndSessionLeft(env, m2, o.status, true);
      AnchorIsKept(m.sessions, m2.sessions, PersistResults(env, m, o).0.sessions);
    } else if EndsWithoutResult(o.status) {
      ResultAndSessionLeft(env, m, o.status, false);
    } else {
      var v := SessionStage(env, m, false, o.status);
      SessionIsWritten(env, m, o.status);
      ExtendsToEnd(m.sessions, PersistSession(env, m, o.status).0.sessions, o.status);
    }
  }

  /** A run returns the status it ended with, except that "done" needs a session that was verified in its first
      attempt; otherwise it is "failed". */
  lemma ReturnsItsStatusExactly(env: MemoryEnv, m: Memory, o: Outcome)
    requires Coherent(m, false) && (o.status.Done? ==> o.result.Some?) && InBounds(m)
    ensures
      var (m', returned, ok) := FinishRun(env, m, o);
      && (!o.status.Done? ==> returned == o.status)
      && (o.status.Done? ==> returned == if Ends(m.sessions, m'.sessions, Done) && ok then Done else Failed)
  {
    hide PersistResults, Coherent;
    var p, v := PersistResultsStages(env, m, false, o);
    var (m1, ok) := PersistResults(env, m, o);
    if o.status.Done? {
      if ok {
        SuccessLeavesAll(env, m, o);
      } else {
        var failed := o.(status := Failed);
        var p', v' := PersistResultsStages(env, m1, false, failed);
        if PersistResults(env, m1, failed).1 {
          SuccessLeavesAll(env, m1, failed);
        }
      }
    }
  }

  /** A run that returns "done" has left its deliverable, result and session, from any history. */
  lemma DoneRunsLeaveAll(env: MemoryEnv, m: Memory, o: Outcome)
    requires Coherent(m, false) && (o.status.Done? ==> o.result.Some?) && InBounds(m) && FinishRun(env, m, o).1.Done?
    ensures
      var (m', _, ok) := FinishRun(env, m, o);
      && ok && (o.deliverableRequired ==> m'.seen.deliverables > 0)
      && Ends(m.results, m'.results, Done) && Ends(m.sessions, m'.sessions, Done)
  {
    hide PersistResults, Coherent;
    SuccessLeavesAll(env, m, o);
  }

  lemma {:induction false} PersistKeepsCopies(env: MemoryEnv, m: Memory, kind: Kind, status: Status, attempt: nat)
    requires InBounds(m) && !kind.ResultCopy? && !kind.SessionCopy?
    ensures
      var m' := PersistVerified(env, m, kind, status, attempt).0;
      m'.resultCopies == m.resultCopies && m'.sessionCopies == m.sessionCopies
    decreases PERSIST_VISIBILITY_ATTEMPTS - attempt
  {
    hide LookAll, InBounds, IsVisible;
    LooksKeepVersions(m, env.looks(m.calls));
    WriteInBounds(env, m, kind, status);
    var (m1, ok) := Write(env, m, kind, status);
    if ok {
      LooksKeepVersions(m1, env.looks(m1.calls));
      QueryInBounds(env, m1, kind, status);
      var (m2, found) := Query(env, m1, kind, status);
      if found != Some(true) && attempt < PERSIST_VISIBILITY_ATTEMPTS {
        PersistKeepsCopies(env, m2, kind, status, attempt + 1);
      }
    }
  }

  /** The copies that were to be written after persisting a result and a session: each is there unless the call
      that wrote it failed. */
  lemma CopiesOfSteps(env: MemoryEnv, m: Memory, status: Status, copied: bool)
    requires InBounds(m) && forall n: nat :: env.answers(n)
    ensures
      var (m', ok) := PersistResult(env, m, status, copied);
      ok ==> m'.resultCopies == m.resultCopies + (if copied then 1 else 0) && m'.sessionCopies == m.sessionCopies
    ensures
      var (m', ok) := PersistSession(env, m, status);
      ok ==> m'.resultCopies == m.resultCopies && m'.sessionCopies == m.sessionCopies + [status]
  {
    hide PersistVerified, LookAll;
    PersistKeepsCopies(env, m, ResultFact, status, 1);
    PersistKeepsCopies(env, m, SessionFact, status, 1);
    var m1, m2 := PersistVerified(env, m, ResultFact, status, 1).0, PersistVerified(env, m, SessionFact, status, 1).0;
    LooksKeepVersions(m1, env.looks(m1.calls));
    LooksKeepVersions(m2, env.looks(m2.calls));
  }

  /** When no call fails, a success leaves one more copy of the session, and of a result that the model gave. */
  lemma SuccessLeavesCopies(env: MemoryEnv, m: Memory, o: Outcome)
    requires InBounds(m) && PersistResults(env, m, o).1 && forall n: nat :: env.answers(n)
    ensures
      var m' := PersistResults(env, m, o).0;
      && m'.resultCopies == m.resultCopies + (if o.result.Some? then 1 else 0)
      && m'.sessionCopies == m.sessionCopies + [o.status]
  {
    hide PersistVerified, PersistResult, PersistSession, SanitizeTaskResult, LookAll, IsVisible, InBounds;
    if o.result.Some? {
      PersistKeepsCopies(env, m, SessionFact, Running, 1);
      var m1 := PersistVerified(env, m, SessionFact, Running, 1).0;
      if o.deliverableRequired {
        LooksKeepVersions(m1, env.looks(m1.calls));
        QueryInBounds(env, m1, DeliverableFact, o.status);
        PersistKeepsCopies(env, Query(env, m1, DeliverableFact, o.status).0, DeliverableFact, o.status, 1);
      }
      var m2 := ResolveDeliverable(env, m1, o).0;
      CopiesOfSteps(env, m2, o.status, true);
      CopiesOfSteps(env, PersistResult(env, m2, o.status, true).0, o.status, true);
    } else {
      CopiesOfSteps(env, m, o.status, false);
      CopiesOfSteps(env, PersistResult(env, m, o.status, false).0, o.status, false);
    }
  }

  lemma AnchorIsKept(before: seq<Status>, anchored: seq<Status>, after: seq<Status>)
    requires Extends(before, anchored, Running) && |before| < |anchored| && anchored <= after && |anchored| < |after|
    ensures |after| > |before| + 1 && before <= after && after[|before|] == Running
  {
    assert anchored[|before|] == after[|before|];
  }

  /** Memory after a number of rounds of writing and verifying, whatever is answered. */
  function AfterRounds(env: MemoryEnv, m: Memory, kind: Kind, status: Status, n: nat): (m': Memory)
    requires InBounds(m)
    ensures InBounds(m')
    decreases n
  {
    if n == 0 then m
    else
      var m1 := AfterRounds(env, m, kind, status, n - 1);
      WriteInBounds(env, m1, kind, status);
      QueryInBounds(env, Write(env, m1, kind, status).0, kind, status);
      Query(env, Write(env, m1, kind, status).0, kind, status).0
  }

  /** Round `n` is reached, as no write up to then failed, and its query finds the status. */
  predicate SeenInRound(env: MemoryEnv, m: Memory, kind: Kind, status: Status, n: nat)
    requires InBounds(m)
  {
    && (forall k: nat | k <= n :: Write(env, AfterRounds(env, m, kind, status, k), kind, status).1)
    && (var m1 := AfterRounds(env, m, kind, status, n);
        WriteInBounds(env, m1, kind, status);
        Query(env, Write(env, m1, kind, status).0, kind, status).1 == Some(true))
  }

  lemma {:induction false} RoundsShift(env: MemoryEnv, m: Memory, kind: Kind, status: Status, n: nat)
    requires InBounds(m)
    ensures InBounds(AfterRounds(env, m, kind, status, 1))
    ensures AfterRounds(env, AfterRounds(env, m, kind, status, 1), kind, status, n)
         == AfterRounds(env, m, kind, status, n + 1)
  {
    hide Write, Query, InBounds;
    if n > 0 {
      RoundsShift(env, m, kind, status, n - 1);
    }
  }

  lemma FirstRound(env: MemoryEnv, m: Memory, kind: Kind, status: Status)
    requires InBounds(m)
    ensures InBounds(Write(env, m, kind, status).0)
    ensures SeenInRound(env, m, kind, status, 0) <==>
            && Write(env, m, kind, status).1
            && Query(env, Write(env, m, kind, status).0, kind, status).1 == Some(true)
    ensures AfterRounds(env, m, kind, status, 1) == Query(env, Write(env, m, kind, status).0, kind, status).0
    ensures forall n: nat :: SeenInRound(env, m, kind, status, n) ==> Write(env, m, kind, status).1
  {
    hide Write, Query, InBounds;
    WriteInBounds(env, m, kind, status);
    assert AfterRounds(env, m, kind, status, 0) == m;
  }

  /** A fact is persisted exactly if one of the rounds that are left sees it before a write fails. */
  lemma {:induction false} PersistSucceedsExactly(
      env: MemoryEnv, m: Memory, kind: Kind, status: Status, attempt: nat)
    requires InBounds(m) && 1 <= attempt <= PERSIST_VISIBILITY_ATTEMPTS
    ensures PersistVerified(env, m, kind, status, attempt).1 <==>
            exists n: nat :: n + attempt <= PERSIST_VISIBILITY_ATTEMPTS && SeenInRound(env, m, kind, status, n)
    decreases PERSIST_VISIBILITY_ATTEMPTS - attempt
  {
    hide Write, Query, InBounds, SeenInRound, AfterRounds;
    FirstRound(env, m, kind, status);
    var m1 := AfterRounds(env, m, kind, status, 1);
    if Write(env, m, kind, status).1 && attempt < PERSIST_VISIBILITY_ATTEMPTS {
      forall n: nat
        ensures SeenInRound(env, m1, kind, status, n) <==> SeenInRound(env, m, kind, status, n + 1)
      {
        SeenShifts(env, m, kind, status, n);
      }
      PersistSucceedsExactly(env, m1, kind, status, attempt + 1);
      if n: nat :| n + attempt <= PERSIST_VISIBILITY_ATTEMPTS && SeenInRound(env, m, kind, status, n) {
        assert n > 0 ==> SeenInRound(env, m1, kind, status, n - 1);
      }
    }
  }

  lemma SeenShifts(env: MemoryEnv, m: Memory, kind: Kind, status: Status, n: nat)
    requires InBounds(m) && Write(env, m, kind, status).1
    ensures SeenInRound(env, AfterRounds(env, m, kind, status, 1), kind, status, n) <==>
            SeenInRound(env, m, kind, status, n + 1)
  {
    hide Write, Query, InBounds;
    var m1 := AfterRounds(env, m, kind, status, 1);
    assert AfterRounds(env, m, kind, status, 0) == m;
    forall k: nat
      ensures AfterRounds(env, m1, kind, status, k) == AfterRounds(env, m, kind, status, k + 1)
    {
      RoundsShift(env, m, kind, status, k);
    }
    if SeenInRound(env, m1, kind, status, n) {
      forall k: nat | k <= n + 1
        ensures Write(env, AfterRounds(env, m, kind, status, k), kind, status).1
      {
        assert k > 0 ==> AfterRounds(env, m1, kind, status, k - 1) == AfterRounds(env, m, kind, status, k);
      }
    }
  }

  /** The versions have got longer and end with `status`. */
  predicate Ends(before: seq<Status>, after: seq<Status>, status: Status) {
    before <= after && |before| < |after| && after[|after| - 1] == status
  }

  /** A task that has not been persisted before. A program that the run started may have left deliverables. */
  ghost predicate Fresh(m: Memory) {
    && InBounds(m) && Monotone(m.history)
    && m.results == [] && m.sessions == [] && m.resultCopies == 0 && m.sessionCopies == []
  }

  lemma FreshIsCoherent(m: Memory, anchored: bool)
    requires Fresh(m)
    ensures Coherent(m, anchored)
  {
    forall k | 0 <= k < |m.history|
      ensures CoherentAt(m, anchored, m.history[k])
    {
      assert Leq(m.history[k], m.history[|m.history| - 1]);
    }
  }

  predicate Terminal(status: Status) {
    status.Done? || EndsWithoutResult(status)
  }

  /** These are all statuses but those of a task that is not over, and all but "done" can do without a result. */
  lemma TerminalStatuses(status: Status)
    ensures Terminal(status) <==> status != Pending && status != Running
    ensures EndsWithoutResult(status) <==> Terminal(status) && status != Done
  {
  }

  /** How far a reader sees a task that ends with `final`. */
  function Rank(status: Status): nat {
    match status
    case Pending => 0
    case Running => 1
    case _ => 2
  }

  /** The versions of a task that has been persisted once, with `p` running anchors. */
  ghost predicate PersistedOnce(m: Memory, p: nat, status: Status) {
    && p <= |m.sessions|
    && (forall i | 0 <= i < p :: m.sessions[i] == Running)
    && (forall i | p <= i < |m.sessions| :: m.sessions[i] == status)
    && (forall i | 0 <= i < |m.results| :: m.results[i] == status)
  }

  lemma StatusByStage(m: Memory, anchored: bool, p: nat, status: Status, s: Seen)
    requires PersistedOnce(m, p, status) && Terminal(status) && (!anchored ==> p == 0)
    requires CoherentAt(m, anchored, s) && s.sessions <= |m.sessions| && s.results <= |m.results|
    ensures StatusAt(m, s) ==
      (if s.sessions > p || (s.sessions == 0 && s.results > 0) then status
       else if s.sessions > 0 || s.deliverables > 0 then Running
       else Pending)
  {
  }

  lemma StagesAdvance(m: Memory, anchored: bool, p: nat, status: Status, s: Seen, t: Seen)
    requires PersistedOnce(m, p, status) && Terminal(status) && (!anchored ==> p == 0) && Leq(s, t)
    requires CoherentAt(m, anchored, s) && s.sessions <= |m.sessions| && s.results <= |m.results|
    requires CoherentAt(m, anchored, t) && t.sessions <= |m.sessions| && t.results <= |m.results|
    ensures StatusAt(m, s) == Pending || StatusAt(m, s) == Running || StatusAt(m, s) == status
    ensures Rank(StatusAt(m, s)) <= Rank(StatusAt(m, t))
  {
    StatusByStage(m, anchored, p, status, s);
    StatusByStage(m, anchored, p, status, t);
  }

  lemma HistoryInBounds(m: Memory, anchored: bool, i: nat)
    requires Coherent(m, anchored) && i < |m.history|
    ensures CoherentAt(m, anchored, m.history[i])
    ensures m.history[i].sessions <= |m.sessions| && m.history[i].results <= |m.results|
  {
    assert Leq(m.history[i], m.history[|m.history| - 1]);
  }

  lemma TwoStageIsPersistedOnce(m: Memory, m': Memory, p: nat, status: Status)
    requires Fresh(m) && TwoStage(m, m', p, status)
    ensures PersistedOnce(m', p, status)
  {
  }

  /**
   A fresh task is seen as pending, then as active, then with its final status, and never steps back,
   by every reader that sees one state of memory, at every moment of the persistence sequence and
   afterwards, whether or not persisting succeeds. So a done task is never seen as failed.
   */
  lemma StatusesOnlyAdvance(env: MemoryEnv, m: Memory, o: Outcome, later: seq<Seen>, i: nat, j: nat)
    requires Fresh(m) && Terminal(o.status) && (o.status.Done? ==> o.result.Some?)
    requires i <= j < |LookAll(PersistResults(env, m, o).0, later).history|
    ensures
      var m' := LookAll(PersistResults(env, m, o).0, later);
      && StatusAt(m', m'.history[i]) in {Pending, Running, o.status}
      && Rank(StatusAt(m', m'.history[i])) <= Rank(StatusAt(m', m'.history[j]))
  {
    hide PersistResults, LookAll, Coherent, TwoStage, Verified, StatusAt, Terminal;
    var anchored := o.result.Some?;
    FreshIsCoherent(m, anchored);
    var p, v := PersistResultsStages(env, m, anchored, o);
    var m1 := PersistResults(env, m, o).0;
    LookAllKeepsCoherent(m1, anchored, later);
    var m' := LookAll(m1, later);
    TwoStageIsPersistedOnce(m, m1, p, o.status);
    HistoryInBounds(m', anchored, i);
    HistoryInBounds(m', anchored, j);
    HistoryIsMonotone(m', anchored, i, j);
    StagesAdvance(m', anchored, p, o.status, m'.history[i], m'.history[j]);
  }

  lemma HistoryIsMonotone(m: Memory, anchored: bool, i: nat, j: nat)
    requires Coherent(m, anchored) && i <= j < |m.history|
    ensures Leq(m.history[i], m.history[j])
  {
  }

  ghost predicate NoVersionHas(versions: seq<Status>, status: Status) {
    forall i | 0 <= i < |versions| :: versions[i] != status
  }

  /** A status that no earlier session has is the one read when `persist_results` succeeds, and from then on. */
  lemma NewStatusStaysRead(env: MemoryEnv, m: Memory, o: Outcome, later: seq<Seen>)
    requires Coherent(m, false) && Terminal(o.status) && (o.status.Done? ==> o.result.Some?)
    requires NoVersionHas(m.sessions, o.status)
    ensures InBounds(m)
    ensures
      var (m1, ok) := PersistResults(env, m, o);
      ok ==>
        && StatusAt(m1, m1.seen) == o.status
        && StatusAt(LookAll(m1, later), LookAll(m1, later).seen) == o.status
  {
    hide PersistResults, LookAll, Coherent, StatusAt;
    var p, v := PersistResultsStages(env, m, false, o);
    var (m1, ok) := PersistResults(env, m, o);
    CoherentInBounds(m1, false);
    if ok {
      assert forall i | 0 <= i < p :: m1.sessions[i] != o.status by {
        assert forall i | 0 <= i < |m.sessions| :: m1.sessions[i] == m1.sessions[..|m.sessions|][i];
      }
      assert m1.seen.sessions > p;
      NewestIsRead(m1, o.status);
      LookAllKeepsCoherent(m1, false, later);
      CoherentInBounds(LookAll(m1, later), false);
      NewestIsRead(LookAll(m1, later), o.status);
    }
  }

  lemma NewestIsRead(m: Memory, status: Status)
    requires Coherent(m, false) && Newest(m.sessions, m.seen.sessions) == Some(status)
    ensures StatusAt(m, m.seen) == status
  {
    HistoryInBounds(m, false, |m.history| - 1);
  }

  /** So do the end of a run and its readers, also when a done run had to be persisted as failed:
      whenever the last attempt to persist a fresh task succeeded, every later reader sees the status
      that the run returned. */
  lemma FinishedRunsAgree(env: MemoryEnv, m: Memory, o: Outcome, later: seq<Seen>)
    requires Fresh(m) && Terminal(o.status) && (o.status.Done? ==> o.result.Some?)
    ensures
      var (m', returned, ok) := FinishRun(env, m, o);
      ok ==> StatusAt(LookAll(m', later), LookAll(m', later).seen) == returned
  {
    hide PersistResults, LookAll, Coherent, StatusAt, Verified;
    FreshIsCoherent(m, false);
    NewStatusStaysRead(env, m, o, later);
    var p, v := PersistResultsStages(env, m, false, o);
    var (m1, ok) := PersistResults(env, m, o);
    if !ok && o.status.Done? {
      assert NoVersionHas(m1.sessions, Failed);
      NewStatusStaysRead(env, m1, o.(status := Failed), later);
    }
  }
}
