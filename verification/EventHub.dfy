/**
 The hub that carries progress events to event streams (src/server/mcp_events.rs): two tables
 under two locks and a counter.

 `Step` gives the effect of one lock region, of the counter, or of the end of a subscription.
 Any number of subscribers, emitters and unsubscribers interleave their regions.
 */
module EventHub {
  type SessionId = string
  type TaskId = string
  type StreamId = nat
  type EmissionId = nat

  datatype Event = Event(task: TaskId, message: string, terminal: bool)

  /** A stream as its holder sees it: what its channel has taken, and whether the channel is open. */
  datatype Stream = Stream(session: SessionId, received: seq<Event>, open: bool)

  datatype Hub = Hub(
    nextStreamId: StreamId,
    streamsBySession: map<SessionId, set<StreamId>>,
    sessionsByTask: map<TaskId, set<SessionId>>,
    streams: map<StreamId, Stream>)
  {
    function StreamsOf(session: SessionId): set<StreamId> {
      if session in streamsBySession then streamsBySession[session] else {}
    }

    function SessionsOf(task: TaskId): set<SessionId> {
      if task in sessionsByTask then sessionsByTask[task] else {}
    }

    predicate Listens(id: StreamId) {
      id in streams && id in StreamsOf(streams[id].session)
    }
  }

  // ---- The lock regions ----

  function Inserted(h: Hub, id: StreamId, session: SessionId): Hub {
    h.(streamsBySession := h.streamsBySession[session := h.StreamsOf(session) + {id}],
       streams := h.streams[id := Stream(session, [], true)])
  }

  function Bound(h: Hub, task: TaskId, session: SessionId): Hub {
    h.(sessionsByTask := h.sessionsByTask[task := h.SessionsOf(task) + {session}])
  }

  function Delivered(h: Hub, sessions: set<SessionId>, event: Event): map<StreamId, Stream> {
    map id | id in h.streams ::
      var x := h.streams[id];
      if x.open && x.session in sessions && h.Listens(id) then x.(received := x.received + [event]) else x
  }

  predicate Open(h: Hub, id: StreamId) {
    id in h.streams && h.streams[id].open
  }

  /** The streams of a session that stay in the table when its senders are tried. */
  function Kept(h: Hub, sessions: set<SessionId>, session: SessionId): set<StreamId> {
    set id | id in h.StreamsOf(session) && (session in sessions ==> Open(h, id))
  }

  function SentTo(h: Hub, sessions: set<SessionId>, event: Event): Hub {
    h.(streams := Delivered(h, sessions, event),
       streamsBySession :=
         map s | s in h.streamsBySession && Kept(h, sessions, s) != {} :: Kept(h, sessions, s))
  }

  function TaskUnbound(h: Hub, task: TaskId): Hub {
    h.(sessionsByTask := h.sessionsByTask - {task})
  }

  function Removed(h: Hub, id: StreamId, session: SessionId): Hub {
    if session !in h.streamsBySession then h
    else
      var left := h.streamsBySession[session] - {id};
      h.(streamsBySession :=
           if left == {} then h.streamsBySession - {session} else h.streamsBySession[session := left])
  }

  function SessionUnbound(h: Hub, session: SessionId): Hub {
    h.(sessionsByTask :=
         map t | t in h.sessionsByTask && h.sessionsByTask[t] - {session} != {} ::
           h.sessionsByTask[t] - {session})
  }

  // ---- The interleavings ----

  /** An emission that has looked up its sessions, or that has sent a terminal event. */
  datatype Emission = Loaded(event: Event, sessions: set<SessionId>) | Sent(event: Event)

  datatype System = System(
    hub: Hub,
    opening: map<StreamId, SessionId>,     // numbered, not in the table yet
    dropped: set<StreamId>,                // given up by their holders
    removing: set<StreamId>,               // dropped, their first unsubscribe region still to come
    unbinding: map<StreamId, SessionId>,   // between the two unsubscribe regions
    emissions: map<EmissionId, Emission>)

  datatype Action =
    | TakeNumber(session: SessionId)
    | Insert(id: StreamId)
    | Bind(task: TaskId, session: SessionId)
    | Load(e: EmissionId, event: Event)
    | Send(e: EmissionId)
    | UnbindTask(e: EmissionId)
    | Drop(id: StreamId)
    | Close(id: StreamId)
    | Remove(id: StreamId)
    | UnbindSession(id: StreamId)

  predicate Enabled(w: System, a: Action) {
    match a
    case TakeNumber(_) => true
    case Insert(id) => id in w.opening
    case Bind(_, _) => true
    case Load(e, _) => e !in w.emissions
    case Send(e) => e in w.emissions && w.emissions[e].Loaded?
    case UnbindTask(e) => e in w.emissions && w.emissions[e].Sent?
    case Drop(id) => id in w.hub.streams && id !in w.dropped
    case Close(id) => id in w.dropped && id in w.hub.streams
    case Remove(id) => id in w.removing && id in w.hub.streams
    case UnbindSession(id) => id in w.unbinding
  }

  function Step(w: System, a: Action): System
    requires Enabled(w, a)
  {
    match a
    case TakeNumber(session) =>
      w.(hub := w.hub.(nextStreamId := w.hub.nextStreamId + 1), opening := w.opening[w.hub.nextStreamId := session])
    case Insert(id) =>
      w.(hub := Inserted(w.hub, id, w.opening[id]), opening := w.opening - {id})
    case Bind(task, session) =>
      w.(hub := Bound(w.hub, task, session))
    case Load(e, event) =>
      var sessions := w.hub.SessionsOf(event.task);
      if sessions == {} then w else w.(emissions := w.emissions[e := Loaded(event, sessions)])
    case Send(e) =>
      var event := w.emissions[e].event;
      w.(hub := SentTo(w.hub, w.emissions[e].sessions, event),
         emissions := if event.terminal then w.emissions[e := Sent(event)] else w.emissions - {e})
    case UnbindTask(e) =>
      w.(hub := TaskUnbound(w.hub, w.emissions[e].event.task), emissions := w.emissions - {e})
    case Drop(id) =>
      w.(dropped := w.dropped + {id}, removing := w.removing + {id})
    case Close(id) =>
      w.(hub := w.hub.(streams := w.hub.streams[id := w.hub.streams[id].(open := false)]))
    case Remove(id) =>
      var session := w.hub.streams[id].session;
      var hub := Removed(w.hub, id, session);
      w.(hub := hub, removing := w.removing - {id},
         unbinding := if session in hub.streamsBySession then w.unbinding else w.unbinding[id := session])
    case UnbindSession(id) =>
      w.(hub := SessionUnbound(w.hub, w.unbinding[id]), unbinding := w.unbinding - {id})
  }

  const INITIAL := System(Hub(0, map[], map[], map[]), map[], {}, {}, map[], map[])

  predicate Interleaving(w: System, es: seq<Action>)
    decreases |es|, 0
  {
    es == [] ||
    (Interleaving(w, es[..|es| - 1]) && Enabled(Run(w, es[..|es| - 1]), es[|es| - 1]))
  }

  function Run(w: System, es: seq<Action>): System
    requires Interleaving(w, es)
    decreases |es|, 1
  {
    if es == [] then w else Step(Run(w, es[..|es| - 1]), es[|es| - 1])
  }

  lemma {:induction false} PrefixInterleaves(w: System, es: seq<Action>, i: nat)
    requires Interleaving(w, es) && i <= |es|
    ensures Interleaving(w, es[..i])
    ensures i < |es| ==> Enabled(Run(w, es[..i]), es[i])
  {
    if i == |es| {
      assert es[..i] == es;
    } else if i < |es| - 1 {
      PrefixInterleaves(w, es[..|es| - 1], i);
      assert es[..|es| - 1][..i] == es[..i];
    }
  }

  /** What the first `i` actions leave, in which the next one is enabled. */
  function StateAt(w: System, es: seq<Action>, i: nat): (w': System)
    requires Interleaving(w, es) && i <= |es|
    ensures i < |es| ==> Enabled(w', es[i])
  {
    PrefixInterleaves(w, es, i);
    Run(w, es[..i])
  }

  // ---- What every interleaving keeps ----

  ghost predicate NumbersFresh(w: System) {
    && (forall id | id in w.opening :: id < w.hub.nextStreamId && id !in w.hub.streams)
    && (forall id | id in w.hub.streams :: id < w.hub.nextStreamId)
  }

  /** A number in the table belongs to a stream of that session, so to one session only. */
  ghost predicate TableMatchesStreams(h: Hub) {
    forall s | s in h.streamsBySession ::
      forall id | id in h.streamsBySession[s] :: id in h.streams && h.streams[id].session == s
  }

  ghost predicate NoEmptyEntries(h: Hub) {
    && (forall s | s in h.streamsBySession :: h.streamsBySession[s] != {})
    && (forall t | t in h.sessionsByTask :: h.sessionsByTask[t] != {})
  }

  /** A stream that its holder has not dropped is open and in the table. */
  ghost predicate LiveStreamsListen(w: System) {
    && (forall id | id in w.hub.streams && id !in w.dropped :: w.hub.streams[id].open && w.hub.Listens(id))
    && w.dropped <= w.hub.streams.Keys && w.removing <= w.dropped
  }

  ghost predicate Consistent(w: System) {
    NumbersFresh(w) && TableMatchesStreams(w.hub) && NoEmptyEntries(w.hub) && LiveStreamsListen(w)
    && (forall e | e in w.emissions :: w.emissions[e].Sent? ==> w.emissions[e].event.terminal)
  }

  lemma InsertKeepsConsistent(w: System, id: StreamId)
    requires Consistent(w) && Enabled(w, Insert(id))
    ensures Consistent(Step(w, Insert(id)))
  {
  }

  lemma SendKeepsConsistent(w: System, e: EmissionId)
    requires Consistent(w) && Enabled(w, Send(e))
    ensures Consistent(Step(w, Send(e)))
  {
  }

  lemma RemoveKeepsConsistent(w: System, id: StreamId)
    requires Consistent(w) && Enabled(w, Remove(id))
    ensures Consistent(Step(w, Remove(id)))
  {
  }

  lemma StepKeepsConsistent(w: System, a: Action)
    requires Consistent(w) && Enabled(w, a)
    ensures Consistent(Step(w, a))
  {
    match a
    case Insert(id) => InsertKeepsConsistent(w, id);
    case Send(e) => SendKeepsConsistent(w, e);
    case Remove(id) => RemoveKeepsConsistent(w, id);
    case _ =>
  }

  lemma {:induction false} RunsAreConsistent(w: System, es: seq<Action>)
    requires Consistent(w) && Interleaving(w, es)
    ensures Consistent(Run(w, es))
  {
    if es != [] {
      RunsAreConsistent(w, es[..|es| - 1]);
      StepKeepsConsistent(Run(w, es[..|es| - 1]), es[|es| - 1]);
    }
  }

  /** In every interleaving a number stands for one stream of one session, and neither table holds an
      empty entry; in particular a new stream never replaces the sender of another. */
  lemma TablesStayTidy(es: seq<Action>, a: Action)
    requires Interleaving(INITIAL, es)
    ensures NoEmptyEntries(Run(INITIAL, es).hub)
    ensures forall s, s', id ::
              id in Run(INITIAL, es).hub.StreamsOf(s) && id in Run(INITIAL, es).hub.StreamsOf(s') ==> s == s'
    ensures a.Insert? && Enabled(Run(INITIAL, es), a) ==>
              forall s :: a.id !in Run(INITIAL, es).hub.StreamsOf(s)
  {
    RunsAreConsistent(INITIAL, es);
  }

  // ---- Who is bound and who is listed ----

  /** The last action that concerns the binding decides it: a bind, the end of an emission of a terminal event of the
      task, or the second region of an unsubscription of the session. */
  predicate BoundBy(w: System, es: seq<Action>, task: TaskId, session: SessionId)
    requires Interleaving(w, es)
  {
    if es == [] then session in w.hub.SessionsOf(task)
    else
      var n := |es| - 1;
      var before, a := Run(w, es[..n]), es[n];
      if a == Bind(task, session) then true
      else if a.UnbindTask? && before.emissions[a.e].event.task == task then false
      else if a.UnbindSession? && before.unbinding[a.id] == session then false
      else BoundBy(w, es[..n], task, session)
  }

  lemma StepBinds(w: System, a: Action, task: TaskId)
    requires Enabled(w, a)
    ensures Step(w, a).hub.SessionsOf(task) ==
      match a
      case Bind(t, session) => w.hub.SessionsOf(task) + (if t == task then {session} else {})
      case UnbindTask(e) => if w.emissions[e].event.task == task then {} else w.hub.SessionsOf(task)
      case UnbindSession(id) => w.hub.SessionsOf(task) - {w.unbinding[id]}
      case _ => w.hub.SessionsOf(task)
  {
  }

  lemma {:induction false} BoundExactly(w: System, es: seq<Action>, task: TaskId, session: SessionId)
    requires Interleaving(w, es)
    ensures session in Run(w, es).hub.SessionsOf(task) <==> BoundBy(w, es, task, session)
  {
    if es != [] {
      var n := |es| - 1;
      BoundExactly(w, es[..n], task, session);
      StepBinds(Run(w, es[..n]), es[n], task);
    }
  }

  /** A stream is listed from its insertion until its holder's unsubscription, or until a send to its session finds
      its channel closed. */
  predicate ListedBy(w: System, es: seq<Action>, id: StreamId)
    requires Interleaving(w, es)
  {
    if es == [] then w.hub.Listens(id)
    else
      var n := |es| - 1;
      var before, a := Run(w, es[..n]), es[n];
      if a == Insert(id) then true
      else if a == Remove(id) then false
      else if a.Send? && id in before.hub.streams && !before.hub.streams[id].open
              && before.hub.streams[id].session in before.emissions[a.e].sessions then false
      else ListedBy(w, es[..n], id)
  }

  lemma StepLists(w: System, a: Action, id: StreamId)
    requires Consistent(w) && Enabled(w, a)
    ensures Step(w, a).hub.Listens(id) <==>
      match a
      case Insert(i) => i == id || w.hub.Listens(id)
      case Remove(i) => i != id && w.hub.Listens(id)
      case Send(e) =>
        w.hub.Listens(id) && (w.hub.streams[id].session in w.emissions[e].sessions ==> w.hub.streams[id].open)
      case _ => w.hub.Listens(id)
  {
  }

  lemma {:induction false} ListedExactly(w: System, es: seq<Action>, id: StreamId)
    requires Consistent(w) && Interleaving(w, es)
    ensures Run(w, es).hub.Listens(id) <==> ListedBy(w, es, id)
  {
    hide Step, Enabled, Consistent;
    if es != [] {
      var n := |es| - 1;
      ListedExactly(w, es[..n], id);
      RunsAreConsistent(w, es[..n]);
      StepLists(Run(w, es[..n]), es[n], id);
      OnlyListedNumbers(Run(w, es[..n]), es[n], id);
    }
  }

  lemma OnlyListedNumbers(w: System, a: Action, id: StreamId)
    requires Enabled(w, a)
    ensures a.Send? ==> a.e in w.emissions && w.emissions[a.e].Loaded?
  {
  }

  /** The first region of an unsubscription leaves its session to be unbound exactly if no stream of it is listed
      any more, and no number is listed for a stream whose unsubscription has had its first region. */
  lemma LastStreamUnbinds(w: System, id: StreamId)
    requires Consistent(w) && Enabled(w, Remove(id))
    ensures
      var session, w' := w.hub.streams[id].session, Step(w, Remove(id));
      && !w'.hub.Listens(id)
      && (id !in w.unbinding ==>
            (id in w'.unbinding <==>
             forall k | w.hub.Listens(k) && w.hub.streams[k].session == session :: k == id))
      && (id in w'.unbinding && id !in w.unbinding ==> w'.unbinding[id] == session)
  {
    var session, w' := w.hub.streams[id].session, Step(w, Remove(id));
    RemoveKeepsConsistent(w, id);
    if session in w'.hub.streamsBySession {
      var k :| k in w'.hub.streamsBySession[session];
      assert k in w.hub.StreamsOf(session) && k != id;
      assert w.hub.Listens(k) && w.hub.streams[k].session == session;
    } else {
      forall k | w.hub.Listens(k) && w.hub.streams[k].session == session
        ensures k == id
      {
        assert k == id || k in w.hub.StreamsOf(session) - {id};
      }
    }
  }

  // ---- What one stream receives, whoever emits ----

  predicate Active(w: System, e: EmissionId, task: TaskId) {
    e in w.emissions && w.emissions[e].event.task == task
  }

  /** The session of an undropped stream and what a region adds to what it received. */
  function Delivery(w: System, a: Action, session: SessionId): seq<Event>
    requires Enabled(w, a)
  {
    if a.Send? && session in w.emissions[a.e].sessions then [w.emissions[a.e].event] else []
  }

  /** The events sent to a session, in the order of sending. */
  function Deliveries(w: System, es: seq<Action>, session: SessionId): seq<Event>
    requires Interleaving(w, es)
  {
    if es == [] then []
    else
      var n := |es| - 1;
      Deliveries(w, es[..n], session) + Delivery(Run(w, es[..n]), es[n], session)
  }

  lemma SendReaches(w: System, e: EmissionId, id: StreamId)
    requires Consistent(w) && Enabled(w, Send(e)) && id in w.hub.streams && id !in w.dropped
    ensures id in Step(w, Send(e)).hub.streams
    ensures
      var x, event := w.hub.streams[id], w.emissions[e].event;
      Step(w, Send(e)).hub.streams[id]
      == if x.session in w.emissions[e].sessions then x.(received := x.received + [event]) else x
  {
  }

  lemma StepDelivers(w: System, a: Action, id: StreamId)
    requires Consistent(w) && Enabled(w, a) && id in w.hub.streams && id !in w.dropped
    ensures id in Step(w, a).hub.streams
    ensures
      var x := w.hub.streams[id];
      Step(w, a).hub.streams[id] == x.(received := x.received + Delivery(w, a, x.session))
  {
    var x := w.hub.streams[id];
    assert x.received + [] == x.received;
    if a.Send? {
      SendReaches(w, a.e, id);
    }
  }

  lemma StepOnlyDrops(w: System, a: Action)
    requires Enabled(w, a)
    ensures w.dropped <= Step(w, a).dropped
  {
  }

  /** A stream that is never dropped receives exactly what is sent to its session, once and in order. */
  lemma {:induction false} StreamsReceiveDeliveries(w: System, es: seq<Action>, id: StreamId)
    requires Consistent(w) && Interleaving(w, es) && id in w.hub.streams && id !in Run(w, es).dropped
    ensures id in Run(w, es).hub.streams && id !in w.dropped
    ensures
      var x := w.hub.streams[id];
      Run(w, es).hub.streams[id] == x.(received := x.received + Deliveries(w, es, x.session))
  {
    hide Step, Consistent, Enabled, Delivery;
    var x := w.hub.streams[id];
    if es == [] {
      assert x.received + [] == x.received;
    } else {
      var n := |es| - 1;
      StepOnlyDrops(Run(w, es[..n]), es[n]);
      StreamsReceiveDeliveries(w, es[..n], id);
      RunsAreConsistent(w, es[..n]);
      StepDelivers(Run(w, es[..n]), es[n], id);
      var d, last := Deliveries(w, es[..n], x.session), Delivery(Run(w, es[..n]), es[n], x.session);
      assert x.received + (d + last) == x.received + d + last;
    }
  }

  /** The regions of emission `e` after its lookup at `i` come later than `j`. */
  predicate Waits(es: seq<Action>, e: EmissionId, i: nat, j: nat) {
    forall k | i < k < j && k < |es| :: es[k] != Send(e) && !(es[k].Load? && es[k].e == e)
  }

  lemma StepKeepsEmission(w: System, a: Action, e: EmissionId)
    requires Enabled(w, a) && e in w.emissions && w.emissions[e].Loaded? && a != Send(e)
    ensures e in Step(w, a).emissions && Step(w, a).emissions[e] == w.emissions[e]
  {
  }

  lemma StepAddsNoEmission(w: System, a: Action, e: EmissionId)
    requires Enabled(w, a) && e !in w.emissions && !(a.Load? && a.e == e)
    ensures e !in Step(w, a).emissions
  {
  }

  /** An emission that waits to be sent holds the sessions of its lookup, or is over if there were none. */
  lemma {:induction false} EmissionKeepsItsSessions(w: System, es: seq<Action>, e: EmissionId, i: nat, j: nat)
    requires Interleaving(w, es) && i < j <= |es| && es[i].Load? && es[i].e == e && Waits(es, e, i, j)
    requires Interleaving(w, es[..i]) && Interleaving(w, es[..j])
    ensures
      var sessions, emissions := Run(w, es[..i]).hub.SessionsOf(es[i].event.task), Run(w, es[..j]).emissions;
      if sessions == {} then e !in emissions else e in emissions && emissions[e] == Loaded(es[i].event, sessions)
    decreases j
  {
    assert es[..j][..j - 1] == es[..j - 1];
    if j > i + 1 {
      EmissionKeepsItsSessions(w, es, e, i, j - 1);
      hide Step;
      var before := Run(w, es[..j - 1]);
      if e in before.emissions {
        StepKeepsEmission(before, es[j - 1], e);
      } else {
        StepAddsNoEmission(before, es[j - 1], e);
      }
    }
  }

  /**
   With any number of emitters: a stream that is not dropped takes the event of an emission exactly if its
   session was bound to the task when the emission looked up its sessions.
   */
  lemma EventReachesExactlyTheBound(w: System, es: seq<Action>, e: EmissionId, i: nat, j: nat, id: StreamId)
    requires Consistent(w) && Interleaving(w, es) && i < j < |es| && es[i].Load? && es[i].e == e && es[j] == Send(e)
    requires Waits(es, e, i, j)
    requires id in StateAt(w, es, j).hub.streams && id !in StateAt(w, es, j).dropped
    ensures
      var before, after := StateAt(w, es, j), Step(StateAt(w, es, j), es[j]);
      && id in after.hub.streams
      && (after.hub.streams[id].received == before.hub.streams[id].received + [es[i].event] <==>
          before.hub.streams[id].session in StateAt(w, es, i).hub.SessionsOf(es[i].event.task))
      && (after.hub.streams[id].received == before.hub.streams[id].received <==>
          before.hub.streams[id].session !in StateAt(w, es, i).hub.SessionsOf(es[i].event.task))
  {
    PrefixInterleaves(w, es, i);
    PrefixInterleaves(w, es, j);
    RunsAreConsistent(w, es[..j]);
    EmissionKeepsItsSessions(w, es, e, i, j);
    StepDelivers(Run(w, es[..j]), es[j], id);
    var received := Run(w, es[..j]).hub.streams[id].received;
    assert received + [] == received;
  }

  // ---- One emitter ----

  /** The events of one task. */
  function Of(events: seq<Event>, task: TaskId): seq<Event> {
    if events == [] then []
    else
      var n := |events| - 1;
      Of(events[..n], task) + (if events[n].task == task then [events[n]] else [])
  }

  lemma {:induction false} OfConcat(a: seq<Event>, b: seq<Event>, task: TaskId)
    ensures Of(a + b, task) == Of(a, task) + Of(b, task)
  {
    if b == [] {
      assert a + b == a;
    } else {
      var n := |b| - 1;
      assert (a + b)[..|a| + n] == a + b[..n];
      OfConcat(a, b[..n], task);
    }
  }

  predicate Emits(a: Action, task: TaskId) {
    a.Load? && a.event.task == task
  }

  /** The events emitted for a task, in the order in which their sessions were looked up. */
  function Emitted(es: seq<Action>, task: TaskId): seq<Event> {
    if es == [] then []
    else
      var n := |es| - 1;
      Emitted(es[..n], task) + (if Emits(es[n], task) then [es[n].event] else [])
  }

  /** Those of them that were emitted while the session was bound. */
  function Heard(w: System, es: seq<Action>, task: TaskId, session: SessionId): seq<Event>
    requires Interleaving(w, es)
  {
    if es == [] then []
    else
      var n := |es| - 1;
      Heard(w, es[..n], task, session)
      + (if Emits(es[n], task) && session in Run(w, es[..n]).hub.SessionsOf(task) then [es[n].event] else [])
  }

  /** The session is bound to the task whenever the sessions of one of its events are looked up. */
  ghost predicate BoundAtEveryLoad(w: System, es: seq<Action>, task: TaskId, session: SessionId)
    requires Interleaving(w, es)
  {
    es == [] ||
    var n := |es| - 1;
    && BoundAtEveryLoad(w, es[..n], task, session)
    && (Emits(es[n], task) ==> session in Run(w, es[..n]).hub.SessionsOf(task))
  }

  ghost predicate Idle(w: System, task: TaskId) {
    forall e :: !Active(w, e, task)
  }

  /** The events of the task are emitted one after the other. */
  ghost predicate OneAtATime(w: System, es: seq<Action>, task: TaskId)
    requires Interleaving(w, es)
  {
    es == [] ||
    var n := |es| - 1;
    OneAtATime(w, es[..n], task) && (Emits(es[n], task) ==> Idle(Run(w, es[..n]), task))
  }

  lemma {:induction false} HeardIsEmittedExactly(w: System, es: seq<Action>, task: TaskId, session: SessionId)
    requires Interleaving(w, es)
    ensures |Heard(w, es, task, session)| <= |Emitted(es, task)|
    ensures |Heard(w, es, task, session)| == |Emitted(es, task)| ==> BoundAtEveryLoad(w, es, task, session)
    ensures BoundAtEveryLoad(w, es, task, session) ==> Heard(w, es, task, session) == Emitted(es, task)
  {
    if es != [] {
      HeardIsEmittedExactly(w, es[..|es| - 1], task, session);
    }
  }

  /** `pending` is what the emission of the task that waits to be sent, if there is one, will send to the session. */
  ghost predicate IsPending(w: System, task: TaskId, session: SessionId, pending: seq<Event>) {
    && (forall e, e' | Active(w, e, task) && Active(w, e', task) :: e == e')
    && (forall e | Active(w, e, task) :: pending == Waiting(w.emissions[e], session))
    && (Idle(w, task) ==> pending == [])
  }

  function Waiting(x: Emission, session: SessionId): seq<Event> {
    if x.Loaded? && session in x.sessions then [x.event] else []
  }

  lemma LoadPends(w: System, a: Action, task: TaskId, session: SessionId) returns (pending': seq<Event>)
    requires Enabled(w, a) && Emits(a, task) && Idle(w, task)
    ensures IsPending(Step(w, a), task, session, pending')
    ensures pending' == if session in w.hub.SessionsOf(task) then [a.event] else []
  {
    pending' := if session in w.hub.SessionsOf(task) then [a.event] else [];
    var w' := Step(w, a);
    forall e
      ensures Active(w', e, task) <==> e == a.e && w.hub.SessionsOf(task) != {}
    {
      assert !Active(w, e, task);
    }
    if w.hub.SessionsOf(task) != {} {
      assert Active(w', a.e, task);
    }
  }

  /** Emissions of other tasks come and go. */
  lemma SameEmissions(w: System, w': System, task: TaskId, session: SessionId, pending: seq<Event>)
    requires forall e | Active(w, e, task) :: Active(w', e, task) && w'.emissions[e] == w.emissions[e]
    requires forall e | Active(w', e, task) :: Active(w, e, task)
    requires IsPending(w, task, session, pending)
    ensures IsPending(w', task, session, pending)
  {
    if Idle(w', task) {
      assert Idle(w, task);
    }
  }

  lemma SendPends(w: System, a: Action, task: TaskId, session: SessionId, pending: seq<Event>)
    returns (pending': seq<Event>)
    requires Enabled(w, a) && (a.Send? || a.UnbindTask?) && IsPending(w, task, session, pending)
    ensures IsPending(Step(w, a), task, session, pending')
    ensures Of(Delivery(w, a, session), task) + pending' == pending
  {
    var w', event := Step(w, a), w.emissions[a.e].event;
    OfOne(event, task);
    if event.task == task {
      assert Active(w, a.e, task);
      pending' := [];
      forall e
        ensures Active(w', e, task) ==> e == a.e && w'.emissions[e].Sent?
      {
        assert Active(w', e, task) ==> Active(w, e, task);
      }
    } else {
      pending' := pending;
      SameEmissions(w, w', task, session, pending);
    }
  }

  lemma OfOne(event: Event, task: TaskId)
    ensures Of([event], task) == if event.task == task then [event] else []
  {
    assert [event][..0] == [];
  }

  lemma StepPends(w: System, a: Action, task: TaskId, session: SessionId, pending: seq<Event>)
    returns (pending': seq<Event>)
    requires Enabled(w, a) && IsPending(w, task, session, pending) && (Emits(a, task) ==> Idle(w, task))
    ensures IsPending(Step(w, a), task, session, pending')
    ensures
      Of(Delivery(w, a, session), task) + pending'
      == pending + (if Emits(a, task) && session in w.hub.SessionsOf(task) then [a.event] else [])
  {
    assert pending + [] == pending;
    if Emits(a, task) {
      pending' := LoadPends(w, a, task, session);
    } else if a.Send? || a.UnbindTask? {
      pending' := SendPends(w, a, task, session, pending);
    } else {
      pending' := pending;
      SameEmissions(w, Step(w, a), task, session, pending);
    }
  }

  lemma {:induction false} RunPends(w: System, es: seq<Action>, task: TaskId, session: SessionId)
    returns (pending: seq<Event>)
    requires Interleaving(w, es) && OneAtATime(w, es, task) && Idle(w, task)
    ensures IsPending(Run(w, es), task, session, pending)
    ensures Of(Deliveries(w, es, session), task) + pending == Heard(w, es, task, session)
  {
    if es == [] {
      pending := [];
    } else {
      hide Step, Enabled, Delivery, IsPending;
      var n := |es| - 1;
      var before := RunPends(w, es[..n], task, session);
      pending := StepPends(Run(w, es[..n]), es[n], task, session, before);
      var d, last := Deliveries(w, es[..n], session), Delivery(Run(w, es[..n]), es[n], session);
      OfConcat(d, last, task);
      var more := if Emits(es[n], task) && session in Run(w, es[..n]).hub.SessionsOf(task) then [es[n].event] else [];
      Regroup(Of(d, task), Of(last, task), pending, before, more);
    }
  }

  lemma Regroup(d: seq<Event>, last: seq<Event>, pending: seq<Event>, before: seq<Event>, more: seq<Event>)
    requires last + pending == before + more
    ensures d + last + pending == d + before + more
  {
    assert d + last + pending == d + (last + pending);
    assert d + before + more == d + (before + more);
  }

  lemma IdlePendsNothing(w: System, task: TaskId, session: SessionId, pending: seq<Event>)
    requires IsPending(w, task, session, pending) && Idle(w, task)
    ensures pending == []
  {
  }

  /**
   With one emitter: between two moments at which nothing of the task is under way, a stream that is not
   dropped receives the events that were emitted while its session was bound, in order. It receives all
   that was emitted if and only if its session was bound at every lookup.
   */
  lemma StreamsReceiveExactly(w: System, es: seq<Action>, id: StreamId, task: TaskId)
    requires Consistent(w) && Interleaving(w, es) && OneAtATime(w, es, task)
    requires Idle(w, task) && Idle(Run(w, es), task)
    requires id in w.hub.streams && id !in Run(w, es).dropped
    ensures id in Run(w, es).hub.streams
    ensures
      var session := w.hub.streams[id].session;
      var before, after := w.hub.streams[id].received, Run(w, es).hub.streams[id].received;
      && Of(after, task) == Of(before, task) + Heard(w, es, task, session)
      && (Of(after, task) == Of(before, task) + Emitted(es, task) <==> BoundAtEveryLoad(w, es, task, session))
  {
    hide Step, Enabled, Consistent, Delivery, IsPending, Idle, BoundAtEveryLoad;
    var x := w.hub.streams[id];
    StreamsReceiveDeliveries(w, es, id);
    var pending := RunPends(w, es, task, x.session);
    IdlePendsNothing(Run(w, es), task, x.session, pending);
    var sent, heard := Of(Deliveries(w, es, x.session), task), Heard(w, es, task, x.session);
    assert sent + [] == sent;
    OfConcat(x.received, Deliveries(w, es, x.session), task);
    HeardIsEmittedExactly(w, es, task, x.session);
    assert |Of(x.received, task) + heard| == |Of(x.received, task)| + |heard|;
    assert |Of(x.received, task) + Emitted(es, task)| == |Of(x.received, task)| + |Emitted(es, task)|;
  }

  // ---- When the session stays bound ----

  /** The last event was terminal. */
  predicate Finished(events: seq<Event>) {
    events != [] && events[|events| - 1].terminal
  }

  /** The events of the task are emitted one after the other, and none after a terminal one. */
  ghost predicate OneEmitter(w: System, es: seq<Action>, task: TaskId)
    requires Interleaving(w, es)
  {
    es == [] ||
    var n := |es| - 1;
    && OneEmitter(w, es[..n], task)
    && (Emits(es[n], task) ==> Idle(Run(w, es[..n]), task) && !Finished(Emitted(es[..n], task)))
  }

  /** No unsubscription of the session is between its two regions. */
  ghost predicate NoUnbinding(w: System, session: SessionId) {
    forall k | k in w.unbinding :: w.unbinding[k] != session
  }

  /** The stream is there, nothing is about to unbind its session but a terminal event, and unless that has been
      emitted the session is bound. */
  ghost predicate BoundUntil(w: System, id: StreamId, task: TaskId, emitted: seq<Event>) {
    && id in w.hub.streams && id !in w.dropped
    && NoUnbinding(w, w.hub.streams[id].session)
    && (Finished(emitted) || w.hub.streams[id].session in w.hub.SessionsOf(task))
    && (forall e | Active(w, e, task) :: emitted != [] && w.emissions[e].event == emitted[|emitted| - 1])
  }

  lemma LoadKeepsBound(w: System, a: Action, id: StreamId, task: TaskId, emitted: seq<Event>)
    requires Consistent(w) && a.Load? && Enabled(w, a) && BoundUntil(w, id, task, emitted)
    requires Emits(a, task) ==> Idle(w, task) && !Finished(emitted)
    ensures BoundUntil(Step(w, a), id, task, emitted + (if Emits(a, task) then [a.event] else []))
  {
    var w' := Step(w, a);
    assert emitted + [] == emitted;
    forall e | Active(w', e, task)
      ensures Active(w, e, task) || (e == a.e && Emits(a, task))
    {
    }
  }

  lemma RemoveKeepsBound(w: System, a: Action, id: StreamId, task: TaskId, emitted: seq<Event>)
    requires Consistent(w) && (a.Remove? || a.UnbindSession?) && Enabled(w, a) && BoundUntil(w, id, task, emitted)
    ensures BoundUntil(Step(w, a), id, task, emitted)
  {
    var session := w.hub.streams[id].session;
    if a.Remove? && w.hub.streams[a.id].session == session {
      assert id in w.hub.streamsBySession[session] - {a.id};
      assert session in Removed(w.hub, a.id, session).streamsBySession;
    }
  }

  lemma EmissionsKeepBound(w: System, a: Action, id: StreamId, task: TaskId, emitted: seq<Event>)
    requires Consistent(w) && (a.Send? || a.UnbindTask?) && Enabled(w, a) && BoundUntil(w, id, task, emitted)
    ensures BoundUntil(Step(w, a), id, task, emitted)
  {
    var w' := Step(w, a);
    assert a.UnbindTask? && w.emissions[a.e].event.task == task ==> Active(w, a.e, task);
    forall e | Active(w', e, task)
      ensures Active(w, e, task) && w'.emissions[e].event == w.emissions[e].event
    {
    }
  }

  lemma OthersKeepBound(w: System, a: Action, id: StreamId, task: TaskId, emitted: seq<Event>)
    requires Consistent(w) && (a.TakeNumber? || a.Insert? || a.Bind? || a.Drop? || a.Close?) && Enabled(w, a)
    requires BoundUntil(w, id, task, emitted) && id !in Step(w, a).dropped
    ensures BoundUntil(Step(w, a), id, task, emitted)
  {
    var w' := Step(w, a);
    assert w'.emissions == w.emissions && w'.unbinding == w.unbinding;
    assert forall e :: Active(w', e, task) <==> Active(w, e, task);
  }

  lemma StepKeepsBound(w: System, a: Action, id: StreamId, task: TaskId, emitted: seq<Event>)
    requires Consistent(w) && Enabled(w, a) && BoundUntil(w, id, task, emitted) && id !in Step(w, a).dropped
    requires Emits(a, task) ==> Idle(w, task) && !Finished(emitted)
    ensures BoundUntil(Step(w, a), id, task, emitted + (if Emits(a, task) then [a.event] else []))
  {
    hide Step, Consistent, BoundUntil;
    assert emitted + [] == emitted;
    match a
    case Load(_, _) => LoadKeepsBound(w, a, id, task, emitted);
    case Send(_) => EmissionsKeepBound(w, a, id, task, emitted);
    case UnbindTask(_) => EmissionsKeepBound(w, a, id, task, emitted);
    case Remove(_) => RemoveKeepsBound(w, a, id, task, emitted);
    case UnbindSession(_) => RemoveKeepsBound(w, a, id, task, emitted);
    case _ => OthersKeepBound(w, a, id, task, emitted);
  }

  lemma {:induction false} RunStaysBound(w: System, es: seq<Action>, id: StreamId, task: TaskId)
    requires Consistent(w) && Interleaving(w, es) && OneEmitter(w, es, task) && Idle(w, task)
    requires id in w.hub.streams && w.hub.streams[id].session in w.hub.SessionsOf(task)
    requires NoUnbinding(w, w.hub.streams[id].session) && id !in Run(w, es).dropped
    ensures BoundUntil(Run(w, es), id, task, Emitted(es, task))
    ensures Run(w, es).hub.streams[id].session == w.hub.streams[id].session
    ensures OneAtATime(w, es, task) && BoundAtEveryLoad(w, es, task, w.hub.streams[id].session)
  {
    if es != [] {
      hide Step, Enabled, Consistent;
      var n := |es| - 1;
      StepOnlyDrops(Run(w, es[..n]), es[n]);
      RunStaysBound(w, es[..n], id, task);
      RunsAreConsistent(w, es[..n]);
      StepKeepsBound(Run(w, es[..n]), es[n], id, task, Emitted(es[..n], task));
      StepDelivers(Run(w, es[..n]), es[n], id);
    }
  }

  /**
   From a moment at which nothing of the task is under way, its session is bound and no unsubscription of the
   session is half done, a stream that is never dropped receives exactly the events of the task's one emitter,
   once and in order, up to and including the terminal one; and the session stays bound until then. Nothing is
   assumed about the other streams, sessions and tasks, nor about unsubscriptions that start later.
   */
  lemma StreamsReceiveTheirTask(start: seq<Action>, es: seq<Action>, id: StreamId, task: TaskId)
    requires Interleaving(INITIAL, start) && Interleaving(Run(INITIAL, start), es)
    requires OneEmitter(Run(INITIAL, start), es, task)
    requires id in Run(INITIAL, start).hub.streams && Idle(Run(INITIAL, start), task)
    requires Run(INITIAL, start).hub.streams[id].session in Run(INITIAL, start).hub.SessionsOf(task)
    requires NoUnbinding(Run(INITIAL, start), Run(INITIAL, start).hub.streams[id].session)
    requires id !in Run(Run(INITIAL, start), es).dropped
    ensures
      var w, w' := Run(INITIAL, start), Run(Run(INITIAL, start), es);
      && id in w'.hub.streams
      && (Idle(w', task) ==>
            Of(w'.hub.streams[id].received, task) == Of(w.hub.streams[id].received, task) + Emitted(es, task))
      && (!Finished(Emitted(es, task)) ==> w'.hub.streams[id].session in w'.hub.SessionsOf(task))
  {
    hide Step, Enabled, Consistent, Idle;
    RunsAreConsistent(INITIAL, start);
    RunStaysBound(Run(INITIAL, start), es, id, task);
    if Idle(Run(Run(INITIAL, start), es), task) {
      StreamsReceiveExactly(Run(INITIAL, start), es, id, task);
    }
  }

  // ---- What a half-done unsubscription can do ----

  /** Everything emitted for the task arrives, however the interleaving goes on with one emitter. */
  ghost predicate DeliveryIsSure(w: System, id: StreamId, task: TaskId)
    requires id in w.hub.streams
  {
    forall es | Interleaving(w, es) :: Arrives(w, es, id, task)
  }

  ghost predicate Arrives(w: System, es: seq<Action>, id: StreamId, task: TaskId)
    requires Interleaving(w, es) && id in w.hub.streams
  {
    OneEmitter(w, es, task) && id !in Run(w, es).dropped && Idle(Run(w, es), task) ==>
      && id in Run(w, es).hub.streams
      && Of(Run(w, es).hub.streams[id].received, task) == Of(w.hub.streams[id].received, task) + Emitted(es, task)
  }

  lemma Extend(w: System, es: seq<Action>, a: Action) returns (es': seq<Action>, w': System)
    requires Interleaving(w, es) && Enabled(Run(w, es), a)
    ensures es' == es + [a] && Interleaving(w, es') && Run(w, es') == w' && w' == Step(Run(w, es), a)
  {
    es', w' := es + [a], Step(Run(w, es), a);
    assert es'[..|es'| - 1] == es;
  }

  lemma FreshEmission(emissions: map<EmissionId, Emission>) returns (e: EmissionId)
    ensures e !in emissions
  {
    e := EmissionsAreBounded(emissions);
  }

  lemma {:induction false} EmissionsAreBounded(emissions: map<EmissionId, Emission>) returns (below: nat)
    ensures forall k | k in emissions :: k < below
    decreases |emissions|
  {
    if emissions == map[] {
      below := 0;
    } else {
      var k :| k in emissions;
      var rest := emissions - {k};
      assert |rest.Keys| < |emissions.Keys| by {
        assert rest.Keys == emissions.Keys - {k};
      }
      var b := EmissionsAreBounded(rest);
      below := if k < b then b else k + 1;
      assert forall j | j in emissions :: j == k || j in rest;
    }
  }

  lemma Appended(w: System, es: seq<Action>, a: Action, task: TaskId, session: SessionId)
    requires Interleaving(w, es) && Enabled(Run(w, es), a)
    ensures Interleaving(w, es + [a]) && Run(w, es + [a]) == Step(Run(w, es), a)
    ensures OneEmitter(w, es + [a], task) <==>
      OneEmitter(w, es, task) && (Emits(a, task) ==> Idle(Run(w, es), task) && !Finished(Emitted(es, task)))
    ensures OneAtATime(w, es + [a], task) <==>
      OneAtATime(w, es, task) && (Emits(a, task) ==> Idle(Run(w, es), task))
    ensures Emitted(es + [a], task) == Emitted(es, task) + (if Emits(a, task) then [a.event] else [])
    ensures BoundAtEveryLoad(w, es + [a], task, session) <==>
      BoundAtEveryLoad(w, es, task, session) && (Emits(a, task) ==> session in Run(w, es).hub.SessionsOf(task))
  {
    hide Step, Enabled, Idle, Finished;
    assert (es + [a])[..|es|] == es;
  }

  /** One event emitted while the session of the stream is not bound: the stream does not take it. */
  lemma UnboundEventIsLost(w: System, es: seq<Action>, id: StreamId, event: Event) returns (es': seq<Action>)
    requires Consistent(w) && Interleaving(w, es) && Idle(Run(w, es), event.task) && !event.terminal
    requires id in w.hub.streams && id !in Run(w, es).dropped
    requires w.hub.streams[id].session !in Run(w, es).hub.SessionsOf(event.task)
    requires Idle(w, event.task) && OneEmitter(w, es, event.task) && OneAtATime(w, es, event.task)
    requires Emitted(es, event.task) == []
    ensures es <= es' && Interleaving(w, es') && OneEmitter(w, es', event.task)
    ensures Emitted(es', event.task) == [event] && id !in Run(w, es').dropped && Idle(Run(w, es'), event.task)
    ensures !Arrives(w, es', id, event.task)
  {
    var session := w.hub.streams[id].session;
    var e := FreshEmission(Run(w, es).emissions);
    var load, send := Load(e, event), Send(e);
    OnlyThisEmission(Run(w, es), e, event);
    Appended(w, es, load, event.task, session);
    es' := es + [load];
    var w1 := Run(w, es');
    if e in w1.emissions {
      Appended(w, es', send, event.task, session);
      es' := es' + [send];
    }
    hide Interleaving, OneEmitter, OneAtATime, BoundAtEveryLoad, Consistent, Emitted;
    StreamsReceiveExactly(w, es', id, event.task);
  }

  lemma OnlyThisEmission(w: System, e: EmissionId, event: Event)
    requires Enabled(w, Load(e, event)) && Idle(w, event.task) && !event.terminal
    ensures forall k :: Active(Step(w, Load(e, event)), k, event.task) ==> k == e
    ensures
      var w1 := Step(w, Load(e, event));
      if e in w1.emissions then Enabled(w1, Send(e)) && Idle(Step(w1, Send(e)), event.task) else Idle(w1, event.task)
  {
    var w1 := Step(w, Load(e, event));
    forall k
      ensures Active(w1, k, event.task) ==> k == e
    {
      assert !Active(w, k, event.task);
    }
    if e in w1.emissions {
      forall k
        ensures !Active(Step(w1, Send(e)), k, event.task)
      {
        assert Active(Step(w1, Send(e)), k, event.task) ==> Active(w1, k, event.task);
      }
    }
  }

  /**
   While a session has a half-done unsubscription, the second region can unbind it although the stream is open,
   and an event emitted after that is lost, in every such state.
   */
  lemma HalfDoneUnsubscribeLosesEvents(w: System, k: StreamId, id: StreamId, event: Event) returns (es: seq<Action>)
    requires Consistent(w) && id in w.hub.streams && id !in w.dropped && Idle(w, event.task) && !event.terminal
    requires k in w.unbinding && w.unbinding[k] == w.hub.streams[id].session
    ensures Interleaving(w, es) && OneEmitter(w, es, event.task) && Emitted(es, event.task) == [event]
    ensures id !in Run(w, es).dropped && Idle(Run(w, es), event.task) && !Arrives(w, es, id, event.task)
  {
    var first, w1 := Extend(w, [], UnbindSession(k));
    assert first[..0] == [];
    assert forall e :: Active(w1, e, event.task) <==> Active(w, e, event.task);
    es := UnboundEventIsLost(w, first, id, event);
  }

  /** From an idle moment with the session bound, delivery to the stream is sure if and only if no
      unsubscription of its session is half done. */
  lemma DeliveryIsSureExactly(w: System, id: StreamId, task: TaskId)
    requires Consistent(w) && id in w.hub.streams && id !in w.dropped && Idle(w, task)
    requires w.hub.streams[id].session in w.hub.SessionsOf(task)
    ensures DeliveryIsSure(w, id, task) <==> NoUnbinding(w, w.hub.streams[id].session)
  {
    hide Step, Consistent, Enabled;
    if NoUnbinding(w, w.hub.streams[id].session) {
      forall es | Interleaving(w, es)
        ensures Arrives(w, es, id, task)
      {
        if OneEmitter(w, es, task) && id !in Run(w, es).dropped && Idle(Run(w, es), task) {
          RunStaysBound(w, es, id, task);
          StreamsReceiveExactly(w, es, id, task);
        }
      }
    } else {
      var k :| k in w.unbinding && w.unbinding[k] == w.hub.streams[id].session;
      var es := HalfDoneUnsubscribeLosesEvents(w, k, id, Event(task, "progress", false));
      assert Interleaving(w, es) && !Arrives(w, es, id, task);
    }
  }

  // ---- Such states and such emitters ----

  lemma Then(es: seq<Action>, w: System, a: Action) returns (es': seq<Action>, w': System)
    requires Interleaving(INITIAL, es) && Run(INITIAL, es) == w && Enabled(w, a)
    ensures Interleaving(INITIAL, es') && Run(INITIAL, es') == w' && w' == Step(w, a) && es' == es + [a]
  {
    es', w' := Extend(INITIAL, es, a);
  }

  /** The first subscription of session "s" is half way through its end, so the session has no streams. */
  lemma HalfUnsubscribed() returns (es: seq<Action>, w: System)
    ensures Interleaving(INITIAL, es) && Run(INITIAL, es) == w
    ensures w == System(Hub(1, map[], map[], map[0 := Stream("s", [], true)]), map[], {0}, {}, map[0 := "s"], map[])
  {
    es, w := Then([], INITIAL, TakeNumber("s"));
    es, w := Then(es, w, Insert(0));
    es, w := Then(es, w, Drop(0));
    es, w := Then(es, w, Remove(0));
  }

  /** A session that subscribes anew and is bound between the two regions of an older unsubscription gets there:
      an open stream, bound and idle, whose delivery is not sure. */
  lemma DeliveryCanBeUnsure(task: TaskId)
    ensures exists es :: Interleaving(INITIAL, es)
              && Unsure(Run(INITIAL, es), 1, task)
  {
    var es, w := HalfUnsubscribed();
    es, w := Then(es, w, TakeNumber("s"));
    es, w := Then(es, w, Insert(1));
    es, w := Then(es, w, Bind(task, "s"));
    RunsAreConsistent(INITIAL, es);
    assert "s" in w.hub.SessionsOf(task);
    DeliveryIsSureExactly(w, 1, task);
    assert !NoUnbinding(w, "s");
    assert Unsure(w, 1, task);
  }

  ghost predicate Unsure(w: System, id: StreamId, task: TaskId) {
    && id in w.hub.streams && w.hub.streams[id].open && id !in w.dropped && Idle(w, task)
    && w.hub.streams[id].session in w.hub.SessionsOf(task) && !DeliveryIsSure(w, id, task)
  }

  /**
   A second emitter, such as a second start that is answered "already_running": its terminal event unbinds the
   task, so the next event of the first emitter reaches nobody. This happens in every state in which a stream
   listens to an idle task; what each event reaches is the session bound at its lookup.
   */
  lemma SecondEmitterSilencesTheFirst(w: System, id: StreamId, e: EmissionId, e': EmissionId, last: Event, next: Event)
    returns (es: seq<Action>)
    requires Consistent(w) && id in w.hub.streams && id !in w.dropped
    requires e !in w.emissions && e' !in w.emissions && e != e'
    requires last.terminal && last.task == next.task && w.hub.streams[id].session in w.hub.SessionsOf(last.task)
    ensures es == [Load(e, last), Send(e), UnbindTask(e), Load(e', next)] && Interleaving(w, es)
    ensures id in Run(w, es).hub.streams && id !in Run(w, es).dropped && e' !in Run(w, es).emissions
    ensures Run(w, es).hub.streams[id] == w.hub.streams[id].(received := w.hub.streams[id].received + [last])
  {
    hide Step, Enabled, Consistent;
    TerminalUnbinds(w, e, id, last);
    var es1, w1 := Extend(w, [], Load(e, last));
    var es2, w2 := Extend(w, es1, Send(e));
    var es3, w3 := Extend(w, es2, UnbindTask(e));
    NobodyListens(w3, e', next);
    var es4, w4 := Extend(w, es3, Load(e', next));
    es := es4;
  }

  lemma TerminalUnbinds(w: System, e: EmissionId, id: StreamId, last: Event)
    requires Consistent(w) && id in w.hub.streams && id !in w.dropped && e !in w.emissions
    requires last.terminal && w.hub.streams[id].session in w.hub.SessionsOf(last.task)
    ensures Enabled(w, Load(e, last))
    ensures Enabled(Step(w, Load(e, last)), Send(e))
    ensures Enabled(Step(Step(w, Load(e, last)), Send(e)), UnbindTask(e))
    ensures
      var w' := Step(Step(Step(w, Load(e, last)), Send(e)), UnbindTask(e));
      && w'.hub.SessionsOf(last.task) == {} && w'.emissions == w.emissions && w'.dropped == w.dropped
      && id in w'.hub.streams
      && w'.hub.streams[id] == w.hub.streams[id].(received := w.hub.streams[id].received + [last])
  {
    var w1 := Step(w, Load(e, last));
    assert w1.emissions[e] == Loaded(last, w.hub.SessionsOf(last.task)) && w1.hub == w.hub;
    StepKeepsConsistent(w, Load(e, last));
    SendReaches(w1, e, id);
    var w2 := Step(w1, Send(e));
    assert w2.emissions[e] == Sent(last);
    assert w2.emissions - {e} == w.emissions;
  }

  lemma NobodyListens(w: System, e: EmissionId, event: Event)
    requires w.hub.SessionsOf(event.task) == {} && e !in w.emissions
    ensures Enabled(w, Load(e, event)) && Step(w, Load(e, event)) == w
  {
  }

  /** Such a state is reached by subscribing and binding. */
  lemma Subscribed(task: TaskId) returns (es: seq<Action>, w: System)
    ensures Interleaving(INITIAL, es) && Run(INITIAL, es) == w
    ensures w == System(Hub(1, map["s" := {0}], map[task := {"s"}], map[0 := Stream("s", [], true)]),
                        map[], {}, {}, map[], map[])
  {
    es, w := Then([], INITIAL, TakeNumber("s"));
    assert w.hub.StreamsOf("s") + {0} == {0};
    es, w := Then(es, w, Insert(0));
    assert w.opening == map[];
    assert w.hub.SessionsOf(task) + {"s"} == {"s"};
    es, w := Then(es, w, Bind(task, "s"));
  }

  lemma {:induction false} RunsJoin(w: System, es: seq<Action>, more: seq<Action>)
    requires Interleaving(w, es) && Interleaving(Run(w, es), more)
    ensures Interleaving(w, es + more) && Run(w, es + more) == Run(Run(w, es), more)
  {
    if more == [] {
      assert es + more == es;
    } else {
      var n := |more| - 1;
      RunsJoin(w, es, more[..n]);
      assert (es + more)[..|es| + n] == es + more[..n];
    }
  }

  /** So from the empty hub a subscribed stream, open and never dropped, gets to miss the event that follows. */
  lemma SecondEmitterIsPossible(last: Event, next: Event)
    requires last.terminal && last.task == next.task
    ensures exists es :: Interleaving(INITIAL, es) && Misses(es, 0, last, next)
  {
    var es, w := Subscribed(last.task);
    RunsAreConsistent(INITIAL, es);
    assert "s" in w.hub.SessionsOf(last.task);
    var more := SecondEmitterSilencesTheFirst(w, 0, 0, 1, last, next);
    RunsJoin(INITIAL, es, more);
    var all := es + more;
    assert all[|all| - 1] == Load(1, next);
    assert w.hub.streams[0].received + [last] == [last];
    assert Misses(all, 0, last, next);
  }

  /** The run ends with the whole emission of `next`, of which the stream has not taken the event. */
  ghost predicate Misses(es: seq<Action>, id: StreamId, last: Event, next: Event)
    requires Interleaving(INITIAL, es)
  {
    var w := Run(INITIAL, es);
    && es != [] && es[|es| - 1].Load? && es[|es| - 1].event == next && es[|es| - 1].e !in w.emissions
    && id in w.hub.streams && w.hub.streams[id].open && id !in w.dropped && w.hub.streams[id].received == [last]
  }

  // ---- The hub ----

  /** Half way through a send: the senders of `done` have been tried, empty entries are still there. */
  ghost function Tried(h: Hub, done: set<SessionId>, event: Event): Hub {
    h.(streams := Delivered(h, done, event),
       streamsBySession := map s | s in h.streamsBySession :: Kept(h, done, s))
  }

  lemma TriedNone(h: Hub, event: Event)
    ensures Tried(h, {}, event) == h
  {
    assert Delivered(h, {}, event) == h.streams;
    forall s | s in h.streamsBySession
      ensures Kept(h, {}, s) == h.streamsBySession[s]
    {
    }
  }

  lemma TriedKeepsOpen(h: Hub, done: set<SessionId>, event: Event, session: SessionId)
    requires session !in done
    ensures forall id :: Open(Tried(h, done, event), id) <==> Open(h, id)
    ensures Tried(h, done, event).StreamsOf(session) == h.StreamsOf(session)
  {
    var mid := Tried(h, done, event);
    forall id
      ensures Open(mid, id) <==> Open(h, id)
    {
    }
    if session in h.streamsBySession {
      assert Kept(h, done, session) == h.streamsBySession[session];
    }
  }

  lemma TryOneMoreStreams(h: Hub, done: set<SessionId>, session: SessionId, event: Event)
    requires session !in done
    ensures Tried(h, done + {session}, event).streams == Delivered(Tried(h, done, event), {session}, event)
  {
    var mid := Tried(h, done, event);
    TriedKeepsOpen(h, done, event, session);
    forall id | id in h.streams
      ensures Delivered(h, done + {session}, event)[id] == Delivered(mid, {session}, event)[id]
    {
      assert mid.streams[id].session == h.streams[id].session;
      if h.streams[id].session == session {
        assert mid.streams[id] == h.streams[id];
      }
    }
  }

  lemma TryOneMoreTable(h: Hub, done: set<SessionId>, session: SessionId, event: Event)
    requires session !in done && session in h.streamsBySession
    ensures
      var mid := Tried(h, done, event);
      Tried(h, done + {session}, event).streamsBySession
      == mid.streamsBySession[session := Kept(mid, {session}, session)]
  {
    var mid := Tried(h, done, event);
    TriedKeepsOpen(h, done, event, session);
    assert Kept(h, done + {session}, session) == Kept(mid, {session}, session);
    forall s | s in h.streamsBySession && s != session
      ensures Kept(h, done + {session}, s) == Kept(h, done, s)
    {
    }
  }

  lemma TryAbsent(h: Hub, done: set<SessionId>, session: SessionId, event: Event)
    requires session !in h.streamsBySession
    ensures Tried(h, done + {session}, event) == Tried(h, done, event)
  {
    assert Delivered(h, done + {session}, event) == Delivered(h, done, event);
    forall s | s in h.streamsBySession
      ensures Kept(h, done + {session}, s) == Kept(h, done, s)
    {
    }
  }

  lemma TriedMatches(h: Hub, done: set<SessionId>, event: Event)
    requires TableMatchesStreams(h)
    ensures TableMatchesStreams(Tried(h, done, event))
  {
  }

  /**
   The hub as its users share it. Every method is one lock region or the counter; the channel of
   a stream is the stream's entry in `streams`.
   */
  class McpEventHub {
    var nextStreamId: StreamId
    var streamsBySession: map<SessionId, set<StreamId>>
    var sessionsByTask: map<TaskId, set<SessionId>>
    var streams: map<StreamId, Stream>

    ghost function State(): Hub
      reads this
    {
      Hub(nextStreamId, streamsBySession, sessionsByTask, streams)
    }

    ghost predicate Valid()
      reads this
    {
      TableMatchesStreams(State()) && NoEmptyEntries(State())
    }

    constructor ()
      ensures Valid() && State() == INITIAL.hub
    {
      nextStreamId, streamsBySession, sessionsByTask, streams := 0, map[], map[], map[];
    }

    method TakeNumber() returns (id: StreamId)
      requires Valid()
      modifies this`nextStreamId
      ensures Valid() && id == old(nextStreamId) && State() == old(State()).(nextStreamId := id + 1)
    {
      id := nextStreamId;
      nextStreamId := nextStreamId + 1;
    }

    method Insert(id: StreamId, session: SessionId)
      requires Valid() && id !in streams
      modifies this`streamsBySession, this`streams
      ensures Valid() && State() == Inserted(old(State()), id, session)
    {
      var entry := if session in streamsBySession then streamsBySession[session] else {};
      streamsBySession := streamsBySession[session := entry + {id}];
      streams := streams[id := Stream(session, [], true)];
    }

    method BindTaskSession(task: TaskId, session: SessionId)
      requires Valid()
      modifies this`sessionsByTask
      ensures Valid() && State() == Bound(old(State()), task, session)
    {
      var entry := if task in sessionsByTask then sessionsByTask[task] else {};
      sessionsByTask := sessionsByTask[task := entry + {session}];
    }

    method LoadSessions(task: TaskId) returns (sessions: set<SessionId>)
      requires Valid()
      ensures sessions == State().SessionsOf(task)
    {
      sessions := if task in sessionsByTask then sessionsByTask[task] else {};
    }

    /** Tries every sender of one session, and keeps those whose channel took the event. */
    method TrySenders(session: SessionId, event: Event)
      requires TableMatchesStreams(State()) && session in streamsBySession
      modifies this`streamsBySession, this`streams
      ensures streams == Delivered(old(State()), {session}, event)
      ensures streamsBySession == old(streamsBySession)[session := Kept(old(State()), {session}, session)]
    {
      ghost var before := State();
      var all := streamsBySession[session];
      var kept, todo := {}, all;
      while todo != {}
        invariant todo <= all && streamsBySession == before.streamsBySession
        invariant forall id :: id in kept <==> id in all && id !in todo && Open(before, id)
        invariant streams.Keys == before.streams.Keys
        invariant forall id | id in streams ::
          streams[id] == (if id in all && id !in todo then Delivered(before, {session}, event)[id]
                          else before.streams[id])
        decreases |todo|
      {
        var id :| id in todo;
        todo := todo - {id};
        if streams[id].open {
          streams := streams[id := streams[id].(received := streams[id].received + [event])];
          kept := kept + {id};
        }
      }
      assert kept == Kept(before, {session}, session);
      streamsBySession := streamsBySession[session := kept];
    }

    method TryAllSenders(sessions: set<SessionId>, event: Event)
      requires TableMatchesStreams(State())
      modifies this`streamsBySession, this`streams
      ensures State() == Tried(old(State()), sessions, event)
    {
      ghost var before := State();
      var todo := sessions;
      TriedNone(before, event);
      while todo != {}
        invariant todo <= sessions && State() == Tried(before, sessions - todo, event)
        decreases |todo|
      {
        var session :| session in todo;
        ghost var done := sessions - todo;
        todo := todo - {session};
        assert sessions - todo == done + {session};
        TriedMatches(before, done, event);
        if session in streamsBySession {
          TryOneMoreStreams(before, done, session, event);
          TryOneMoreTable(before, done, session, event);
          TrySenders(session, event);
        } else {
          TryAbsent(before, done, session, event);
        }
      }
      assert sessions - todo == sessions;
    }

    method SendToSessions(sessions: set<SessionId>, event: Event)
      requires Valid()
      modifies this`streamsBySession, this`streams
      ensures Valid() && State() == SentTo(old(State()), sessions, event)
    {
      TryAllSenders(sessions, event);
      streamsBySession := map s | s in streamsBySession && streamsBySession[s] != {} :: streamsBySession[s];
    }

    method UnbindTask(task: TaskId)
      requires Valid()
      modifies this`sessionsByTask
      ensures Valid() && State() == TaskUnbound(old(State()), task)
    {
      sessionsByTask := sessionsByTask - {task};
    }

    /** The first region of an unsubscription. */
    method Remove(session: SessionId, id: StreamId) returns (sessionHasStreams: bool)
      requires Valid()
      modifies this`streamsBySession
      ensures Valid() && State() == Removed(old(State()), id, session)
      ensures sessionHasStreams <==> session in streamsBySession
    {
      if session in streamsBySession {
        var senders := streamsBySession[session] - {id};
        if senders == {} {
          streamsBySession := streamsBySession - {session};
          return false;
        }
        streamsBySession := streamsBySession[session := senders];
        return true;
      }
      return false;
    }

    /** The second region of an unsubscription. */
    method UnbindSession(session: SessionId)
      requires Valid()
      modifies this`sessionsByTask
      ensures Valid() && State() == SessionUnbound(old(State()), session)
    {
      var tasks := sessionsByTask.Keys;
      ghost var before := sessionsByTask;
      while tasks != {}
        invariant tasks <= sessionsByTask.Keys == before.Keys
        invariant forall t | t in before ::
          sessionsByTask[t] == if t in tasks then before[t] else before[t] - {session}
        decreases |tasks|
      {
        var t :| t in tasks;
        sessionsByTask := sessionsByTask[t := sessionsByTask[t] - {session}];
        tasks := tasks - {t};
      }
      sessionsByTask := map t | t in sessionsByTask && sessionsByTask[t] != {} :: sessionsByTask[t];
    }
  }
}
