/**
 Admission of task starts: the two tables that `handle_with_session` guards with two
 separate locks (src/server/handlers/mcp/start.rs).

 A start is a process that passes through the lock regions of the handler. Each region
 is atomic; between two regions of one start, regions of any other starts may happen.
 `Step` gives the effect of one region, `Run` the effect of a whole interleaving.
 */
module Admission {

  type TaskId = string
  type AgentId = string
  type StartId = nat

  /** Where a start stands between two lock regions, or how it ended. */
  datatype Phase =
    | Resolved        // about to claim its task
    | TaskClaimed     // holds its task, about to claim a slot
    | Refused         // no slot was free; still holds its task
    | Running         // holds its task and a slot
    | TaskReleased    // the run is over; still holds its slot
    | AlreadyRunning  // answered "already_running"
    | Busy            // answered "busy"
    | Finished        // answered with the result of the run

  datatype Start = Start(task: TaskId, agent: AgentId, phase: Phase) {
    predicate HoldsTask() {
      phase.TaskClaimed? || phase.Refused? || phase.Running?
    }

    predicate HoldsSlot() {
      phase.Running? || phase.TaskReleased?
    }

    predicate Ended() {
      phase.AlreadyRunning? || phase.Busy? || phase.Finished?
    }
  }

  datatype System = System(
    inFlightTasks: set<TaskId>,
    inFlightByAgent: map<AgentId, nat>,
    starts: map<StartId, Start>)

  datatype Event =
    | Arrive(p: StartId, task: TaskId, agent: AgentId)
    | ClaimTask(p: StartId)
    | ClaimSlot(p: StartId)
    | BusyRelease(p: StartId)
    | ReleaseTask(p: StartId)
    | ReleaseSlot(p: StartId)

  function Count(counts: map<AgentId, nat>, agent: AgentId): nat {
    if agent in counts then counts[agent] else 0
  }

  /** The release region of a slot, with the fallbacks for a missing entry and for zero. */
  function SlotReleased(counts: map<AgentId, nat>, agent: AgentId): map<AgentId, nat> {
    if agent !in counts then counts
    else
      var current := if counts[agent] == 0 then 0 else counts[agent] - 1;
      if current == 0 then counts - {agent} else counts[agent := current]
  }

  predicate Enabled(s: System, e: Event) {
    match e
    case Arrive(p, _, _) => p !in s.starts
    case ClaimTask(p) => p in s.starts && s.starts[p].phase.Resolved?
    case ClaimSlot(p) => p in s.starts && s.starts[p].phase.TaskClaimed?
    case BusyRelease(p) => p in s.starts && s.starts[p].phase.Refused?
    case ReleaseTask(p) => p in s.starts && s.starts[p].phase.Running?
    case ReleaseSlot(p) => p in s.starts && s.starts[p].phase.TaskReleased?
  }

  function Moved(s: System, p: StartId, phase: Phase): map<StartId, Start>
    requires p in s.starts
  {
    s.starts[p := s.starts[p].(phase := phase)]
  }

  function Step(max: nat, s: System, e: Event): System
    requires Enabled(s, e)
  {
    match e
    case Arrive(p, task, agent) =>
      s.(starts := s.starts[p := Start(task, agent, Resolved)])
    case ClaimTask(p) =>
      if s.starts[p].task in s.inFlightTasks then s.(starts := Moved(s, p, AlreadyRunning))
      else s.(inFlightTasks := s.inFlightTasks + {s.starts[p].task}, starts := Moved(s, p, TaskClaimed))
    case ClaimSlot(p) =>
      var agent := s.starts[p].agent;
      var current := Count(s.inFlightByAgent, agent);
      if current >= max then s.(starts := Moved(s, p, Refused))
      else s.(inFlightByAgent := s.inFlightByAgent[agent := current + 1], starts := Moved(s, p, Running))
    case BusyRelease(p) =>
      s.(inFlightTasks := s.inFlightTasks - {s.starts[p].task}, starts := Moved(s, p, Busy))
    case ReleaseTask(p) =>
      s.(inFlightTasks := s.inFlightTasks - {s.starts[p].task}, starts := Moved(s, p, TaskReleased))
    case ReleaseSlot(p) =>
      s.(inFlightByAgent := SlotReleased(s.inFlightByAgent, s.starts[p].agent), starts := Moved(s, p, Finished))
  }

  const INITIAL := System({}, map[], map[])

  /** `es` is an interleaving of lock regions that can happen from the empty tables. */
  predicate Interleaving(max: nat, es: seq<Event>)
    decreases |es|, 0
  {
    es == [] ||
    (Interleaving(max, es[..|es| - 1]) && Enabled(Run(max, es[..|es| - 1]), es[|es| - 1]))
  }

  function Run(max: nat, es: seq<Event>): System
    requires Interleaving(max, es)
    decreases |es|, 1
  {
    if es == [] then INITIAL
    else Step(max, Run(max, es[..|es| - 1]), es[|es| - 1])
  }

  /** Start `p` is between the claim and the release of `task`. */
  ghost predicate Holds(s: System, p: StartId, task: TaskId) {
    p in s.starts && s.starts[p].HoldsTask() && s.starts[p].task == task
  }

  ghost function SlotHolders(s: System, agent: AgentId): set<StartId> {
    set p | p in s.starts && s.starts[p].HoldsSlot() && s.starts[p].agent == agent
  }

  /** A task is in the set exactly while one start holds it, and never two. */
  ghost predicate TasksAgree(s: System) {
    && (forall p, t | Holds(s, p, t) :: t in s.inFlightTasks)
    && (forall t | t in s.inFlightTasks :: exists p :: Holds(s, p, t))
    && (forall p, q, t | Holds(s, p, t) && Holds(s, q, t) :: p == q)
  }

  /** The count of every agent is the number of its slot holders, at most `max`, never a zero entry. */
  ghost predicate SlotsAgree(max: nat, s: System) {
    && (forall a :: |SlotHolders(s, a)| == Count(s.inFlightByAgent, a))
    && (forall a | a in s.inFlightByAgent :: 0 < s.inFlightByAgent[a] <= max)
  }

  ghost predicate TablesAgree(max: nat, s: System) {
    TasksAgree(s) && SlotsAgree(max, s)
  }

  lemma CardOfInsertOrRemove(before: set<StartId>, after: set<StartId>, p: StartId)
    requires before - {p} == after - {p}
    ensures |after| == |before| + (if p in after then 1 else 0) - (if p in before then 1 else 0)
  {
    var others := before - {p};
    assert before == if p in before then others + {p} else others;
    assert after == if p in after then others + {p} else others;
  }

  predicate OnlyMoves(s: System, s': System, p: StartId) {
    && p in s'.starts && s'.starts.Keys == s.starts.Keys + {p}
    && (forall q | q in s.starts && q != p :: s'.starts[q] == s.starts[q])
  }

  lemma StepMovesOne(max: nat, s: System, e: Event)
    requires Enabled(s, e)
    ensures OnlyMoves(s, Step(max, s, e), e.p)
  {
  }

  /** How the slot holders of an agent change when only start `p` moves. */
  lemma SlotHoldersAfter(s: System, s': System, p: StartId, a: AgentId)
    requires OnlyMoves(s, s', p)
    ensures |SlotHolders(s', a)| == |SlotHolders(s, a)|
      + (if p in SlotHolders(s', a) then 1 else 0) - (if p in SlotHolders(s, a) then 1 else 0)
  {
    var before, after := SlotHolders(s, a), SlotHolders(s', a);
    forall q
      ensures q in before - {p} <==> q in after - {p}
    {
      assert q != p && q in s.starts ==> s'.starts[q] == s.starts[q];
    }
    CardOfInsertOrRemove(before, after, p);
  }

  lemma StepKeepsSlotsAgree(max: nat, s: System, e: Event)
    requires TablesAgree(max, s) && Enabled(s, e)
    ensures SlotsAgree(max, Step(max, s, e))
  {
    var s' := Step(max, s, e);
    StepMovesOne(max, s, e);
    forall a
      ensures |SlotHolders(s', a)| == Count(s'.inFlightByAgent, a)
    {
      SlotHoldersAfter(s, s', e.p, a);
      assert |SlotHolders(s, a)| == Count(s.inFlightByAgent, a);
    }
  }

  lemma StepKeepsTasksAgree(max: nat, s: System, e: Event)
    requires TablesAgree(max, s) && Enabled(s, e)
    ensures TasksAgree(Step(max, s, e))
  {
    var s' := Step(max, s, e);
    StepMovesOne(max, s, e);
    var p := e.p;
    forall q, t | q != p
      ensures Holds(s', q, t) <==> Holds(s, q, t)
    {
      assert q in s.starts ==> s'.starts[q] == s.starts[q];
    }
    assert p in s.starts && s.starts[p].HoldsTask() ==> Holds(s, p, s.starts[p].task);
    forall t | t in s'.inFlightTasks
      ensures exists q :: Holds(s', q, t)
    {
      if t in s.inFlightTasks {
        var q :| Holds(s, q, t);
        assert Holds(s', q, t) || Holds(s', p, t);
      } else {
        assert Holds(s', p, t);
      }
    }
  }

  /** Every interleaving of any number of starts keeps the tables exact. */
  lemma {:induction false} RunKeepsTablesAgree(max: nat, es: seq<Event>)
    requires Interleaving(max, es)
    ensures TablesAgree(max, Run(max, es))
  {
    if es == [] {
      forall a ensures SlotHolders(INITIAL, a) == {} {
      }
    } else {
      RunKeepsTablesAgree(max, es[..|es| - 1]);
      StepKeepsTasksAgree(max, Run(max, es[..|es| - 1]), es[|es| - 1]);
      StepKeepsSlotsAgree(max, Run(max, es[..|es| - 1]), es[|es| - 1]);
    }
  }

  /**
   What the tables promise in every interleaving: between claim and release a task belongs to
   one start only, no agent ever has more than `max` starts in a slot, and once every start
   has ended nothing is left behind.
   */
  lemma AdmissionIsSafe(max: nat, es: seq<Event>)
    requires Interleaving(max, es)
    ensures forall p, q, t | Holds(Run(max, es), p, t) && Holds(Run(max, es), q, t) :: p == q
    ensures forall a :: |SlotHolders(Run(max, es), a)| <= max
    ensures (forall p | p in Run(max, es).starts :: Run(max, es).starts[p].Ended())
            ==> Run(max, es).inFlightTasks == {} && Run(max, es).inFlightByAgent == map[]
  {
    var s := Run(max, es);
    RunKeepsTablesAgree(max, es);
    if forall p | p in s.starts :: s.starts[p].Ended() {
      forall t
        ensures t !in s.inFlightTasks
      {
        assert forall p :: !Holds(s, p, t);
      }
      forall a
        ensures a !in s.inFlightByAgent
      {
        assert SlotHolders(s, a) == {};
      }
    }
  }

  /** No release ever meets a missing table entry or a zero count, so its fallbacks are dead code. */
  lemma ReleaseFallbacksAreDead(max: nat, es: seq<Event>, e: Event)
    requires Interleaving(max, es) && Enabled(Run(max, es), e)
    ensures e.BusyRelease? || e.ReleaseTask? ==>
              Run(max, es).starts[e.p].task in Run(max, es).inFlightTasks
    ensures e.ReleaseSlot? ==>
              var agent := Run(max, es).starts[e.p].agent;
              agent in Run(max, es).inFlightByAgent && Run(max, es).inFlightByAgent[agent] > 0
  {
    var s := Run(max, es);
    RunKeepsTablesAgree(max, es);
    if e.BusyRelease? || e.ReleaseTask? {
      assert Holds(s, e.p, s.starts[e.p].task);
    } else if e.ReleaseSlot? {
      assert e.p in SlotHolders(s, s.starts[e.p].agent);
    }
  }

  /** The one start that moves is answered "already_running" only against another holder of its task,
      and "busy" only when `max` other starts occupy all slots of its agent; and conversely. */
  lemma RefusalsAreExact(max: nat, es: seq<Event>, e: Event)
    requires Interleaving(max, es) && Enabled(Run(max, es), e)
    ensures e.ClaimTask? ==>
              (Step(max, Run(max, es), e).starts[e.p].phase.AlreadyRunning? <==>
               exists q :: q != e.p && Holds(Run(max, es), q, Run(max, es).starts[e.p].task))
    ensures e.ClaimSlot? ==>
              (Step(max, Run(max, es), e).starts[e.p].phase.Refused? <==>
               |SlotHolders(Run(max, es), Run(max, es).starts[e.p].agent) - {e.p}| == max)
  {
    var s := Run(max, es);
    RunKeepsTablesAgree(max, es);
    if e.ClaimSlot? {
      var holders := SlotHolders(s, s.starts[e.p].agent);
      assert holders - {e.p} == holders;
    }
  }

  /** Lock regions a start still has ahead of it, at most. */
  function RegionsLeft(x: Start): nat {
    match x.phase
    case Resolved => 4
    case TaskClaimed => 3
    case Running => 2
    case Refused | TaskReleased => 1
    case AlreadyRunning | Busy | Finished => 0
  }

  /** A start that has not ended is never blocked: it has exactly one next region, whatever the
      tables hold, and that region brings it closer to its end without touching any other start. */
  lemma StartsAlwaysAdvance(max: nat, s: System, p: StartId)
    requires p in s.starts && !s.starts[p].Ended()
    ensures exists e: Event ::
              && !e.Arrive? && e.p == p && Enabled(s, e)
              && RegionsLeft(Step(max, s, e).starts[p]) < RegionsLeft(s.starts[p])
              && OnlyMoves(s, Step(max, s, e), p)
              && (forall e': Event | !e'.Arrive? && e'.p == p && Enabled(s, e') :: e' == e)
  {
    var e := match s.starts[p].phase
      case Resolved => ClaimTask(p)
      case TaskClaimed => ClaimSlot(p)
      case Refused => BusyRelease(p)
      case Running => ReleaseTask(p)
      case _ => ReleaseSlot(p);
    assert Enabled(s, e);
    assert RegionsLeft(Step(max, s, e).starts[p]) < RegionsLeft(s.starts[p]);
    StepMovesOne(max, s, e);
  }

  // ---- When "already_running" is true ----

  /** Start `q` is in its run at some moment of the interleaving. */
  ghost predicate EverRuns(max: nat, es: seq<Event>, q: StartId)
    requires Interleaving(max, es)
  {
    es != [] &&
    (EverRuns(max, es[..|es| - 1], q) || (q in Run(max, es).starts && Run(max, es).starts[q].phase.Running?))
  }

  /** At event `j` start `q` asks for a slot, and fewer than `max` other starts hold one of its agent. */
  ghost predicate SlotIsFree(max: nat, es: seq<Event>, j: nat, q: StartId)
    requires j < |es|
  {
    && es[j] == ClaimSlot(q) && Interleaving(max, es[..j]) && q in Run(max, es[..j]).starts
    && |SlotHolders(Run(max, es[..j]), Run(max, es[..j]).starts[q].agent) - {q}| < max
  }

  lemma {:induction false} PrefixInterleaves(max: nat, es: seq<Event>, i: nat)
    requires Interleaving(max, es) && i <= |es|
    ensures Interleaving(max, es[..i])
    ensures i < |es| ==> Enabled(Run(max, es[..i]), es[i])
  {
    if i == |es| {
      assert es[..i] == es;
    } else if i < |es| - 1 {
      PrefixInterleaves(max, es[..|es| - 1], i);
      assert es[..|es| - 1][..i] == es[..i];
    }
  }

  /** What the first `i` regions leave, in which the next one is enabled. */
  function StateAt(max: nat, es: seq<Event>, i: nat): (s: System)
    requires Interleaving(max, es) && i <= |es|
    ensures i < |es| ==> Enabled(s, es[i])
  {
    PrefixInterleaves(max, es, i);
    Run(max, es[..i])
  }

  predicate HasRun(x: Start) {
    x.phase.Running? || x.phase.TaskReleased? || x.phase.Finished?
  }

  lemma {:induction false} PhaseTellsWhetherItRan(max: nat, es: seq<Event>, q: StartId)
    requires Interleaving(max, es)
    ensures EverRuns(max, es, q) <==> q in Run(max, es).starts && HasRun(Run(max, es).starts[q])
  {
    if es != [] {
      PhaseTellsWhetherItRan(max, es[..|es| - 1], q);
    }
  }

  /** The step into the run is a request for a slot that finds one. */
  lemma StepIntoRun(max: nat, es: seq<Event>, q: StartId)
    requires es != [] && Interleaving(max, es)
    ensures SlotIsFree(max, es, |es| - 1, q) <==>
            EverRuns(max, es, q) && !EverRuns(max, es[..|es| - 1], q)
  {
    hide Step, EverRuns, SlotHolders, TablesAgree, HasRun;
    PhaseTellsWhetherItRan(max, es, q);
    PhaseTellsWhetherItRan(max, es[..|es| - 1], q);
    RunKeepsTablesAgree(max, es[..|es| - 1]);
    if es[|es| - 1] == ClaimSlot(q) {
      OthersInSlots(max, Run(max, es[..|es| - 1]), q);
    }
    SlotStep(max, Run(max, es[..|es| - 1]), es[|es| - 1], q);
  }

  predicate Ran(s: System, q: StartId) {
    q in s.starts && HasRun(s.starts[q])
  }

  lemma SlotStep(max: nat, s: System, e: Event, q: StartId)
    requires Enabled(s, e)
    requires e == ClaimSlot(q) ==>
      |SlotHolders(s, s.starts[q].agent) - {q}| == Count(s.inFlightByAgent, s.starts[q].agent)
    ensures Ran(s, q) ==> Ran(Step(max, s, e), q)
    ensures Ran(Step(max, s, e), q) && !Ran(s, q) <==>
            e == ClaimSlot(q) && |SlotHolders(s, s.starts[q].agent) - {q}| < max
  {
    hide SlotHolders, SlotReleased, Count;
    StepMovesOne(max, s, e);
  }

  lemma OthersInSlots(max: nat, s: System, q: StartId)
    requires TablesAgree(max, s) && q in s.starts && s.starts[q].phase.TaskClaimed?
    ensures |SlotHolders(s, s.starts[q].agent) - {q}| == Count(s.inFlightByAgent, s.starts[q].agent)
  {
    var holders := SlotHolders(s, s.starts[q].agent);
    assert holders - {q} == holders;
  }

  /** A start runs if and only if it once asks for a slot while fewer than `max` other starts hold one. */
  lemma {:induction false} RunsExactlyWhenASlotIsFree(max: nat, es: seq<Event>, q: StartId)
    requires Interleaving(max, es)
    ensures EverRuns(max, es, q) <==> exists j: nat :: j < |es| && SlotIsFree(max, es, j, q)
  {
    if es != [] {
      hide SlotIsFree, Step;
      var n := |es| - 1;
      RunsExactlyWhenASlotIsFree(max, es[..n], q);
      StepIntoRun(max, es, q);
      EarlierSlots(max, es, n, q);
    }
  }

  lemma StepAfterRefusal(max: nat, s: System, e: Event, q: StartId)
    requires Enabled(s, e) && q in s.starts && (s.starts[q].phase.Refused? || s.starts[q].phase.Busy?)
    ensures q in Step(max, s, e).starts
    ensures Step(max, s, e).starts[q].phase.Refused? || Step(max, s, e).starts[q].phase.Busy?
  {
  }

  /** A start that was refused a slot never runs. */
  lemma {:induction false} RefusedNeverRuns(max: nat, es: seq<Event>, i: nat, q: StartId)
    requires Interleaving(max, es) && i <= |es|
    requires q in StateAt(max, es, i).starts && StateAt(max, es, i).starts[q].phase.Refused?
    ensures q in Run(max, es).starts
    ensures Run(max, es).starts[q].phase.Refused? || Run(max, es).starts[q].phase.Busy?
    ensures !EverRuns(max, es, q)
  {
    hide Step, Enabled, EverRuns;
    PhaseTellsWhetherItRan(max, es, q);
    if i == |es| {
      assert es[..i] == es;
    } else {
      assert es[..|es| - 1][..i] == es[..i];
      RefusedNeverRuns(max, es[..|es| - 1], i, q);
      StepAfterRefusal(max, Run(max, es[..|es| - 1]), es[|es| - 1], q);
    }
  }

  /**
   When the answer "already_running" is true: the holder behind it runs, in any continuation, if and
   only if it is running already or will find fewer than `max` other starts in its agent's slots when
   it asks for one. A holder that was refused is the other case, and never runs.
   */
  lemma AlreadyRunningIsTrueExactly(max: nat, es: seq<Event>, i: nat, q: StartId)
    requires Interleaving(max, es) && i < |es| && es[i].ClaimTask?
    requires Step(max, StateAt(max, es, i), es[i]).starts[es[i].p].phase.AlreadyRunning?
    requires Holds(StateAt(max, es, i), q, StateAt(max, es, i).starts[es[i].p].task)
    ensures EverRuns(max, es, q) <==>
              || StateAt(max, es, i).starts[q].phase.Running?
              || exists j: nat :: i < j < |es| && SlotIsFree(max, es, j, q)
    ensures StateAt(max, es, i).starts[q].phase.Refused? ==> !EverRuns(max, es, q)
  {
    PrefixInterleaves(max, es, i);
    assert !SlotIsFree(max, es, i, q);
    hide EverRuns, SlotIsFree, TablesAgree;
    RunsExactlyWhenASlotIsFree(max, es, q);
    RunsExactlyWhenASlotIsFree(max, es[..i], q);
    PhaseTellsWhetherItRan(max, es[..i], q);
    EarlierSlots(max, es, i, q);
    hide Step;
    if Run(max, es[..i]).starts[q].phase.Refused? {
      RefusedNeverRuns(max, es, i, q);
    }
  }

  lemma EarlierSlots(max: nat, es: seq<Event>, i: nat, q: StartId)
    requires i <= |es|
    ensures forall j: nat | j < i :: SlotIsFree(max, es, j, q) <==> SlotIsFree(max, es[..i], j, q)
  {
    forall j: nat | j < i
      ensures SlotIsFree(max, es, j, q) <==> SlotIsFree(max, es[..i], j, q)
    {
      assert es[..i][..j] == es[..j];
    }
  }

  /**
   "already_running" does not imply that the task runs: a start that was refused a slot still
   holds its task until its busy release. Here the one slot of agent "a" is taken by task "u",
   so task "t" never runs, and still the second start of "t" is told that it does.
   */
  lemma AlreadyRunningCanBeSpurious()
    ensures exists es :: Interleaving(1, es) && Run(1, es).starts ==
              map[0 := Start("u", "a", Running), 1 := Start("t", "a", Busy), 2 := Start("t", "a", AlreadyRunning)]
  {
    var es, s := SlotRefused();
    es, s := Then(1, es, s, Arrive(2, "t", "a"));
    es, s := Then(1, es, s, ClaimTask(2));
    es, s := Then(1, es, s, BusyRelease(1));
  }

  lemma SlotRefused() returns (es: seq<Event>, s: System)
    ensures Interleaving(1, es) && Run(1, es) == s
    ensures s == System({"u", "t"}, map["a" := 1],
                        map[0 := Start("u", "a", Running), 1 := Start("t", "a", Refused)])
  {
    es, s := SlotTaken();
    es, s := Then(1, es, s, Arrive(1, "t", "a"));
    es, s := Then(1, es, s, ClaimTask(1));
    es, s := Then(1, es, s, ClaimSlot(1));
  }

  lemma SlotTaken() returns (es: seq<Event>, s: System)
    ensures Interleaving(1, es) && Run(1, es) == s
    ensures s == System({"u"}, map["a" := 1], map[0 := Start("u", "a", Running)])
  {
    es, s := Then(1, [], INITIAL, Arrive(0, "u", "a"));
    es, s := Then(1, es, s, ClaimTask(0));
    es, s := Then(1, es, s, ClaimSlot(0));
  }

  lemma Then(max: nat, es: seq<Event>, s: System, e: Event) returns (es': seq<Event>, s': System)
    requires Interleaving(max, es) && Run(max, es) == s && Enabled(s, e)
    ensures Interleaving(max, es') && Run(max, es') == s' && s' == Step(max, s, e)
  {
    es', s' := es + [e], Step(max, s, e);
    assert es'[..|es'| - 1] == es;
  }

  /**
   The tables as the handler shares them. Every method is one lock region, executed for start
   `p`; `starts` records where all starts stand.
   */
  class AdmissionTables {
    const maxParallelTasks: nat
    var inFlightTasks: set<TaskId>
    var inFlightByAgent: map<AgentId, nat>
    ghost var starts: map<StartId, Start>

    ghost function State(): System
      reads this
    {
      System(inFlightTasks, inFlightByAgent, starts)
    }

    ghost predicate Valid()
      reads this
    {
      TablesAgree(maxParallelTasks, State())
    }

    constructor (max: nat)
      ensures Valid() && maxParallelTasks == max && State() == INITIAL
    {
      maxParallelTasks := max;
      inFlightTasks, inFlightByAgent, starts := {}, map[], map[];
      new;
      RunKeepsTablesAgree(max, []);
    }

    ghost method Arrive(p: StartId, task: TaskId, agent: AgentId)
      requires Valid() && Enabled(State(), Event.Arrive(p, task, agent))
      modifies this
      ensures Valid() && State() == Step(maxParallelTasks, old(State()), Event.Arrive(p, task, agent))
    {
      ghost var e := Event.Arrive(p, task, agent);
      StepKeepsTasksAgree(maxParallelTasks, State(), e);
      StepKeepsSlotsAgree(maxParallelTasks, State(), e);
      starts := starts[p := Start(task, agent, Resolved)];
    }

    method ClaimTask(ghost p: StartId, task: TaskId) returns (alreadyRunning: bool)
      requires Valid() && Enabled(State(), Event.ClaimTask(p)) && task == starts[p].task
      modifies this
      ensures Valid() && State() == Step(maxParallelTasks, old(State()), Event.ClaimTask(p))
      ensures alreadyRunning <==> starts[p].phase.AlreadyRunning?
    {
      StepKeepsTasksAgree(maxParallelTasks, State(), Event.ClaimTask(p));
      StepKeepsSlotsAgree(maxParallelTasks, State(), Event.ClaimTask(p));
      if task in inFlightTasks {
        alreadyRunning := true;
      } else {
        inFlightTasks := inFlightTasks + {task};
        alreadyRunning := false;
      }
      starts := Moved(State(), p, if alreadyRunning then AlreadyRunning else TaskClaimed);
    }

    method ClaimSlot(ghost p: StartId, agent: AgentId) returns (busy: bool)
      requires Valid() && Enabled(State(), Event.ClaimSlot(p)) && agent == starts[p].agent
      modifies this
      ensures Valid() && State() == Step(maxParallelTasks, old(State()), Event.ClaimSlot(p))
      ensures busy <==> starts[p].phase.Refused?
    {
      StepKeepsTasksAgree(maxParallelTasks, State(), Event.ClaimSlot(p));
      StepKeepsSlotsAgree(maxParallelTasks, State(), Event.ClaimSlot(p));
      var current := if agent in inFlightByAgent then inFlightByAgent[agent] else 0;
      if current >= maxParallelTasks {
        busy := true;
      } else {
        inFlightByAgent := inFlightByAgent[agent := current + 1];
        busy := false;
      }
      starts := Moved(State(), p, if busy then Refused else Running);
    }

    /** Used both after a refusal of the slot and after the run. */
    method ReleaseTask(ghost p: StartId, task: TaskId)
      requires Valid() && p in starts && task == starts[p].task
      requires starts[p].phase.Refused? || starts[p].phase.Running?
      modifies this
      ensures Valid()
      ensures State() == Step(maxParallelTasks, old(State()),
                              if old(starts[p].phase.Refused?) then Event.BusyRelease(p) else Event.ReleaseTask(p))
    {
      ghost var e := if starts[p].phase.Refused? then Event.BusyRelease(p) else Event.ReleaseTask(p);
      StepKeepsTasksAgree(maxParallelTasks, State(), e);
      StepKeepsSlotsAgree(maxParallelTasks, State(), e);
      inFlightTasks := inFlightTasks - {task};
      starts := Moved(State(), p, if e.BusyRelease? then Busy else TaskReleased);
    }

    method ReleaseSlot(ghost p: StartId, agent: AgentId)
      requires Valid() && Enabled(State(), Event.ReleaseSlot(p)) && agent == starts[p].agent
      modifies this
      ensures Valid() && State() == Step(maxParallelTasks, old(State()), Event.ReleaseSlot(p))
    {
      StepKeepsTasksAgree(maxParallelTasks, State(), Event.ReleaseSlot(p));
      StepKeepsSlotsAgree(maxParallelTasks, State(), Event.ReleaseSlot(p));
      if agent in inFlightByAgent {
        var current := if inFlightByAgent[agent] == 0 then 0 else inFlightByAgent[agent] - 1;
        if current == 0 {
          inFlightByAgent := inFlightByAgent - {agent};
        } else {
          inFlightByAgent := inFlightByAgent[agent := current];
        }
      }
      starts := Moved(State(), p, Finished);
    }
  }
}
