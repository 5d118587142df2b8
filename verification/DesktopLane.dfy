/**
 The desktop lane: one lock that serialises runs, the id of the active run, and a table
 of cancel events. Every dispatched run executes the same little program over them; the
 programs of all runs interleave at their awaits.
 */
module DesktopLane {
  import opened Common

  /** `holder` is the run inside the lane lock; a cancel event is a flag. */
  datatype Lane = Lane(cancelEvents: map<string, bool>, active: Option<string>, holder: Option<string>)

  function SetActive(l: Lane, id: Option<string>): Lane {
    l.(active := id)
  }

  function Registered(l: Lane, id: string): Lane {
    l.(cancelEvents := l.cancelEvents[id := false])
  }

  /** The run's event is set, if it has one; the answer says whether it had. */
  function Cancelled(l: Lane, id: string): (Lane, bool) {
    if id in l.cancelEvents then (l.(cancelEvents := l.cancelEvents[id := true]), true) else (l, false)
  }

  function Cleared(l: Lane, id: string): Lane {
    l.(cancelEvents := l.cancelEvents - {id})
  }

  function Acquired(l: Lane, id: string): Lane {
    l.(holder := Some(id))
  }

  function Released(l: Lane): Lane {
    l.(holder := None)
  }

  /** The end of a run's program: the active id is cleared only by its own run. */
  function CleanedUp(l: Lane, id: string): Lane {
    if l.active == Some(id) then SetActive(l, None) else l
  }

  class DesktopLaneState {
    var cancelEvents: map<string, bool>
    var activeRunId: Option<string>
    var laneHolder: Option<string>

    ghost function Abs(): Lane
      reads this
    {
      Lane(cancelEvents, activeRunId, laneHolder)
    }

    constructor ()
      ensures Abs() == IDLE.lane
    {
      cancelEvents, activeRunId, laneHolder := map[], None, None;
    }

    method SetActiveRun(id: Option<string>)
      modifies this
      ensures Abs() == SetActive(old(Abs()), id)
    {
      activeRunId := id;
    }

    method RegisterCancel(id: string)
      modifies this
      ensures Abs() == Registered(old(Abs()), id)
      ensures cancelEvents == old(cancelEvents)[id := false]
    {
      cancelEvents := cancelEvents[id := false];
    }

    /** Only the named run is signalled, and only while it is registered. */
    method CancelRun(id: string) returns (signalled: bool)
      modifies this
      ensures (Abs(), signalled) == Cancelled(old(Abs()), id)
      ensures cancelEvents.Keys == old(cancelEvents).Keys
      ensures forall r :: r in cancelEvents ==> cancelEvents[r] == (r == id || old(cancelEvents)[r])
    {
      if id !in cancelEvents {
        return false;
      }
      cancelEvents := cancelEvents[id := true];
      signalled := true;
    }

    method ClearCancel(id: string)
      modifies this
      ensures Abs() == Cleared(old(Abs()), id)
    {
      cancelEvents := cancelEvents - {id};
    }

    /** A run takes the free lane, and its id becomes the active one. */
    method EnterLane(id: string)
      requires laneHolder.None?
      modifies this
      ensures Abs() == SetActive(Acquired(old(Abs()), id), Some(id))
    {
      laneHolder := Some(id);
      SetActiveRun(Some(id));
    }

    method LeaveLane()
      requires laneHolder.Some?
      modifies this
      ensures Abs() == Released(old(Abs()))
    {
      laneHolder := None;
    }

    method CleanUp(id: string)
      modifies this
      ensures Abs() == CleanedUp(old(Abs()), id)
    {
      if activeRunId == Some(id) {
        SetActiveRun(None);
      }
    }
  }

  // ---------------------------------------------------------- the run programs

  /** Registering: admitted, cancel event not yet made. Waiting: spawned, before the lane.
      Inside: holds the lane with its id active. Leaving: outside again, about to drop its
      cancel event. Cleaning: about to look at the active id. */
  datatype Phase = Registering | Waiting | Inside | Leaving | Cleaning | Ended

  datatype System = System(lane: Lane, phase: map<string, Phase>)

  const IDLE := System(Lane(map[], None, None), map[])

  datatype Event = Dispatch(id: string) | Register(id: string) | Enter(id: string) | Leave(id: string)
    | Abort(id: string) | DropEvent(id: string) | CleanUp(id: string) | Cancel(id: string)

  predicate At(s: System, id: string, p: Phase) {
    id in s.phase && s.phase[id] == p
  }

  /** A dispatch is refused while some run id is active; Abort is a run's task being
      cancelled while it waits for the lane. */
  predicate Enabled(s: System, e: Event) {
    match e
    case Dispatch(id) => id !in s.phase && s.lane.active.None?
    case Register(id) => At(s, id, Registering)
    case Enter(id) => At(s, id, Waiting) && s.lane.holder.None?
    case Leave(id) => At(s, id, Inside)
    case Abort(id) => At(s, id, Waiting)
    case DropEvent(id) => At(s, id, Leaving)
    case CleanUp(id) => At(s, id, Cleaning)
    case Cancel(id) => id in s.lane.cancelEvents
  }

  function Next(s: System, e: Event): (t: System)
    requires Enabled(s, e)
  {
    var lane := s.lane;
    match e
    case Dispatch(id) => s.(phase := s.phase[id := Registering])
    case Register(id) => System(Registered(lane, id), s.phase[id := Waiting])
    case Enter(id) => System(SetActive(Acquired(lane, id), Some(id)), s.phase[id := Inside])
    case Leave(id) => System(Released(lane), s.phase[id := Leaving])
    case Abort(id) => s.(phase := s.phase[id := Leaving])
    case DropEvent(id) => System(Cleared(lane, id), s.phase[id := Cleaning])
    case CleanUp(id) => System(CleanedUp(lane, id), s.phase[id := Ended])
    case Cancel(id) => s.(lane := Cancelled(lane, id).0)
  }

  function Run(trace: seq<Event>): (r: Option<System>) {
    if trace == [] then Some(IDLE)
    else match Run(trace[..|trace| - 1])
         case None => None
         case Some(s) => if Enabled(s, trace[|trace| - 1]) then Some(Next(s, trace[|trace| - 1])) else None
  }

  predicate RunInv(s: System, id: string)
    requires id in s.phase
  {
    && (s.phase[id] == Inside <==> s.lane.holder == Some(id))
    && (s.phase[id] == Inside ==> s.lane.active == Some(id))
    && (s.lane.active == Some(id) ==> s.phase[id] in {Inside, Leaving, Cleaning})
    && (id in s.lane.cancelEvents <==> s.phase[id] in {Waiting, Inside, Leaving})
  }

  predicate Inv(s: System) {
    && (forall id :: id in s.phase ==> RunInv(s, id))
    && s.lane.cancelEvents.Keys <= s.phase.Keys
    && (s.lane.holder.Some? ==> s.lane.holder.value in s.phase)
    && (s.lane.active.Some? ==> s.lane.active.value in s.phase)
  }

  lemma NextKeepsInv(s: System, e: Event)
    requires Inv(s) && Enabled(s, e)
    ensures Inv(Next(s, e))
  {
    var t := Next(s, e);
    assert e.id in s.phase ==> RunInv(s, e.id);
    forall id | id in t.phase ensures RunInv(t, id) {
      assert id in s.phase ==> RunInv(s, id);
    }
  }

  lemma {:induction false} ReachableInv(trace: seq<Event>)
    ensures Run(trace).Some? ==> Inv(Run(trace).value)
  {
    hide Inv, Next, Enabled;
    if trace == [] {
      assert Inv(IDLE) by { IdleInv(); }
    } else {
      ReachableInv(trace[..|trace| - 1]);
      var before := Run(trace[..|trace| - 1]);
      if before.Some? && Enabled(before.value, trace[|trace| - 1]) {
        NextKeepsInv(before.value, trace[|trace| - 1]);
      }
    }
  }

  lemma IdleInv()
    ensures Inv(IDLE)
  {
  }

  /** The last event of a run's own program; a cancel request is not one. */
  function LastOwn(trace: seq<Event>, id: string): Option<Event> {
    if trace == [] then None
    else
      var last := trace[|trace| - 1];
      if last.id == id && !last.Cancel? then Some(last) else LastOwn(trace[..|trace| - 1], id)
  }

  /** The phase in which its last own event leaves a run. */
  predicate Reached(e: Event, p: Phase) {
    match p
    case Registering => e.Dispatch?
    case Waiting => e.Register?
    case Inside => e.Enter?
    case Leaving => e.Leave? || e.Abort?
    case Cleaning => e.DropEvent?
    case Ended => e.CleanUp?
  }

  /** The run is where its last own event left it, and its cancel event, while there is one, is set
      exactly when a cancel request was made: a new event starts out clear, no other run's request
      sets it, and nothing clears it again. */
  ghost predicate Follows(s: System, id: string, last: Option<Event>, requested: bool) {
    && (id in s.phase <==> last.Some?)
    && (id in s.phase ==> Reached(last.value, s.phase[id]))
    && (requested ==> id in s.phase && s.phase[id] != Registering)
    && (id in s.lane.cancelEvents ==> (s.lane.cancelEvents[id] <==> requested))
  }

  lemma NextFollows(s: System, e: Event, id: string, last: Option<Event>, requested: bool)
    requires Inv(s) && Enabled(s, e) && Follows(s, id, last, requested)
    ensures Follows(Next(s, e), id, if e.id == id && !e.Cancel? then Some(e) else last, requested || e == Cancel(id))
  {
    assert id in s.phase ==> RunInv(s, id);
  }

  lemma {:induction false} TraceFollows(trace: seq<Event>, id: string)
    requires Run(trace).Some?
    ensures Follows(Run(trace).value, id, LastOwn(trace, id), Cancel(id) in trace)
  {
    hide Enabled, Next, Inv, Follows;
    if trace == [] {
      NothingFollows(id);
    } else {
      var before, e := trace[..|trace| - 1], trace[|trace| - 1];
      TraceFollows(before, id);
      ReachableInv(before);
      NextFollows(Run(before).value, e, id, LastOwn(before, id), Cancel(id) in before);
      assert trace == before + [e];
    }
  }

  lemma NothingFollows(id: string)
    ensures Follows(IDLE, id, None, false)
  {
  }

  lemma CancelFlagExactly(trace: seq<Event>, id: string)
    requires Run(trace).Some? && id in Run(trace).value.lane.cancelEvents
    ensures Run(trace).value.lane.cancelEvents[id] <==> Cancel(id) in trace
  {
    TraceFollows(trace, id);
  }

  lemma PhaseExactly(trace: seq<Event>, id: string)
    requires Run(trace).Some?
    ensures id in Run(trace).value.phase <==> LastOwn(trace, id).Some?
    ensures id in Run(trace).value.phase ==> Reached(LastOwn(trace, id).value, Run(trace).value.phase[id])
  {
    TraceFollows(trace, id);
  }

  /** At most one run is inside the lane, and the active id is that run's. */
  lemma MutualExclusion(trace: seq<Event>, a: string, b: string)
    requires Run(trace).Some? && At(Run(trace).value, a, Inside) && At(Run(trace).value, b, Inside)
    ensures a == b && Run(trace).value.lane.active == Some(a)
  {
    ReachableInv(trace);
    var s := Run(trace).value;
    assert RunInv(s, a) && RunInv(s, b);
  }

  /** Late clean-up of one run never takes the lane's id away from a run inside it. */
  lemma LateCleanUpIsHarmless(trace: seq<Event>, late: string, inside: string)
    requires Run(trace).Some? && At(Run(trace).value, late, Cleaning) && At(Run(trace).value, inside, Inside)
    ensures var after := Next(Run(trace).value, CleanUp(late));
      after.lane.active == Some(inside) && At(after, inside, Inside) && At(after, late, Ended)
  {
    ReachableInv(trace);
    assert RunInv(Run(trace).value, inside);
  }

  /** When every run has ended nothing is left behind: no active id, no holder, no cancel event. */
  lemma AllEndedIsIdle(trace: seq<Event>)
    requires Run(trace).Some? && forall id :: id in Run(trace).value.phase ==> Run(trace).value.phase[id] == Ended
    ensures Run(trace).value.lane == IDLE.lane
  {
    ReachableInv(trace);
    var s := Run(trace).value;
    hide Run;
    assert forall id :: id in s.phase ==> RunInv(s, id);
    assert s.lane.cancelEvents == map[];
  }

  /** A cancel request reaches a run exactly while it waits, works, or is on its way out. */
  lemma CancellableExactly(trace: seq<Event>, id: string)
    requires Run(trace).Some?
    ensures var s := Run(trace).value;
      Enabled(s, Cancel(id)) <==> At(s, id, Waiting) || At(s, id, Inside) || At(s, id, Leaving)
  {
    ReachableInv(trace);
    var s := Run(trace).value;
    if id in s.phase {
      assert RunInv(s, id);
    }
  }

  /** The lane never deadlocks: as long as some run has not ended, a run can take a step. */
  lemma SomeRunCanStep(trace: seq<Event>, id: string)
    requires Run(trace).Some? && id in Run(trace).value.phase && Run(trace).value.phase[id] != Ended
    ensures exists e: Event :: e.id in Run(trace).value.phase && !e.Cancel? && !e.Abort? && Enabled(Run(trace).value, e)
  {
    ReachableInv(trace);
    var s := Run(trace).value;
    assert RunInv(s, id);
    var e := match s.phase[id]
      case Registering => Register(id)
      case Waiting => if s.lane.holder.None? then Enter(id) else Leave(s.lane.holder.value)
      case Inside => Leave(id)
      case Leaving => DropEvent(id)
      case _ => CleanUp(id);
    if s.phase[id] == Waiting && s.lane.holder.Some? {
      assert RunInv(s, s.lane.holder.value);
    }
    assert Enabled(s, e);
  }

  /** A dispatch is refused while a run is inside, but the check does not admit runs one by
      one: two dispatches before the first run enters the lane are both admitted. */
  lemma DispatchAdmitsTwo(a: string, b: string)
    requires a != b
    ensures var trace := [Dispatch(a), Dispatch(b)];
      Run(trace).Some? && At(Run(trace).value, a, Registering) && At(Run(trace).value, b, Registering)
  {
    var one, two := [Dispatch(a)], [Dispatch(a), Dispatch(b)];
    assert one[..0] == [] && two[..1] == one;
    assert Run(one) == Some(IDLE.(phase := map[a := Registering]));
  }

  /** The run that entered the lane last. */
  function LastEntered(trace: seq<Event>): (r: Option<string>) {
    if trace == [] then None
    else if trace[|trace| - 1].Enter? then Some(trace[|trace| - 1].id)
    else LastEntered(trace[..|trace| - 1])
  }

  /** The active id is that of the run that entered last, until that run has ended. */
  ghost predicate ActiveFollows(s: System, last: Option<string>) {
    match last
    case None => s.lane.active == None
    case Some(r) => r in s.phase && s.lane.active == (if s.phase[r] == Ended then None else Some(r))
  }

  lemma NextKeepsActive(s: System, e: Event, last: Option<string>)
    requires Enabled(s, e) && ActiveFollows(s, last)
    ensures ActiveFollows(Next(s, e), if e.Enter? then Some(e.id) else last)
  {
  }

  lemma {:induction false} ActiveIsLastEntered(trace: seq<Event>)
    requires Run(trace).Some?
    ensures ActiveFollows(Run(trace).value, LastEntered(trace))
  {
    hide Enabled, Next;
    if trace != [] {
      var before := trace[..|trace| - 1];
      ActiveIsLastEntered(before);
      NextKeepsActive(Run(before).value, trace[|trace| - 1], LastEntered(before));
    }
  }

  /** In every reachable state the dispatch of a new run is refused exactly while the run that
      entered the lane last has not cleaned up. */
  lemma DispatchRefusedExactly(trace: seq<Event>, id: string)
    requires Run(trace).Some? && id !in Run(trace).value.phase
    ensures var s, last := Run(trace).value, LastEntered(trace);
      !Enabled(s, Dispatch(id)) <==>
        last.Some? && (At(s, last.value, Inside) || At(s, last.value, Leaving) || At(s, last.value, Cleaning))
  {
    hide Run, LastEntered;
    ActiveIsLastEntered(trace);
    ReachableInv(trace);
    var s, last := Run(trace).value, LastEntered(trace);
    if s.lane.active.Some? {
      assert RunInv(s, s.lane.active.value);
    }
  }

  lemma DispatchRefusedWhileInside(trace: seq<Event>, inside: string, id: string)
    requires Run(trace).Some? && At(Run(trace).value, inside, Inside)
    ensures !Enabled(Run(trace).value, Dispatch(id))
  {
    ReachableInv(trace);
    assert RunInv(Run(trace).value, inside);
  }
}
