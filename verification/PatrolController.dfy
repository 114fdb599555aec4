/** Driving a patrol route, and the audit of its trace:
    robot_brain/navigation/patrol_controller.py:50-95 and 139-180. */
module PatrolController {
  import opened Grid
  import opened GoalLifecycle

  datatype PatrolResult = PatrolResult(
    completed: bool, canceled: bool, attempted: nat, reached: nat, failed: nat, cyclesCompleted: nat, last: Option<Status>)

  datatype Event = RouteEvidence(ok: bool) | Command(attempt: nat) | Terminal(attempt: nat, status: Status) | RunFinished(result: PatrolResult)

  /** What the world answers during one waypoint; `raises` is a submission that
      fails with an exception. */
  datatype Visit = Visit(cancelBefore: bool, raises: bool, accepted: bool, status: Status, cancelAfter: bool)

  /** The waypoint is reached and nothing is cancelled around it. */
  predicate IsClean(v: Visit) {
    !v.cancelBefore && !v.raises && v.accepted && v.status == Succeeded && !v.cancelAfter
  }

  /** A goal is submitted without an exception. */
  predicate Submits(v: Visit) { !v.cancelBefore && !v.raises }

  /** The waypoint counts as failed: refused, or ended in a status that is neither success nor
      cancellation while nobody cancels. */
  predicate Fails(v: Visit) {
    Submits(v) && (!v.accepted || (!v.cancelAfter && v.status != Canceled && v.status != Succeeded))
  }

  /** The run ends canceled at this waypoint. */
  predicate Cancels(v: Visit) {
    v.cancelBefore || (!v.raises && v.accepted && (v.cancelAfter || v.status == Canceled))
  }

  lemma VisitOutcomes(v: Visit)
    ensures IsClean(v) <==> !Cancels(v) && !v.raises && !Fails(v)
    ensures !(Cancels(v) && Fails(v)) && !(Fails(v) && v.raises)
  {
  }

  function CleanVisits(world: nat -> Visit, n: nat): nat {
    if n == 0 then 0 else CleanVisits(world, n - 1) + if IsClean(world(n - 1)) then 1 else 0
  }

  lemma {:induction false} AllClean(world: nat -> Visit, n: nat)
    ensures CleanVisits(world, n) <= n
    ensures CleanVisits(world, n) == n <==> forall k :: 0 <= k < n ==> IsClean(world(k))
  {
    if n > 0 {
      AllClean(world, n - 1);
    }
  }

  // ----- the audit -----

  datatype Summary = Summary(route: Option<bool>, commands: nat, terminals: nat, failing: bool, final: Option<PatrolResult>)
  {
    function Add(e: Event): Summary {
      match e
      case RouteEvidence(ok) => this.(route := Some(ok))
      case Command(_) => this.(commands := commands + 1)
      case Terminal(_, status) => this.(terminals := terminals + 1, failing := failing || status != Succeeded)
      case RunFinished(result) => this.(final := Some(result))
    }
  }

  function Summarize(events: seq<Event>): Summary {
    if events == [] then Summary(None, 0, 0, false, None)
    else Summarize(events[..|events| - 1]).Add(events[|events| - 1])
  }

  lemma SummarizeNext(events: seq<Event>, e: Event)
    ensures Summarize(events + [e]) == Summarize(events).Add(e)
  {
    assert (events + [e])[..|events|] == events;
  }

  datatype Failure = RouteMissing | RouteNotVerified | IncompleteChain | WaypointFailed | NotCompleted | CountMismatch

  function Evaluate(events: seq<Event>): seq<Failure> {
    var s := Summarize(events);
    (if s.route.None? then [RouteMissing] else if !s.route.value then [RouteNotVerified] else [])
    + (if s.commands != s.terminals then [IncompleteChain] else [])
    + (if s.failing then [WaypointFailed] else [])
    + (if s.final.None? || !s.final.value.completed || s.final.value.failed != 0 then [NotCompleted]
       else if s.final.value.attempted != s.final.value.reached then [CountMismatch] else [])
  }

  lemma AcceptedExactly(events: seq<Event>)
    ensures Evaluate(events) == [] <==> var s := Summarize(events);
      && s.route == Some(true) && s.commands == s.terminals && !s.failing
      && s.final.Some? && s.final.value.completed && s.final.value.failed == 0 && s.final.value.attempted == s.final.value.reached
  {
  }

  /** Trace and counters of a patrol in progress. */
  datatype Progress = Progress(attempted: nat, reached: nat, failed: nat, cycles: nat, last: Option<Status>)
  {
    predicate Explains(s: Summary, route: Option<bool>) {
      && s.route == route && s.final.None? && s.commands == attempted == reached + failed
      && s.terminals <= s.commands
      && (failed == 0 ==> s.terminals == s.commands && !s.failing)
    }

    function Result(completed: bool, canceled: bool): PatrolResult {
      PatrolResult(completed, canceled, attempted, reached, failed, cycles, last)
    }
  }

  /** What one waypoint adds to the counters and to the trace, however the run leaves it. */
  ghost predicate Advances(v: Visit, p: Progress, next: Progress, s: Summary, after: Summary) {
    && next.attempted == p.attempted + (if Submits(v) then 1 else 0)
    && next.reached == p.reached + (if IsClean(v) then 1 else 0)
    && next.failed == p.failed + (if Fails(v) then 1 else 0)
    && next.cycles == p.cycles
    && next.last == (if !Submits(v) then p.last else Some(if v.accepted then v.status else Failed))
    && after == s.(
         commands := s.commands + (if Submits(v) then 1 else 0),
         terminals := s.terminals + (if Submits(v) && v.accepted then 1 else 0),
         failing := s.failing || (Submits(v) && v.accepted && v.status != Succeeded))
  }

  /** How a waypoint leaves the loop: not at all, through `_finish`, or by an exception. */
  datatype Exit = GoOn | Return(canceled: bool) | Raised

  class PatrolRunner {
    var events: seq<Event>
    var cancel: bool
    var active: Option<nat>

    constructor (evidence: seq<Event>)
      ensures events == evidence
    {
      events, cancel, active := evidence, false, None;
    }

    method Emit(e: Event)
      modifies this`events
      ensures old(events) <= events && |events| == |old(events)| + 1 && events[|old(events)|] == e
      ensures Summarize(events) == Summarize(old(events)).Add(e)
    {
      SummarizeNext(events, e);
      events := events + [e];
    }

    /** One waypoint, up to the point where the run goes on, returns, or raises. */
    method DriveWaypoint(visit: Visit, continueOnFailure: bool, p: Progress, ghost route: Option<bool>)
      returns (next: Progress, exit: Exit)
      requires p.Explains(Summarize(events), route) && !cancel
      modifies this
      ensures Advances(visit, p, next, Summarize(old(events)), Summarize(events))
      ensures exit == Return(true) <==> Cancels(visit)
      ensures exit == Return(false) <==> Fails(visit) && !continueOnFailure
      ensures exit == Raised <==> !visit.cancelBefore && visit.raises
      ensures exit == GoOn ==> !cancel && next.attempted == p.attempted + 1 && next.Explains(Summarize(events), route)
    {
      next, exit := p, GoOn;
      cancel := visit.cancelBefore;
      if cancel {
        return next, Return(true);
      }
      if visit.raises {
        return next, Raised;
      }
      next := next.(attempted := p.attempted + 1);
      Emit(Command(next.attempted));
      if !visit.accepted {
        next := next.(failed := p.failed + 1, last := Some(Failed));
        return next, if continueOnFailure then GoOn else Return(false);
      }
      active := Some(next.attempted);
      next := next.(last := Some(visit.status));
      Emit(Terminal(next.attempted, visit.status));
      active := None;
      cancel := visit.cancelAfter;
      if cancel || visit.status == Canceled {
        return next, Return(true);
      }
      if visit.status == Succeeded {
        next := next.(reached := p.reached + 1);
      } else {
        next := next.(failed := p.failed + 1);
        exit := if continueOnFailure then GoOn else Return(false);
      }
    }

    /** One pass over the route. */
    method DriveCycle(route: nat, continueOnFailure: bool, world: nat -> Visit, start: Progress, ghost evidence: Option<bool>)
      returns (p: Progress, exit: Exit)
      requires !cancel && start.Explains(Summarize(events), evidence) && start.reached == CleanVisits(world, start.attempted)
      modifies this
      ensures Summarize(events).final.None? && Summarize(events).route == evidence
      ensures exit == GoOn ==>
        && p.Explains(Summarize(events), evidence) && p.cycles == start.cycles && p.attempted == start.attempted + route
        && p.reached == CleanVisits(world, p.attempted) && !cancel
      ensures exit != GoOn ==> exists k :: start.attempted <= k < start.attempted + route && !IsClean(world(k))
    {
      p, exit := start, GoOn;
      for k := 0 to route
        invariant p.Explains(Summarize(events), evidence) && p.cycles == start.cycles && p.attempted == start.attempted + k
        invariant exit == GoOn && !cancel && p.reached == CleanVisits(world, p.attempted)
      {
        ghost var at := p.attempted;
        p, exit := DriveWaypoint(world(p.attempted), continueOnFailure, p, evidence);
        VisitOutcomes(world(at));
        if exit != GoOn {
          assert !IsClean(world(at));
          return;
        }
      }
    }

    method DriveCycles(route: nat, cycles: nat, continueOnFailure: bool, world: nat -> Visit, start: Progress, ghost evidence: Option<bool>)
      returns (p: Progress, exit: Exit)
      requires !cancel && start.Explains(Summarize(events), evidence) && start.cycles == start.attempted == start.reached == 0
      modifies this
      ensures Summarize(events).final.None? && Summarize(events).route == evidence
      ensures exit == GoOn ==>
        && p.Explains(Summarize(events), evidence) && p.cycles == cycles && p.attempted == Waypoints(route, cycles)
        && p.reached == CleanVisits(world, p.attempted) && !cancel
      ensures exit != GoOn ==> exists k :: 0 <= k < Waypoints(route, cycles) && !IsClean(world(k))
    {
      p, exit := start, GoOn;
      for c := 0 to cycles
        invariant p.Explains(Summarize(events), evidence) && p.cycles == c && p.attempted == Waypoints(route, c)
        invariant exit == GoOn && !cancel && p.reached == CleanVisits(world, p.attempted)
      {
        NextCycle(route, c);
        CyclesLeft(route, c + 1, cycles);
        p, exit := DriveCycle(route, continueOnFailure, world, p, evidence);
        if exit != GoOn {
          return;
        }
        p := p.(cycles := p.cycles + 1);
      }
    }

    method Finish(p: Progress, completed: bool, canceled: bool) returns (result: Option<PatrolResult>)
      modifies this`events
      ensures result == Some(p.Result(completed, canceled))
      ensures Summarize(events) == Summarize(old(events)).(final := result)
    {
      result := Some(p.Result(completed, canceled));
      Emit(RunFinished(result.value));
    }

    /** Whatever the world answers, the audit accepts the trace exactly when the
        route evidence was good and the run came back completed with no failure. */
    method Run(route: nat, cycles: int, continueOnFailure: bool, world: nat -> Visit) returns (result: Option<PatrolResult>)
      requires forall k :: 0 <= k < |events| ==> events[k].RouteEvidence?
      modifies this
      ensures Evaluate(events) == [] <==>
        Summarize(old(events)).route == Some(true) && result.Some? && result.value.completed && result.value.failed == 0
      ensures Summarize(events).final == result
      ensures result.Some? && result.value.completed ==>
        var passes := if route == 0 || cycles <= 0 then 0 else cycles;
        result.value.cyclesCompleted == passes && result.value.attempted == Waypoints(route, passes)
      ensures var passes := if route == 0 || cycles <= 0 then 0 else cycles;
        (result.Some? && result.value.completed && result.value.failed == 0)
        <==> forall k :: 0 <= k < Waypoints(route, passes) ==> IsClean(world(k))
    {
      cancel := false;
      EvidenceOnly(events);
      var p, exit := Progress(0, 0, 0, 0, None), GoOn;
      if route != 0 && cycles > 0 {
        p, exit := DriveCycles(route, cycles, continueOnFailure, world, p, Summarize(events).route);
      }
      AllClean(world, p.attempted);
      if exit == Raised {
        result := None;
      } else {
        result := Finish(p, exit == GoOn, exit == Return(true));
      }
      AcceptedExactly(events);
    }
  }

  function Waypoints(route: nat, cycles: nat): nat { route * cycles }

  lemma CyclesLeft(route: nat, c: nat, cycles: nat)
    requires c <= cycles
    ensures Waypoints(route, c) <= Waypoints(route, cycles)
  {
    assert route * (cycles - c) >= 0;
    assert route * cycles == route * c + route * (cycles - c);
  }

  lemma NextCycle(route: nat, c: nat)
    ensures Waypoints(route, c) + route == Waypoints(route, c + 1)
  {
  }

  lemma {:induction false} EvidenceOnly(events: seq<Event>)
    requires forall k :: 0 <= k < |events| ==> events[k].RouteEvidence?
    ensures Summarize(events) == Summary(Summarize(events).route, 0, 0, false, None)
  {
    if events != [] {
      EvidenceOnly(events[..|events| - 1]);
    }
  }
}
