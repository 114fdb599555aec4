/** Executing a surface path segment by segment, and the audit of its trace:
    robot_brain/navigation/terrain_controller.py:50-136. */
module TerrainController {
  import opened RealMath
  import opened Grid
  import opened Costmap
  import opened Poses
  import opened GoalLifecycle

  datatype StopReason =
    | AlreadyAtGoal | GoalReached | CanceledRun | LocalizationUnavailable | SegmentExceedsLimit | GoalRejected | NavigationFailed

  datatype Execution = Execution(completed: bool, canceled: bool, attempted: nat, reached: nat, last: Option<Status>, reason: StopReason)

  datatype Event = Command(index: nat, distance: real) | Terminal(index: nat, status: Status) | RunFinished(result: Execution)

  /** What the world answers during one segment. */
  datatype Visit = Visit(cancelBefore: bool, pose: Option<Pose>, accepted: bool, status: Status, cancelAfter: bool)

  /** Why a segment ends the run, in the order the causes are looked at; `None`
      when its end is reached. */
  function Obstacle(sqrt: real -> real, maxSegment: real, target: Point3, v: Visit): Option<StopReason> {
    if v.cancelBefore then Some(CanceledRun)
    else if v.pose.None? then Some(LocalizationUnavailable)
    else if Hypot(sqrt, target.x - v.pose.value.x, target.y - v.pose.value.y) > maxSegment + 0.000000001 then Some(SegmentExceedsLimit)
    else if !v.accepted then Some(GoalRejected)
    else if v.cancelAfter || v.status == Canceled then Some(CanceledRun)
    else if v.status != Succeeded then Some(NavigationFailed)
    else None
  }

  /** The segment is short enough to be submitted. */
  predicate Submits(sqrt: real -> real, maxSegment: real, target: Point3, v: Visit) {
    && !v.cancelBefore && v.pose.Some?
    && Hypot(sqrt, target.x - v.pose.value.x, target.y - v.pose.value.y) <= maxSegment + 0.000000001
  }

  function StatusOf(v: Visit): Status { if v.accepted then v.status else Failed }

  /** Whether the segment that stopped the run was submitted. */
  predicate StoppedSubmits(sqrt: real -> real, maxSegment: real, path: seq<Point3>, world: nat -> Visit, reached: nat) {
    reached + 1 < |path| && Submits(sqrt, maxSegment, path[reached + 1], world(reached))
  }

  /** Obstacles along a path, one visit a segment. */
  function Obstacles(sqrt: real -> real, maxSegment: real, path: seq<Point3>, world: nat -> Visit): nat -> Option<StopReason> {
    (k: nat) => if k + 1 < |path| then Obstacle(sqrt, maxSegment, path[k + 1], world(k)) else None
  }

  // ----- the audit -----

  datatype Summary = Summary(commands: nat, terminals: nat, failing: bool, final: Option<Execution>)

  function Summarize(events: seq<Event>): Summary {
    if events == [] then Summary(0, 0, false, None)
    else
      var s := Summarize(events[..|events| - 1]);
      match events[|events| - 1]
      case Command(_, _) => s.(commands := s.commands + 1)
      case Terminal(_, status) => s.(terminals := s.terminals + 1, failing := s.failing || status != Succeeded)
      case RunFinished(result) => s.(final := Some(result))
  }

  lemma SummarizeNext(events: seq<Event>, e: Event)
    ensures Summarize(events + [e]) == var s := Summarize(events);
      match e
      case Command(_, _) => s.(commands := s.commands + 1)
      case Terminal(_, status) => s.(terminals := s.terminals + 1, failing := s.failing || status != Succeeded)
      case RunFinished(result) => s.(final := Some(result))
  {
    assert (events + [e])[..|events|] == events;
  }

  datatype Failure = IncompleteChain | SegmentFailed | NotCompleted | CountMismatch

  /** The failures the evaluator lists; the trace is accepted when there are none. */
  function Evaluate(events: seq<Event>): seq<Failure> {
    var s := Summarize(events);
    (if s.commands != s.terminals then [IncompleteChain] else [])
    + (if s.failing then [SegmentFailed] else [])
    + (if s.final.None? || !s.final.value.completed || s.final.value.reason !in {GoalReached, AlreadyAtGoal} then [NotCompleted]
       else if s.final.value.attempted != s.final.value.reached then [CountMismatch] else [])
  }

  lemma AcceptedExactly(events: seq<Event>)
    ensures Evaluate(events) == [] <==> var s := Summarize(events);
      && s.commands == s.terminals && !s.failing
      && s.final.Some? && s.final.value.completed && s.final.value.reason in {GoalReached, AlreadyAtGoal}
      && s.final.value.attempted == s.final.value.reached
  {
  }

  class TerrainPathController {
    const sqrt: real -> real
    const maxSegment: real
    var events: seq<Event>
    var cancel: bool
    var goal: Option<nat>

    constructor (sqrt: real -> real, maxSegment: real)
      ensures this.sqrt == sqrt && this.maxSegment == maxSegment && events == []
    {
      this.sqrt, this.maxSegment := sqrt, maxSegment;
      events, cancel, goal := [], false, None;
    }

    method Finish(completed: bool, canceled: bool, attempted: nat, reached: nat, last: Option<Status>, reason: StopReason)
      returns (result: Execution)
      modifies this`events
      ensures result == Execution(completed, canceled, attempted, reached, last, reason)
      ensures events == old(events) + [RunFinished(result)]
      ensures Summarize(events) == Summarize(old(events)).(final := Some(result))
    {
      result := Execution(completed, canceled, attempted, reached, last, reason);
      SummarizeNext(events, RunFinished(result));
      events := events + [RunFinished(result)];
    }

    method Emit(e: Event)
      requires !e.RunFinished?
      modifies this`events
      ensures events == old(events) + [e]
      ensures e.Command? ==> Summarize(events) == Summarize(old(events)).(commands := Summarize(old(events)).commands + 1)
      ensures e.Terminal? ==> Summarize(events) == Summarize(old(events)).(
        terminals := Summarize(old(events)).terminals + 1, failing := Summarize(old(events)).failing || e.status != Succeeded)
    {
      SummarizeNext(events, e);
      events := events + [e];
    }

    /** One segment, up to the point where its end is reached or the run must stop. */
    method DriveSegment(target: Point3, visit: Visit, attempted: nat, before: Option<Status>)
      returns (obstacle: Option<StopReason>, attempts: nat, last: Option<Status>)
      requires !cancel && Summarize(events) == Summary(attempted, attempted, false, None)
      modifies this
      ensures obstacle == Obstacle(sqrt, maxSegment, target, visit)
      ensures obstacle.None? ==> !cancel && attempts == attempted + 1 && Summarize(events) == Summary(attempts, attempts, false, None)
      ensures var submits := Submits(sqrt, maxSegment, target, visit);
        && attempts == attempted + (if submits then 1 else 0) && last == (if submits then Some(StatusOf(visit)) else before)
        && Summarize(events) == Summary(attempts, attempted + (if submits && visit.accepted then 1 else 0),
                                        submits && visit.accepted && visit.status != Succeeded, None)
      ensures obstacle != Some(AlreadyAtGoal) && obstacle != Some(GoalReached)
    {
      obstacle, attempts, last := None, attempted, before;
      cancel := visit.cancelBefore;
      if cancel {
        return Some(CanceledRun), attempts, last;
      }
      if visit.pose.None? {
        return Some(LocalizationUnavailable), attempts, last;
      }
      var distance := Hypot(sqrt, target.x - visit.pose.value.x, target.y - visit.pose.value.y);
      if distance > maxSegment + 0.000000001 {
        return Some(SegmentExceedsLimit), attempts, last;
      }
      attempts := attempted + 1;
      Emit(Command(attempts, distance));
      if !visit.accepted {
        return Some(GoalRejected), attempts, Some(Failed);
      }
      goal := Some(attempts);
      last := Some(visit.status);
      goal := None;
      Emit(Terminal(attempts, visit.status));
      cancel := visit.cancelAfter;
      if cancel || visit.status == Canceled {
        return Some(CanceledRun), attempts, last;
      }
      if visit.status != Succeeded {
        return Some(NavigationFailed), attempts, last;
      }
    }

    /** Whatever the world answers, the run ends at the first obstacle, with its
        reason, and the audit accepts the trace exactly when the run completed. */
    method Run(path: seq<Point3>, world: nat -> Visit) returns (result: Execution)
      requires events == []
      modifies this
      ensures Summarize(events).final == Some(result)
      ensures Evaluate(events) == [] <==> result.completed
      ensures result.completed <==> result.reason in {GoalReached, AlreadyAtGoal}
      ensures var stopped := !result.completed && StoppedSubmits(sqrt, maxSegment, path, world, result.reached);
        && result.attempted == result.reached + (if stopped then 1 else 0)
        && result.last == (if stopped then Some(StatusOf(world(result.reached)))
                           else if result.reached > 0 then Some(Succeeded) else None)
      ensures var obstacles := Obstacles(sqrt, maxSegment, path, world);
        && (forall k :: 0 <= k < result.reached ==> obstacles(k) == None)
        && (result.completed ==> result.reached == Max(0, |path| - 1))
        && (!result.completed ==> obstacles(result.reached) == Some(result.reason))
      ensures result.canceled <==> result.reason == CanceledRun
      ensures Summarize(events).commands == result.attempted
    {
      cancel := false;
      var reached: nat := 0;
      var last: Option<Status> := None;
      if |path| < 2 {
        result := Finish(true, false, 0, 0, None, AlreadyAtGoal);
        AcceptedExactly(events);
        return;
      }
      ghost var obstacles := Obstacles(sqrt, maxSegment, path, world);
      for k := 1 to |path|
        invariant reached == k - 1 && !cancel && Summarize(events) == Summary(reached, reached, false, None)
        invariant forall i :: 0 <= i < reached ==> obstacles(i) == None
        invariant last == if reached > 0 then Some(Succeeded) else None
      {
        var obstacle, attempts;
        obstacle, attempts, last := DriveSegment(path[k], world(reached), reached, last);
        assert obstacles(reached) == obstacle;
        if obstacle.Some? {
          result := Finish(false, obstacle == Some(CanceledRun), attempts, reached, last, obstacle.value);
          AcceptedExactly(events);
          return;
        }
        reached := reached + 1;
      }
      result := Finish(true, false, reached, reached, last, GoalReached);
      AcceptedExactly(events);
    }
  }
}
