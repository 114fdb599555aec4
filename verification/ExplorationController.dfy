/** Bounded frontier exploration, and the audit of its trace:
    robot_brain/navigation/exploration.py:66-197. */
module ExplorationController {
  import opened RealMath
  import opened Grid
  import opened Frontier
  import opened GoalLifecycle

  datatype StopReason = Complete | CanceledRun | MaxGoals | NoInformationGain | NavigationFailed | NoFrontier

  datatype Exploration = Exploration(
    reason: StopReason, attempted: nat, reached: nat, initialKnown: int, finalKnown: int, visited: seq<Point>, last: Option<Status>)

  datatype Event =
    | Selected(goal: Point)
    | Terminal(attempt: nat, status: Status)
    | Gain(attempt: nat, previous: int, known: int)
    | RunFinished(result: Exploration)

  /** What the world answers during one round: localization, the best frontier goal that
      avoids the visited ones, the navigation outcome, and the map afterwards. */
  datatype Round = Round(
    cancelBefore: bool, localized: bool, sameFrame: bool, frontier: seq<Point> -> Option<Point>, accepted: bool,
    status: Status, cancelAfter: bool, known: int)
  {
    /** A goal is found and submitted. */
    predicate Submits(visited: seq<Point>) {
      !cancelBefore && localized && sameFrame && frontier(visited).Some?
    }
  }

  datatype Limits = Limits(maxGoals: int, maxNoGain: int, minGain: int)

  /** Why a round ends the exploration before its gain is looked at, in the
      order the causes are looked at; `None` when its frontier is reached. */
  function Interruption(r: Round, visited: seq<Point>): Option<StopReason> {
    if r.cancelBefore then Some(CanceledRun)
    else if !r.localized || !r.sameFrame then Some(NavigationFailed)
    else if r.frontier(visited).None? then Some(if visited != [] then Complete else NoFrontier)
    else if !r.accepted then Some(NavigationFailed)
    else if r.cancelAfter || r.status == Canceled then Some(CanceledRun)
    else if r.status != Succeeded then Some(NavigationFailed)
    else None
  }

  /** The known cells counted after the latest of some rounds. */
  function LastKnown(world: nat -> Round, rounds: nat, initialKnown: int): int {
    if rounds == 0 then initialKnown else world(rounds - 1).known
  }

  /** How many of the latest rounds in a row gained too little. */
  function Streak(world: nat -> Round, rounds: nat, initialKnown: int, minGain: int): int {
    if rounds == 0 then 0
    else if world(rounds - 1).known - LastKnown(world, rounds - 1, initialKnown) < minGain
    then Streak(world, rounds - 1, initialKnown, minGain) + 1 else 0
  }

  /** The round adds less than the least gain to what was known before it. */
  predicate GainsLittle(world: nat -> Round, initialKnown: int, minGain: int, k: nat) {
    world(k).known - (if k == 0 then initialKnown else world(k - 1).known) < minGain
  }

  /** The streak counts the last rounds that all gained too little, as many as there are. */
  lemma {:induction false} StreakMeans(world: nat -> Round, rounds: nat, initialKnown: int, minGain: int, n: nat)
    ensures 0 <= Streak(world, rounds, initialKnown, minGain) <= rounds
    ensures Streak(world, rounds, initialKnown, minGain) >= n <==>
      n <= rounds && forall k: nat :: rounds - n <= k < rounds ==> GainsLittle(world, initialKnown, minGain, k)
  {
    if rounds > 0 {
      StreakMeans(world, rounds - 1, initialKnown, minGain, if n > 0 then n - 1 else 0);
      assert GainsLittle(world, initialKnown, minGain, rounds - 1) <==>
        world(rounds - 1).known - LastKnown(world, rounds - 1, initialKnown) < minGain;
    }
  }

  /** The first rounds all reached their frontiers, in this order. */
  ghost predicate Reached(world: nat -> Round, visited: seq<Point>) {
    forall k :: 0 <= k < |visited| ==> ReachedNext(world(k), visited[..k], visited[k])
  }

  ghost predicate ReachedNext(r: Round, before: seq<Point>, p: Point) {
    Interruption(r, before).None? && r.frontier(before) == Some(p)
  }

  // ----- the audit -----

  datatype Summary = Summary(selected: nat, terminals: nat, gains: nat, failing: bool, gained: int, final: Option<Exploration>)
  {
    function Add(e: Event): Summary {
      match e
      case Selected(_) => this.(selected := selected + 1)
      case Terminal(_, status) => this.(terminals := terminals + 1, failing := failing || status != Succeeded)
      case Gain(_, previous, known) => this.(gains := gains + 1, gained := gained + (known - previous))
      case RunFinished(result) => this.(final := Some(result))
    }
  }

  function Summarize(events: seq<Event>): Summary {
    if events == [] then Summary(0, 0, 0, false, 0, None)
    else Summarize(events[..|events| - 1]).Add(events[|events| - 1])
  }

  lemma SummarizeNext(events: seq<Event>, e: Event)
    ensures Summarize(events + [e]) == Summarize(events).Add(e)
  {
    assert (events + [e])[..|events|] == events;
  }

  predicate Allowed(reason: StopReason) { reason == Complete || reason == MaxGoals || reason == NoInformationGain }

  datatype Failure = IncompleteChain | FrontierFailed | GainMissing | TerminalNotAccepted | NothingReached

  function Evaluate(events: seq<Event>): seq<Failure> {
    var s := Summarize(events);
    (if s.terminals != s.selected then [IncompleteChain] else [])
    + (if s.failing then [FrontierFailed] else [])
    + (if s.gains != s.terminals then [GainMissing] else [])
    + (if s.final.None? || !Allowed(s.final.value.reason) then [TerminalNotAccepted]
       else if s.final.value.reached <= 0 then [NothingReached] else [])
  }

  lemma AcceptedExactly(events: seq<Event>)
    ensures Evaluate(events) == [] <==> var s := Summarize(events);
      && s.selected == s.terminals == s.gains && !s.failing
      && s.final.Some? && Allowed(s.final.value.reason) && s.final.value.reached > 0
  {
  }

  /** The counters of an exploration in progress. */
  datatype Progress = Progress(attempted: nat, visited: seq<Point>, initialKnown: int, previousKnown: int, noGain: int, last: Option<Status>)
  {
    /** So far every selected frontier was reached and measured, and the gains
        add up to the growth of the known map. */
    predicate Explains(s: Summary) {
      && s == Summary(attempted, attempted, attempted, false, previousKnown - initialKnown, None)
      && attempted == |visited|
    }

    function Result(reason: StopReason, finalKnown: int): Exploration {
      Exploration(reason, attempted, |visited|, initialKnown, finalKnown, visited, last)
    }
  }

  /** The rounds behind the counters: all reached, none of them ending a stale streak. */
  ghost predicate Follows(world: nat -> Round, initialKnown: int, limits: Limits, p: Progress, rounds: nat) {
    && |p.visited| == rounds && Reached(world, p.visited)
    && p.initialKnown == initialKnown && p.previousKnown == LastKnown(world, rounds, initialKnown)
    && p.noGain == Streak(world, rounds, initialKnown, limits.minGain)
  }

  lemma FollowsNext(world: nat -> Round, initialKnown: int, limits: Limits, p: Progress, next: Progress, rounds: nat)
    requires Follows(world, initialKnown, limits, p, rounds) && Interruption(world(rounds), p.visited).None?
    requires next.visited == p.visited + [world(rounds).frontier(p.visited).value] && next.initialKnown == p.initialKnown
    requires next.previousKnown == world(rounds).known
    requires next.noGain == if world(rounds).known - p.previousKnown < limits.minGain then p.noGain + 1 else 0
    ensures Follows(world, initialKnown, limits, next, rounds + 1)
  {
    forall k | 0 <= k < |next.visited| ensures ReachedNext(world(k), next.visited[..k], next.visited[k]) {
      if k < rounds {
        assert next.visited[..k] == p.visited[..k];
        assert ReachedNext(world(k), p.visited[..k], p.visited[k]);
      } else {
        assert next.visited[..k] == p.visited;
      }
    }
  }

  ghost predicate NeverStale(world: nat -> Round, initialKnown: int, limits: Limits, rounds: nat) {
    forall k :: 0 < k < rounds ==> Streak(world, k, initialKnown, limits.minGain) < limits.maxNoGain
  }

  /** Why the exploration stopped after some rounds. */
  ghost predicate Explained(world: nat -> Round, initialKnown: int, limits: Limits, visited: seq<Point>, reason: StopReason) {
    var rounds := |visited|;
    match reason
    case MaxGoals => rounds == if limits.maxGoals < 0 then 0 else limits.maxGoals
    case NoInformationGain => rounds > 0 && Streak(world, rounds, initialKnown, limits.minGain) >= limits.maxNoGain
    case _ => Interruption(world(rounds), visited) == Some(reason)
  }

  // ----- the frontiers that are visited -----

  /** What the controller asks `find_frontier_goals` for. */
  function SearchFrom(grid: OccupancyGrid, robotXY: Point, visited: seq<Point>): Search {
    Search(robotXY, Greater(0.3, grid.resolution), 0.0, visited, 0.50)
  }

  /** `best` is the first goal that `find_frontier_goals` returns, if any. */
  ghost predicate IsBestFrontier(sqrt: real -> real, grid: OccupancyGrid, search: Search, best: Option<Point>)
    requires grid.Valid()
  {
    var start := grid.WorldToCell(search.robotXY);
    if start.None? || start.value !in grid.knownFree then best.None?
    else exists scored :: LeadsGoals(sqrt, grid, search, start.value, best, scored)
  }

  ghost predicate LeadsGoals(sqrt: real -> real, grid: OccupancyGrid, search: Search, start: Cell, best: Option<Point>, scored: seq<Scored>)
    requires grid.Valid()
  {
    AreGoals(sqrt, grid, search, start, scored) && best == FirstGoal(scored)
  }

  function FirstGoal(scored: seq<Scored>): Option<Point> {
    if scored == [] then None else Some(Point(scored[0].goal.x, scored[0].goal.y))
  }

  /** The round's frontier goals are those found on a map, from where the robot stands. */
  ghost predicate SearchesMap(sqrt: real -> real, r: Round, grid: OccupancyGrid, robotXY: Point)
    requires grid.Valid()
  {
    forall visited {:trigger r.frontier(visited)} ::
      IsBestFrontier(sqrt, grid, SearchFrom(grid, robotXY, visited), r.frontier(visited))
  }

  function Distance(sqrt: real -> real, a: Point, b: Point): real { Hypot(sqrt, a.x - b.x, a.y - b.y) }

  /** The chosen frontier is the goal of the highest score. */
  lemma BestFrontierScoresMost(sqrt: real -> real, grid: OccupancyGrid, search: Search, start: Cell, best: Option<Point>) returns (scored: seq<Scored>)
    requires grid.Valid() && IsBestFrontier(sqrt, grid, search, best) && grid.WorldToCell(search.robotXY) == Some(start) && start in grid.knownFree
    ensures AreGoals(sqrt, grid, search, start, scored) && (best.None? <==> scored == [])
    ensures best.Some? ==> exists i :: 0 <= i < |scored| && best.value == Point(scored[i].goal.x, scored[i].goal.y)
                                       && forall j :: 0 <= j < |scored| ==> scored[j].goal.score <= scored[i].goal.score
  {
    scored :| LeadsGoals(sqrt, grid, search, start, best, scored);
    if best.Some? {
      forall j | 0 <= j < |scored| ensures scored[j].goal.score <= scored[0].goal.score {
        assert j > 0 ==> GoalNotAfter(scored[0], scored[j]);
      }
      assert best.value == Point(scored[0].goal.x, scored[0].goal.y);
    }
  }

  lemma BestFrontierIsAway(sqrt: real -> real, grid: OccupancyGrid, search: Search, best: Point)
    requires grid.Valid() && IsBestFrontier(sqrt, grid, search, Some(best))
    ensures IsAway(sqrt, search, best)
  {
    var start := grid.WorldToCell(search.robotXY);
    var scored :| LeadsGoals(sqrt, grid, search, start.value, Some(best), scored);
    LeaderIsAway(sqrt, grid, search, start.value, best, scored);
  }

  lemma LeaderIsAway(sqrt: real -> real, grid: OccupancyGrid, search: Search, start: Cell, best: Point, scored: seq<Scored>)
    requires grid.Valid() && LeadsGoals(sqrt, grid, search, start, Some(best), scored)
    ensures IsAway(sqrt, search, best)
  {
    GoalsAvoidVisited(sqrt, grid, search, start, scored);
  }

  /** However the map grows and wherever the robot drives between the rounds, no two frontiers of
      one exploration are as close as half a metre. */
  lemma VisitedAreApart(sqrt: real -> real, world: nat -> Round, maps: nat -> OccupancyGrid, robots: nat -> Point,
                        visited: seq<Point>, i: nat, j: nat)
    requires Reached(world, visited) && i < j < |visited|
    requires maps(j).Valid() && SearchesMap(sqrt, world(j), maps(j), robots(j))
    ensures Distance(sqrt, visited[j], visited[i]) > 0.50
  {
    assert ReachedNext(world(j), visited[..j], visited[j]);
    var search := SearchFrom(maps(j), robots(j), visited[..j]);
    assert IsBestFrontier(sqrt, maps(j), search, world(j).frontier(visited[..j]));
    BestFrontierIsAway(sqrt, maps(j), search, visited[j]);
    assert visited[..j][i] == visited[i];
  }

  // ----- one round -----

  /** What a round does to the counters, and why the exploration stops after it. */
  ghost predicate GoesOn(limits: Limits, round: Round, p: Progress, next: Progress, reason: Option<StopReason>) {
    match Interruption(round, p.visited)
    case Some(interruption) => reason == Some(interruption) && next == p.(attempted := next.attempted, last := next.last)
    case None =>
      && next.initialKnown == p.initialKnown && next.previousKnown == round.known
      && next.visited == p.visited + [round.frontier(p.visited).value]
      && next.noGain == (if round.known - p.previousKnown < limits.minGain then p.noGain + 1 else 0)
      && reason == if next.noGain >= limits.maxNoGain then Some(NoInformationGain) else None
  }

  /** What a round, interrupted or not, adds to the trace and to the attempts. */
  ghost predicate Counts(round: Round, p: Progress, next: Progress, s: Summary, after: Summary) {
    var submits, measured := round.Submits(p.visited), Interruption(round, p.visited).None?;
    && next.attempted == p.attempted + (if submits then 1 else 0)
    && next.last == (if submits && round.accepted then Some(round.status) else p.last)
    && after == s.(
         selected := s.selected + (if submits then 1 else 0),
         terminals := s.terminals + (if submits && round.accepted then 1 else 0),
         failing := s.failing || (submits && round.accepted && round.status != Succeeded),
         gains := s.gains + (if measured then 1 else 0),
         gained := s.gained + (if measured then round.known - p.previousKnown else 0))
  }

  /** Where an exploration stands between rounds. */
  ghost predicate Stands(world: nat -> Round, initialKnown: int, limits: Limits, p: Progress, s: Summary) {
    && p.Explains(s) && Follows(world, initialKnown, limits, p, p.attempted)
    && NeverStale(world, initialKnown, limits, p.attempted + 1)
  }

  /** Where it stands when it has stopped. */
  ghost predicate Stopped(world: nat -> Round, initialKnown: int, limits: Limits, p: Progress, s: Summary, reason: StopReason) {
    && s.final.None? && (Allowed(reason) ==> p.Explains(s))
    && |p.visited| <= p.attempted && Follows(world, initialKnown, limits, p, |p.visited|)
    && NeverStale(world, initialKnown, limits, |p.visited|)
    && Explained(world, initialKnown, limits, p.visited, reason)
  }

  lemma RoundKeeps(world: nat -> Round, initialKnown: int, limits: Limits, p: Progress, s: Summary,
                   next: Progress, after: Summary, reason: Option<StopReason>)
    requires Stands(world, initialKnown, limits, p, s)
    requires GoesOn(limits, world(p.attempted), p, next, reason) && Counts(world(p.attempted), p, next, s, after)
    ensures match reason
            case None => Stands(world, initialKnown, limits, next, after) && next.attempted == p.attempted + 1
            case Some(stop) => Stopped(world, initialKnown, limits, next, after, stop)
  {
    if Interruption(world(p.attempted), p.visited).None? {
      FollowsNext(world, initialKnown, limits, p, next, p.attempted);
    } else {
      assert Follows(world, initialKnown, limits, next, p.attempted);
    }
  }

  class FrontierExplorationController {
    const limits: Limits
    var events: seq<Event>
    var cancel: bool
    var active: Option<nat>

    constructor (limits: Limits)
      ensures this.limits == limits && events == []
    {
      this.limits := limits;
      events, cancel, active := [], false, None;
    }

    method Emit(e: Event)
      modifies this`events
      ensures old(events) <= events && |events| == |old(events)| + 1 && events[|old(events)|] == e
      ensures Summarize(events) == Summarize(old(events)).Add(e)
    {
      SummarizeNext(events, e);
      events := events + [e];
    }

    /** One round, and the reason to stop after it, if any. */
    method Explore(round: Round, p: Progress) returns (next: Progress, reason: Option<StopReason>)
      requires p.Explains(Summarize(events)) && !cancel
      modifies this
      ensures GoesOn(limits, round, p, next, reason) && (reason.None? ==> !cancel)
      ensures Counts(round, p, next, Summarize(old(events)), Summarize(events))
    {
      next := p;
      cancel := round.cancelBefore;
      if cancel {
        return next, Some(CanceledRun);
      }
      if !round.localized || !round.sameFrame {
        return next, Some(NavigationFailed);
      }
      var frontier := round.frontier(p.visited);
      if frontier.None? {
        return next, Some(if p.visited != [] then Complete else NoFrontier);
      }
      Emit(Selected(frontier.value));
      next := next.(attempted := p.attempted + 1);
      if !round.accepted {
        return next, Some(NavigationFailed);
      }
      active := Some(next.attempted);
      next := next.(last := Some(round.status));
      Emit(Terminal(next.attempted, round.status));
      active := None;
      cancel := round.cancelAfter;
      if cancel || round.status == Canceled {
        return next, Some(CanceledRun);
      }
      if round.status != Succeeded {
        return next, Some(NavigationFailed);
      }
      next := Measure(frontier.value, round.known, next);
      reason := if next.noGain >= limits.maxNoGain then Some(NoInformationGain) else None;
    }

    /** After a frontier was reached: note it, and what the map has gained. */
    method Measure(frontier: Point, known: int, p: Progress) returns (next: Progress)
      requires p.attempted == |p.visited| + 1
      requires Summarize(events) == Summary(p.attempted, p.attempted, p.attempted - 1, false, p.previousKnown - p.initialKnown, None)
      modifies this`events
      ensures next.Explains(Summarize(events)) && next.attempted == p.attempted && next.initialKnown == p.initialKnown
      ensures next.visited == p.visited + [frontier] && next.previousKnown == known && next.last == p.last
      ensures next.noGain == if known - p.previousKnown < limits.minGain then p.noGain + 1 else 0
    {
      Emit(Gain(p.attempted, p.previousKnown, known));
      next := p.(visited := p.visited + [frontier], previousKnown := known,
                 noGain := if known - p.previousKnown < limits.minGain then p.noGain + 1 else 0);
    }

    method ExploreAll(world: nat -> Round, initialKnown: int) returns (p: Progress, reason: StopReason)
      requires events == [] && !cancel
      modifies this
      ensures Stopped(world, initialKnown, limits, p, Summarize(events), reason)
    {
      p, reason := Progress(0, [], initialKnown, initialKnown, 0, None), MaxGoals;
      var left := limits.maxGoals;
      while left > 0
        invariant !cancel && Stands(world, initialKnown, limits, p, Summarize(events))
        invariant if limits.maxGoals < 0 then left == limits.maxGoals && p.attempted == 0
                  else left >= 0 && p.attempted == limits.maxGoals - left
      {
        ghost var before, s := p, Summarize(events);
        var stop;
        p, stop := Explore(world(p.attempted), p);
        RoundKeeps(world, initialKnown, limits, before, s, p, Summarize(events), stop);
        left := left - 1;
        if stop.Some? {
          return p, stop.value;
        }
      }
    }

    /** Whatever the world answers, the run visits frontiers until the first
        interruption, stale streak or the goal limit, and the audit accepts its
        trace exactly when it stopped for an allowed reason after a frontier. */
    method Run(world: nat -> Round, initialKnown: int, finalKnown: int) returns (result: Exploration)
      requires events == []
      modifies this
      ensures Summarize(events).final == Some(result)
      ensures Evaluate(events) == [] <==> result.reason in {Complete, MaxGoals, NoInformationGain} && result.reached > 0
      ensures result.reached == |result.visited| <= result.attempted && Reached(world, result.visited)
      ensures Explained(world, initialKnown, limits, result.visited, result.reason)
      ensures NeverStale(world, initialKnown, limits, result.reached)
      ensures result.reason in {Complete, MaxGoals, NoInformationGain} ==> result.attempted == result.reached
      ensures result.reason in {Complete, MaxGoals, NoInformationGain} ==> Summarize(events).gained == LastKnown(world, result.reached, initialKnown) - initialKnown
    {
      cancel := false;
      var p, reason := ExploreAll(world, initialKnown);
      result := p.Result(reason, finalKnown);
      Emit(RunFinished(result));
      AcceptedExactly(events);
    }
  }
}
