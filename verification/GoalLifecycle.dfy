/** The goal lifecycle of robot_brain/navigation/native_go2.py:363-404, 445-491,
    568-775 and 892-907: the execute task of a goal, cancel calls and set calls
    on one event loop. Each step runs from one await to the next. */
module GoalLifecycle {

  datatype Status = Active | Succeeded | Failed | Canceled | TimedOut | NoProgress | Unavailable

  /** How an execute task ended: after finishing its goal, cancelled where
      nothing finishes the goal, or by an exception out of its own error handler. */
  datatype Ending = Finished | Silent | Crashed

  datatype TaskPhase = Fresh | Working | Stopping(outcome: Status) | Handling | Done(ending: Ending)

  /** `finishes` counts the calls of `_finish` while this goal was the state's goal. */
  datatype Goal = Goal(status: Status, finishes: nat, task: TaskPhase, cancelRequested: bool)

  datatype CancelCall = StoppingRobot | AwaitingTask(goal: nat) | Returned

  /** A set call that has begun and may go on to start its goal, and one that has returned. */
  datatype SetCall = Checked | Answered

  datatype World = World(goals: seq<Goal>, cancels: seq<CancelCall>, sets: seq<SetCall>)
  {
    /** `_task is None or _task.done()`. */
    predicate TaskIdle() {
      goals != [] ==> goals[|goals| - 1].task.Done?
    }

    predicate Live() {
      goals != [] && goals[|goals| - 1].status == Active
    }

    /** `_finish` writes the state of whichever goal is the current one. */
    function Finish(status: Status): World
      requires goals != []
    {
      var n := |goals| - 1;
      this.(goals := goals[n := goals[n].(status := status, finishes := goals[n].finishes + 1)])
    }

    function SetTask(g: nat, task: TaskPhase): World
      requires g < |goals|
    {
      this.(goals := goals[g := goals[g].(task := task)])
    }
  }

  const INITIAL := World([], [], [])

  /** What an await of an execute task comes back with. */
  datatype Outcome =
    | Continue | StopThen(status: Status) | FinishNow(status: Status) | Raise

  datatype Action =
    | CheckSet
    | CheckAbsolute
    | FailSet(set_: nat)
    | StartGoal(set_: nat)
    | CheckCancel(matches: bool)
    | StopDone(cancel: nat, raises: bool)
    | TaskAwaited(cancel: nat)
    | RunTask(goal: nat, outcome: Outcome)

  /** A set call begins: a relative one looks at the task first, an absolute one does not. */
  predicate EntersSet(a: Action) { a.CheckSet? || a.CheckAbsolute? }

  predicate Enabled(w: World, a: Action) {
    match a
    case CheckSet => true
    case CheckAbsolute => true
    case FailSet(s) => s < |w.sets| && w.sets[s] == Checked
    case StartGoal(s) => s < |w.sets| && w.sets[s] == Checked
    case CheckCancel(_) => true
    case StopDone(c, _) => c < |w.cancels| && w.cancels[c] == StoppingRobot && w.goals != []
    case TaskAwaited(c) => c < |w.cancels| && w.cancels[c].AwaitingTask? && w.cancels[c].goal < |w.goals|
                           && w.goals[w.cancels[c].goal].task.Done?
    case RunTask(g, outcome) => g < |w.goals| && !w.goals[g].task.Done?
                                && (outcome.StopThen? || outcome.FinishNow? ==> outcome.status != Active)
  }

  /** The execute task, resumed from an await. A requested cancellation is
      delivered there, and finishes the goal unless the task had not begun or
      was already in its error handler. */
  function RunStep(w: World, g: nat, outcome: Outcome): World
    requires Enabled(w, RunTask(g, outcome))
  {
    var goal := w.goals[g];
    match goal.task
    case Fresh => w.SetTask(g, if goal.cancelRequested then Done(Silent) else Working)
    case Working =>
      if goal.cancelRequested then w.Finish(Canceled).SetTask(g, Done(Finished))
      else (match outcome
            case Continue => w
            case StopThen(status) => w.SetTask(g, Stopping(status))
            case FinishNow(status) => w.Finish(status).SetTask(g, Done(Finished))
            case Raise => w.SetTask(g, Handling))
    case Stopping(status) =>
      if goal.cancelRequested then w.Finish(Canceled).SetTask(g, Done(Finished))
      else if outcome.Raise? then w.SetTask(g, Handling)
      else w.Finish(status).SetTask(g, Done(Finished))
    case Handling =>
      if goal.cancelRequested then w.SetTask(g, Done(Silent))
      else if outcome.Raise? then w.SetTask(g, Done(Crashed))
      else w.Finish(Failed).SetTask(g, Done(Finished))
    case Done(_) => w
  }

  /** The end of a cancel call. */
  function Settle(w: World, c: nat): World
    requires c < |w.cancels|
  {
    var returned := w.(cancels := w.cancels[c := Returned]);
    if w.Live() then returned.Finish(Canceled) else returned
  }

  function Next(w: World, a: Action): World
    requires Enabled(w, a)
  {
    match a
    case CheckSet => w.(sets := w.sets + [if w.TaskIdle() then Checked else Answered])
    case CheckAbsolute => w.(sets := w.sets + [Checked])
    case FailSet(s) => w.(sets := w.sets[s := Answered])
    case StartGoal(s) => w.(sets := w.sets[s := Answered], goals := w.goals + [Goal(Active, 0, Fresh, false)])
    case CheckCancel(matches) => w.(cancels := w.cancels + [if w.Live() && matches then StoppingRobot else Returned])
    case StopDone(c, raises) =>
      var n := |w.goals| - 1;
      if raises then w.(cancels := w.cancels[c := Returned])
      else if w.goals[n].task.Done? then Settle(w, c)
      else w.(cancels := w.cancels[c := AwaitingTask(n)], goals := w.goals[n := w.goals[n].(cancelRequested := true)])
    case TaskAwaited(c) =>
      if w.goals[w.cancels[c].goal].task == Done(Crashed) then w.(cancels := w.cancels[c := Returned])
      else Settle(w, c)
    case RunTask(g, outcome) => RunStep(w, g, outcome)
  }

  // ----- runs -----

  /** A cancel call that, once its task is done, goes on to finish whatever goal
      is then active; an exception of the task ends the call instead. */
  predicate Settles(w: World, c: nat)
    requires c < |w.cancels|
  {
    w.cancels[c].AwaitingTask? && w.cancels[c].goal < |w.goals| && w.goals[w.cancels[c].goal].task != Done(Crashed)
  }

  predicate LateCancel(w: World) {
    exists c :: 0 <= c < |w.cancels| && Settles(w, c)
  }

  /** The current goal is over: its task is done, and no cancel call is left to
      finish it. A cancel call that still stops the robot does not matter. */
  predicate ReadyForGoal(w: World) {
    w.TaskIdle() && !LateCancel(w)
  }

  /** The caller's side of the bargain. */
  predicate Serial(w: World, a: Action) {
    a.StartGoal? ==> ReadyForGoal(w)
  }

  ghost predicate IsRun(states: seq<World>, actions: seq<Action>) {
    && |states| == |actions| + 1 && states[0] == INITIAL
    && forall k :: 0 <= k < |actions| ==> Enabled(states[k], actions[k]) && states[k + 1] == Next(states[k], actions[k])
  }

  ghost predicate IsSerialRun(states: seq<World>, actions: seq<Action>) {
    IsRun(states, actions) && forall k :: 0 <= k < |actions| ==> Serial(states[k], actions[k])
  }

  // ----- what serial runs keep -----

  predicate Awaited(w: World, g: nat) {
    exists c :: 0 <= c < |w.cancels| && w.cancels[c] == AwaitingTask(g)
  }

  /** Active means not finished yet, and a task that is done has finished its
      goal, unless it crashed or a cancel call is still there to do it. */
  predicate CurrentValid(w: World, goal: Goal)
    requires w.goals != []
  {
    && goal.finishes <= 1 && (goal.status == Active <==> goal.finishes == 0)
    && (!goal.task.Done? ==> goal.finishes == 0)
    && (goal.task == Done(Finished) ==> goal.finishes == 1)
    && (goal.task.Stopping? ==> goal.task.outcome != Active)
    && (goal.cancelRequested && goal.finishes == 0 && goal.task != Done(Crashed) ==> Awaited(w, |w.goals| - 1))
    && (goal.task == Done(Silent) ==> goal.cancelRequested)
  }

  /** A goal that is over was finished once, or its task crashed unfinished. */
  predicate Settled(goal: Goal) {
    goal.task.Done? && goal.finishes <= 1 && (goal.finishes == 1 || goal.task == Done(Crashed))
  }

  ghost predicate Valid(w: World) {
    && (forall g :: 0 <= g < |w.goals| - 1 ==> Settled(w.goals[g]))
    && (w.goals != [] ==> CurrentValid(w, w.goals[|w.goals| - 1]))
    && (forall c :: 0 <= c < |w.cancels| && w.cancels[c] != Returned ==> w.goals != [])
    && (forall c :: 0 <= c < |w.cancels| && w.cancels[c].AwaitingTask? ==> w.cancels[c].goal < |w.goals|)
    && (forall c :: 0 <= c < |w.cancels| && Settles(w, c) ==> w.cancels[c].goal == |w.goals| - 1)
  }

  lemma CancelStepKeepsValid(w: World, a: Action)
    requires Valid(w) && Enabled(w, a) && (a.CheckCancel? || a.StopDone? || a.TaskAwaited?)
    ensures Valid(Next(w, a))
  {
    var after := Next(w, a);
    if w.goals != [] {
      var n := |w.goals| - 1;
      if Awaited(w, n) {
        var c :| 0 <= c < |w.cancels| && w.cancels[c] == AwaitingTask(n);
        assert after.goals[n].finishes == 0 && after.goals[n].task != Done(Crashed) ==> after.cancels[c] == AwaitingTask(n);
      }
      if a.StopDone? && !a.raises && !w.goals[n].task.Done? {
        assert after.cancels[a.cancel] == AwaitingTask(n);
      }
    }
  }

  /** A step of the current goal's task changes that goal alone. */
  lemma TaskStepIsLocal(w: World, outcome: Outcome)
    requires w.goals != [] && Enabled(w, RunTask(|w.goals| - 1, outcome))
    ensures var n, after := |w.goals| - 1, RunStep(w, |w.goals| - 1, outcome);
      && |after.goals| == |w.goals| && after == w.(goals := w.goals[n := after.goals[n]])
      && after.goals[n].cancelRequested == w.goals[n].cancelRequested
      && (after.goals[n].task == Done(Crashed) ==> after.goals[n].finishes == w.goals[n].finishes)
  {
  }

  lemma TaskStepKeepsCurrent(w: World, outcome: Outcome)
    requires w.goals != [] && CurrentValid(w, w.goals[|w.goals| - 1]) && Enabled(w, RunTask(|w.goals| - 1, outcome))
    ensures var after := RunStep(w, |w.goals| - 1, outcome); after.goals != [] && CurrentValid(after, after.goals[|w.goals| - 1])
  {
    var n := |w.goals| - 1;
    TaskStepIsLocal(w, outcome);
    if Awaited(w, n) {
      var c :| 0 <= c < |w.cancels| && w.cancels[c] == AwaitingTask(n);
      assert RunStep(w, n, outcome).cancels[c] == AwaitingTask(n);
    }
  }

  lemma TaskStepKeepsValid(w: World, g: nat, outcome: Outcome)
    requires Valid(w) && Enabled(w, RunTask(g, outcome))
    ensures Valid(RunStep(w, g, outcome))
  {
    assert g == |w.goals| - 1;
    TaskStepIsLocal(w, outcome);
    TaskStepKeepsCurrent(w, outcome);
    var after := RunStep(w, g, outcome);
    forall c | 0 <= c < |after.cancels| && Settles(after, c) ensures after.cancels[c].goal == g {
      assert w.cancels[c].AwaitingTask? && Settles(w, c);
    }
  }

  /** A goal that is over has been finished, or its task crashed. */
  lemma ReadyIsSettled(w: World)
    requires Valid(w) && w.goals != [] && ReadyForGoal(w)
    ensures Settled(w.goals[|w.goals| - 1])
  {
    var n := |w.goals| - 1;
    var goal := w.goals[n];
    assert CurrentValid(w, goal);
    AwaitedIsLate(w, n);
    match goal.task.ending
    case Finished =>
    case Silent => assert goal.cancelRequested;
    case Crashed =>
  }

  lemma AwaitedIsLate(w: World, g: nat)
    requires g < |w.goals|
    ensures Awaited(w, g) && w.goals[g].task != Done(Crashed) ==> LateCancel(w)
  {
    if Awaited(w, g) && w.goals[g].task != Done(Crashed) {
      var c :| 0 <= c < |w.cancels| && w.cancels[c] == AwaitingTask(g);
      assert Settles(w, c);
    }
  }

  lemma SetStepKeepsValid(w: World, a: Action)
    requires Valid(w) && Enabled(w, a) && Serial(w, a) && (EntersSet(a) || a.FailSet? || a.StartGoal?)
    ensures Valid(Next(w, a))
  {
    var after := Next(w, a);
    forall c | 0 <= c < |after.cancels| && Settles(after, c) ensures after.cancels[c].goal == |after.goals| - 1 {
      assert Settles(w, c);
      assert a.StartGoal? ==> LateCancel(w);
    }
    if a.StartGoal? {
      if w.goals != [] {
        ReadyIsSettled(w);
      }
    } else if w.goals != [] && Awaited(w, |w.goals| - 1) {
      var c :| 0 <= c < |w.cancels| && w.cancels[c] == AwaitingTask(|w.goals| - 1);
      assert after.cancels[c] == AwaitingTask(|w.goals| - 1);
    }
  }

  lemma StepKeepsValid(w: World, a: Action)
    requires Valid(w) && Enabled(w, a) && Serial(w, a)
    ensures Valid(Next(w, a))
  {
    match a
    case CheckSet => SetStepKeepsValid(w, a);
    case CheckAbsolute => SetStepKeepsValid(w, a);
    case FailSet(_) => SetStepKeepsValid(w, a);
    case StartGoal(_) => SetStepKeepsValid(w, a);
    case CheckCancel(_) => CancelStepKeepsValid(w, a);
    case StopDone(_, _) => CancelStepKeepsValid(w, a);
    case TaskAwaited(_) => CancelStepKeepsValid(w, a);
    case RunTask(g, outcome) => TaskStepKeepsValid(w, g, outcome);
  }

  lemma {:induction false} RunKeepsValid(states: seq<World>, actions: seq<Action>, k: nat)
    requires IsSerialRun(states, actions) && k < |states|
    ensures Valid(states[k])
  {
    if k > 0 {
      RunKeepsValid(states, actions, k - 1);
      StepKeepsValid(states[k - 1], actions[k - 1]);
    }
  }

  /** Started on the agreed terms, a goal is finished at most once under every
      interleaving of the execute task with cancel calls, only the newest goal
      has a task at work, and a goal that is over was finished unless its task crashed. */
  lemma FinishedOnce(states: seq<World>, actions: seq<Action>, k: nat, g: nat)
    requires IsSerialRun(states, actions) && k < |states| && g < |states[k].goals|
    ensures var (w, goal) := (states[k], states[k].goals[g]);
      && goal.finishes <= 1
      && (g < |w.goals| - 1 ==> goal.task.Done?)
      && (IsOver(w, g) ==> goal.finishes == 1 || goal.task == Done(Crashed))
  {
    RunKeepsValid(states, actions, k);
    if g == |states[k].goals| - 1 && ReadyForGoal(states[k]) {
      ReadyIsSettled(states[k]);
    }
  }

  predicate IsOver(w: World, g: nat) { g < |w.goals| - 1 || ReadyForGoal(w) }

  /** The task crashes exactly when the stop in its error handler raises. */
  lemma CrashesExactly(w: World, g: nat, outcome: Outcome)
    requires Enabled(w, RunTask(g, outcome))
    ensures RunStep(w, g, outcome).goals[g].task == Done(Crashed)
       <==> w.goals[g].task == Handling && !w.goals[g].cancelRequested && outcome == Raise
  {
  }

  /** The step that makes a task crash, and the one that finishes a crashed goal after all. */
  predicate Crashes(w: World, a: Action, g: nat) {
    && a.RunTask? && a.goal == g && Enabled(w, a) && w.goals[g].task == Handling && !w.goals[g].cancelRequested && a.outcome == Raise
  }

  predicate Rescues(w: World, a: Action, g: nat) {
    g == |w.goals| - 1 && a.StopDone? && !a.raises
  }

  /** The goal's task crashed, and no cancel call has got through to it since. */
  ghost predicate CrashedUnrescued(states: seq<World>, actions: seq<Action>, k: nat, g: nat)
    requires IsRun(states, actions) && k <= |actions|
  {
    exists j :: 0 <= j < k && CrashedAt(states, actions, j, k, g)
  }

  ghost predicate CrashedAt(states: seq<World>, actions: seq<Action>, j: nat, k: nat, g: nat)
    requires IsRun(states, actions) && j < k <= |actions|
  {
    Crashes(states[j], actions[j], g) && forall i :: j < i < k ==> !Rescues(states[i], actions[i], g)
  }

  predicate LeftOpen(w: World, g: nat) {
    g < |w.goals| && w.goals[g].task == Done(Crashed) && w.goals[g].finishes == 0
  }

  /** A crashed goal stays open until a cancel call that stopped the robot reaches it. */
  lemma OpenStep(w: World, a: Action, g: nat)
    requires Valid(w) && Enabled(w, a) && Serial(w, a)
    ensures LeftOpen(Next(w, a), g) <==> Crashes(w, a, g) || (LeftOpen(w, g) && !Rescues(w, a, g))
  {
    match a
    case RunTask(h, outcome) => OpenTaskStep(w, g, h, outcome);
    case TaskAwaited(c) => assert w.cancels[c].AwaitingTask?; assert LeftOpen(w, |w.goals| - 1) ==> !Settles(w, c);
    case _ =>
  }

  lemma OpenTaskStep(w: World, g: nat, h: nat, outcome: Outcome)
    requires Valid(w) && Enabled(w, RunTask(h, outcome))
    ensures LeftOpen(RunStep(w, h, outcome), g) <==> Crashes(w, RunTask(h, outcome), g) || LeftOpen(w, g)
  {
    assert h == |w.goals| - 1;
    CrashesExactly(w, h, outcome);
  }

  lemma {:induction false} OpenIsUnrescued(states: seq<World>, actions: seq<Action>, k: nat, g: nat)
    requires IsSerialRun(states, actions) && k < |states|
    ensures LeftOpen(states[k], g) <==> CrashedUnrescued(states, actions, k, g)
  {
    if k > 0 {
      OpenIsUnrescued(states, actions, k - 1, g);
      RunKeepsValid(states, actions, k - 1);
      OpenStep(states[k - 1], actions[k - 1], g);
      UnrescuedStep(states, actions, k - 1, g);
    }
  }

  lemma UnrescuedStep(states: seq<World>, actions: seq<Action>, k: nat, g: nat)
    requires IsRun(states, actions) && k < |actions|
    ensures CrashedUnrescued(states, actions, k + 1, g)
       <==> Crashes(states[k], actions[k], g) || (CrashedUnrescued(states, actions, k, g) && !Rescues(states[k], actions[k], g))
  {
    if Crashes(states[k], actions[k], g) {
      assert CrashedAt(states, actions, k, k + 1, g);
    }
    if CrashedUnrescued(states, actions, k, g) && !Rescues(states[k], actions[k], g) {
      var j :| 0 <= j < k && CrashedAt(states, actions, j, k, g);
      assert CrashedAt(states, actions, j, k + 1, g);
    }
    if CrashedUnrescued(states, actions, k + 1, g) && !Crashes(states[k], actions[k], g) {
      var j :| 0 <= j < k + 1 && CrashedAt(states, actions, j, k + 1, g);
      assert CrashedAt(states, actions, j, k, g) && !Rescues(states[k], actions[k], g);
    }
  }

  /** A goal that is over stays unfinished if and only if its task crashed and no
      cancel call has got through to it since; otherwise it was finished exactly once. */
  lemma UnfinishedExactly(states: seq<World>, actions: seq<Action>, k: nat, g: nat)
    requires IsSerialRun(states, actions) && k < |states| && g < |states[k].goals| && IsOver(states[k], g)
    ensures states[k].goals[g].finishes == if CrashedUnrescued(states, actions, k, g) then 0 else 1
  {
    FinishedOnce(states, actions, k, g);
    OpenIsUnrescued(states, actions, k, g);
  }

  ghost predicate StopReliable(states: seq<World>, actions: seq<Action>)
    requires IsRun(states, actions)
  {
    forall k :: 0 <= k < |actions| && actions[k].RunTask? && states[k].goals[actions[k].goal].task == Handling ==> actions[k].outcome != Raise
  }

  lemma {:induction false} NeverCrashes(states: seq<World>, actions: seq<Action>, k: nat, g: nat)
    requires IsRun(states, actions) && StopReliable(states, actions) && k < |states| && g < |states[k].goals|
    ensures states[k].goals[g].task != Done(Crashed)
  {
    if k > 0 {
      var (w, a) := (states[k - 1], actions[k - 1]);
      if g < |w.goals| {
        NeverCrashes(states, actions, k - 1, g);
        if a.RunTask? && a.goal == g {
          CrashesExactly(w, g, a.outcome);
        }
      }
    }
  }

  /** So with a stop that does not fail, every goal that is over was finished exactly once. */
  lemma FinishedExactlyOnce(states: seq<World>, actions: seq<Action>, k: nat, g: nat)
    requires IsSerialRun(states, actions) && StopReliable(states, actions) && k < |states| && g < |states[k].goals|
    requires IsOver(states[k], g)
    ensures states[k].goals[g].finishes == 1 && (g == |states[k].goals| - 1 ==> states[k].goals[g].status != Active)
  {
    RunKeepsValid(states, actions, k);
    FinishedOnce(states, actions, k, g);
    NeverCrashes(states, actions, k, g);
  }

  /** A finished goal's status never changes again. */
  lemma StatusIsStable(states: seq<World>, actions: seq<Action>, k: nat, g: nat)
    requires IsSerialRun(states, actions) && k < |actions| && g < |states[k].goals| && states[k].goals[g].finishes == 1
    requires g == |states[k].goals| - 1
    ensures g < |states[k + 1].goals| && states[k + 1].goals[g].status == states[k].goals[g].status != Active
    ensures states[k + 1].goals[g].finishes == 1
  {
    RunKeepsValid(states, actions, k);
  }

  // ----- set calls one at a time -----

  predicate SetInFlight(w: World) {
    exists s :: 0 <= s < |w.sets| && w.sets[s] == Checked
  }

  ghost predicate SetsOneAtATime(states: seq<World>, actions: seq<Action>)
    requires IsRun(states, actions)
  {
    forall k :: 0 <= k < |actions| && EntersSet(actions[k]) ==> !SetInFlight(states[k])
  }

  /** No absolute call begins while a task is live. */
  ghost predicate AbsoluteWhenIdle(states: seq<World>, actions: seq<Action>)
    requires IsRun(states, actions)
  {
    forall k :: 0 <= k < |actions| && actions[k].CheckAbsolute? ==> states[k].TaskIdle()
  }

  ghost predicate SoleSet(w: World) {
    && (forall s, t :: 0 <= s < |w.sets| && 0 <= t < |w.sets| && w.sets[s] == Checked && w.sets[t] == Checked ==> s == t)
    && (SetInFlight(w) ==> w.TaskIdle())
  }

  lemma DoneStaysDone(w: World, a: Action, g: nat)
    requires Enabled(w, a) && g < |w.goals| && w.goals[g].task.Done?
    ensures g < |Next(w, a).goals| && Next(w, a).goals[g].task == w.goals[g].task
  {
  }

  lemma StepKeepsSoleSet(w: World, a: Action)
    requires SoleSet(w) && Enabled(w, a) && (EntersSet(a) ==> !SetInFlight(w)) && (a.CheckAbsolute? ==> w.TaskIdle())
    ensures SoleSet(Next(w, a))
  {
    var after := Next(w, a);
    if SetInFlight(after) {
      var s :| 0 <= s < |after.sets| && after.sets[s] == Checked;
      if s < |w.sets| {
        assert w.sets[s] == Checked;
      }
      if w.goals != [] && w.TaskIdle() {
        DoneStaysDone(w, a, |w.goals| - 1);
      }
    }
  }

  lemma {:induction false} RunKeepsSoleSet(states: seq<World>, actions: seq<Action>, k: nat)
    requires IsRun(states, actions) && SetsOneAtATime(states, actions) && AbsoluteWhenIdle(states, actions) && k < |states|
    ensures SoleSet(states[k])
  {
    if k > 0 {
      RunKeepsSoleSet(states, actions, k - 1);
      StepKeepsSoleSet(states[k - 1], actions[k - 1]);
    }
  }

  /** When set calls do not overlap and absolute ones begin only while no task is live, no goal
      starts while another's task is live. */
  lemma NoSecondGoalWhileLive(states: seq<World>, actions: seq<Action>, k: nat)
    requires IsRun(states, actions) && SetsOneAtATime(states, actions) && AbsoluteWhenIdle(states, actions)
    requires k < |actions| && actions[k].StartGoal?
    ensures states[k].TaskIdle()
  {
    RunKeepsSoleSet(states, actions, k);
    assert SetInFlight(states[k]);
  }

  // ----- exactly when a start is safe -----

  /** Steps that can be taken one after the other, goals being started only on the agreed terms. */
  predicate CanPlay(w: World, actions: seq<Action>)
    decreases |actions|
  {
    actions != [] ==> Enabled(w, actions[0]) && Serial(w, actions[0]) && CanPlay(Next(w, actions[0]), actions[1..])
  }

  function Played(w: World, actions: seq<Action>): World
    requires CanPlay(w, actions)
    decreases |actions|
  {
    if actions == [] then w else Played(Next(w, actions[0]), actions[1..])
  }

  /** Once valid, a world keeps every goal finished at most once. */
  lemma {:induction false} PlayKeepsValid(w: World, actions: seq<Action>)
    requires Valid(w) && CanPlay(w, actions)
    ensures Valid(Played(w, actions))
    decreases |actions|
  {
    if actions != [] {
      StepKeepsValid(w, actions[0]);
      PlayKeepsValid(Next(w, actions[0]), actions[1..]);
    }
  }

  predicate FinishedAtMostOnce(w: World, g: nat) {
    g < |w.goals| ==> w.goals[g].finishes <= 1
  }

  lemma ValidFinishesOnce(w: World, g: nat)
    requires Valid(w)
    ensures FinishedAtMostOnce(w, g)
  {
  }

  lemma PlayJoin(w: World, a: seq<Action>, b: seq<Action>)
    requires CanPlay(w, a) && CanPlay(Played(w, a), b)
    ensures CanPlay(w, a + b) && Played(w, a + b) == Played(Played(w, a), b)
    decreases |a|
  {
    if a == [] {
      assert a + b == b;
    } else {
      PlayJoin(Next(w, a[0]), a[1..], b);
      assert (a + b)[0] == a[0] && (a + b)[1..] == a[1..] + b;
    }
  }

  lemma PlayTwo(w: World, a: Action, b: Action)
    requires Enabled(w, a) && !a.StartGoal? && Enabled(Next(w, a), b) && !b.StartGoal?
    ensures CanPlay(w, [a, b]) && Played(w, [a, b]) == Next(Next(w, a), b)
  {
    assert [a, b][1..] == [b] && [b][1..] == [];
    assert CanPlay(Next(Next(w, a), b), []);
    assert CanPlay(Next(w, a), [b]) && Played(Next(w, a), [b]) == Next(Next(w, a), b);
  }

  lemma PlayOne(w: World, a: Action)
    requires Enabled(w, a) && !a.StartGoal?
    ensures CanPlay(w, [a]) && Played(w, [a]) == Next(w, a)
  {
    assert [a][1..] == [];
    assert CanPlay(Next(w, a), []);
  }

  predicate FinishedUntouched(w: World, n: nat) {
    |w.goals| == n && n > 0 && w.goals[n - 1].finishes == 1 && w.goals[n - 1].task == Fresh && !w.goals[n - 1].cancelRequested
  }

  /** A goal that somebody else has finished before its task began is finished again by that task. */
  lemma TaskFinishesAgain(w: World)
    requires FinishedUntouched(w, |w.goals|)
    ensures var g := |w.goals| - 1; var last := [RunTask(g, Continue), RunTask(g, FinishNow(Failed))];
      CanPlay(w, last) && |Played(w, last).goals| == |w.goals| && Played(w, last).goals[g].finishes == 2
  {
    var g := |w.goals| - 1;
    PlayTwo(w, RunTask(g, Continue), RunTask(g, FinishNow(Failed)));
  }

  /** A cancel call left over from the previous goal finishes the new one. */
  lemma LateCancelFinishes(w: World, s: nat) returns (first: seq<Action>)
    requires Valid(w) && Enabled(w, StartGoal(s)) && w.TaskIdle() && LateCancel(w)
    ensures var after := Next(w, StartGoal(s));
      CanPlay(after, first) && FinishedUntouched(Played(after, first), |w.goals| + 1)
  {
    var c :| 0 <= c < |w.cancels| && Settles(w, c);
    first := [TaskAwaited(c)];
    PlayOne(Next(w, StartGoal(s)), TaskAwaited(c));
  }

  /** A task that its cancellation ends silently leaves finishing to the cancel call. */
  lemma SilentTaskFinishes(w: World, s: nat) returns (first: seq<Action>)
    requires Valid(w) && Enabled(w, StartGoal(s)) && !w.TaskIdle()
    requires var goal := w.goals[|w.goals| - 1]; goal.cancelRequested && (goal.task == Fresh || goal.task == Handling)
    ensures var after := Next(w, StartGoal(s));
      CanPlay(after, first) && FinishedUntouched(Played(after, first), |w.goals| + 1)
  {
    var after, n := Next(w, StartGoal(s)), |w.goals| - 1;
    assert CurrentValid(w, w.goals[n]);
    var c :| 0 <= c < |w.cancels| && w.cancels[c] == AwaitingTask(n);
    first := [RunTask(n, Continue), TaskAwaited(c)];
    PlayTwo(after, RunTask(n, Continue), TaskAwaited(c));
  }

  /** A task still live when the new goal starts finishes the new one, by itself
      or through the cancel call that waits for it. */
  lemma LiveTaskFinishes(w: World, s: nat) returns (first: seq<Action>)
    requires Valid(w) && Enabled(w, StartGoal(s)) && !w.TaskIdle()
    ensures var after := Next(w, StartGoal(s));
      CanPlay(after, first) && FinishedUntouched(Played(after, first), |w.goals| + 1)
  {
    var after, n := Next(w, StartGoal(s)), |w.goals| - 1;
    var old_ := w.goals[n];
    assert CurrentValid(w, old_);
    if old_.cancelRequested && (old_.task == Fresh || old_.task == Handling) {
      first := SilentTaskFinishes(w, s);
    } else if old_.task == Fresh {
      first := [RunTask(n, Continue), RunTask(n, FinishNow(Failed))];
      PlayTwo(after, RunTask(n, Continue), RunTask(n, FinishNow(Failed)));
    } else {
      first := [RunTask(n, FinishNow(Failed))];
      PlayOne(after, RunTask(n, FinishNow(Failed)));
    }
  }

  /** Starting a goal is safe if and only if the previous one is over: only then
      does no way of going on finish the new goal more than once. */
  lemma StartIsSafeExactly(w: World, s: nat)
    requires Valid(w) && Enabled(w, StartGoal(s))
    ensures ReadyForGoal(w) <==>
      forall actions :: CanPlay(Next(w, StartGoal(s)), actions) ==> FinishedAtMostOnce(Played(Next(w, StartGoal(s)), actions), |w.goals|)
  {
    var after := Next(w, StartGoal(s));
    if ReadyForGoal(w) {
      StepKeepsValid(w, StartGoal(s));
      forall actions | CanPlay(after, actions) ensures FinishedAtMostOnce(Played(after, actions), |w.goals|) {
        PlayKeepsValid(after, actions);
        ValidFinishesOnce(Played(after, actions), |w.goals|);
      }
    } else {
      var first;
      if w.TaskIdle() {
        first := LateCancelFinishes(w, s);
      } else {
        first := LiveTaskFinishes(w, s);
      }
      var middle := Played(after, first);
      TaskFinishesAgain(middle);
      var last := [RunTask(|w.goals|, Continue), RunTask(|w.goals|, FinishNow(Failed))];
      PlayJoin(after, first, last);
      assert !FinishedAtMostOnce(Played(after, first + last), |w.goals|);
    }
  }

  // ----- exactly when a start can hit a live task -----

  predicate NoStarts(actions: seq<Action>) {
    forall k :: 0 <= k < |actions| ==> !actions[k].StartGoal?
  }

  predicate NoAbsolute(actions: seq<Action>) {
    forall k :: 0 <= k < |actions| ==> !actions[k].CheckAbsolute?
  }

  /** Without another start or absolute call, a set call is under way only while the task is idle. */
  lemma {:induction false} PlayKeepsIdleSets(w: World, actions: seq<Action>)
    requires CanPlay(w, actions) && NoStarts(actions) && NoAbsolute(actions) && (SetInFlight(w) ==> w.TaskIdle())
    ensures SetInFlight(Played(w, actions)) ==> Played(w, actions).TaskIdle()
    decreases |actions|
  {
    if actions != [] {
      var next := Next(w, actions[0]);
      if SetInFlight(next) {
        var s :| 0 <= s < |next.sets| && next.sets[s] == Checked;
        if s < |w.sets| {
          assert w.sets[s] == Checked;
        }
        if w.goals != [] && w.TaskIdle() {
          DoneStaysDone(w, actions[0], |w.goals| - 1);
        }
      }
      assert NoStarts(actions[1..]) && NoAbsolute(actions[1..]);
      PlayKeepsIdleSets(next, actions[1..]);
    }
  }

  /** A goal starts while another's task is live. */
  predicate Overtakes(w: World, t: nat) { Enabled(w, StartGoal(t)) && !w.TaskIdle() }

  /** Some way of going on makes the next start hit a live task: in general, and
      when no absolute call begins on the way. */
  ghost predicate CanOvertake(w: World) {
    exists actions, t :: CanPlay(w, actions) && NoStarts(actions) && Overtakes(Played(w, actions), t)
  }

  ghost predicate CanOvertakeChecked(w: World) {
    exists actions, t :: CanPlay(w, actions) && NoStarts(actions) && NoAbsolute(actions) && Overtakes(Played(w, actions), t)
  }

  lemma {:induction false} PlayKeepsIdle(w: World, actions: seq<Action>)
    requires CanPlay(w, actions) && NoStarts(actions) && w.TaskIdle()
    ensures Played(w, actions).TaskIdle()
    decreases |actions|
  {
    if actions != [] {
      if w.goals != [] {
        DoneStaysDone(w, actions[0], |w.goals| - 1);
      }
      assert NoStarts(actions[1..]);
      PlayKeepsIdle(Next(w, actions[0]), actions[1..]);
    }
  }

  /** With absolute calls to come, the next start can hit a live task whenever there is one. */
  lemma LiveTaskCanBeOvertaken(w: World)
    ensures CanOvertake(w) <==> !w.TaskIdle()
  {
    if w.TaskIdle() {
      forall actions, t | CanPlay(w, actions) && NoStarts(actions) ensures !Overtakes(Played(w, actions), t) {
        PlayKeepsIdle(w, actions);
      }
    } else {
      PlayOne(w, CheckAbsolute);
      assert NoStarts([CheckAbsolute]) && Overtakes(Played(w, [CheckAbsolute]), |w.sets|);
    }
  }

  /** Without them it also takes a set call that is already under way. */
  lemma CheckedCallsOvertakeExactly(w: World)
    ensures CanOvertakeChecked(w) <==> !w.TaskIdle() && SetInFlight(w)
  {
    if !w.TaskIdle() && SetInFlight(w) {
      var t :| 0 <= t < |w.sets| && w.sets[t] == Checked;
      assert CanPlay(w, []) && NoStarts([]) && NoAbsolute([]) && Played(w, []) == w && Overtakes(Played(w, []), t);
    } else {
      forall actions, t | CanPlay(w, actions) && NoStarts(actions) && NoAbsolute(actions)
        ensures !Overtakes(Played(w, actions), t)
      {
        PlayKeepsIdleSets(w, actions);
        assert Enabled(Played(w, actions), StartGoal(t)) ==> SetInFlight(Played(w, actions));
      }
    }
  }

  /** After a goal has started, another can start on its live task: by a later absolute call in
      every case, and without one if and only if a second set call was under way at the start. */
  lemma OvertakenExactly(w: World, s: nat)
    requires Enabled(w, StartGoal(s))
    ensures CanOvertake(Next(w, StartGoal(s)))
    ensures CanOvertakeChecked(Next(w, StartGoal(s))) <==> exists t :: 0 <= t < |w.sets| && t != s && w.sets[t] == Checked
  {
    var after := Next(w, StartGoal(s));
    LiveTaskCanBeOvertaken(after);
    CheckedCallsOvertakeExactly(after);
    if t :| 0 <= t < |w.sets| && t != s && w.sets[t] == Checked {
      assert after.sets[t] == Checked;
    }
  }

  /** The same condition for the caller of either kind of set call: its beginning lets a goal start
      on a live task, no further absolute call needed, if and only if a task is live and the call
      is absolute or another is under way. */
  lemma EntryRisksExactly(w: World, a: Action)
    requires EntersSet(a)
    ensures CanOvertakeChecked(Next(w, a)) <==> !w.TaskIdle() && (a.CheckAbsolute? || SetInFlight(w))
  {
    var after := Next(w, a);
    CheckedCallsOvertakeExactly(after);
    if a.CheckAbsolute? {
      assert after.sets[|w.sets|] == Checked;
    }
    if SetInFlight(w) {
      var t :| 0 <= t < |w.sets| && w.sets[t] == Checked;
      assert after.sets[t] == Checked;
    }
  }

  // ----- what goes wrong otherwise -----

  lemma Extend(states: seq<World>, actions: seq<Action>, a: Action) returns (longer: seq<World>, taken: seq<Action>)
    requires IsRun(states, actions) && Enabled(states[|actions|], a)
    ensures IsRun(longer, taken) && |taken| == |actions| + 1
    ensures longer[|taken|] == Next(states[|actions|], a)
    ensures IsSerialRun(states, actions) && Serial(states[|actions|], a) ==> IsSerialRun(longer, taken)
    ensures SetsOneAtATime(states, actions) && (EntersSet(a) ==> !SetInFlight(states[|actions|])) ==> SetsOneAtATime(longer, taken)
  {
    longer, taken := states + [Next(states[|actions|], a)], actions + [a];
  }

  lemma TwoGoalsStarted() returns (states: seq<World>, actions: seq<Action>)
    ensures IsRun(states, actions)
    ensures states[|actions|] == World([Goal(Active, 0, Fresh, false), Goal(Active, 0, Fresh, false)], [], [Answered, Answered])
  {
    states, actions := Extend([INITIAL], [], CheckSet);
    states, actions := Extend(states, actions, CheckSet);
    states, actions := Extend(states, actions, StartGoal(0));
    assert states[|actions|] == World([Goal(Active, 0, Fresh, false)], [], [Answered, Checked]);
    states, actions := Extend(states, actions, StartGoal(1));
  }

  /** Two set calls that overlap both pass the check and start two tasks. */
  lemma OverlappingSetsStartTwo()
    ensures exists states: seq<World>, actions: seq<Action> ::
      IsRun(states, actions) && |states[|actions|].goals| == 2
      && states[|actions|].goals[0].task == Working && states[|actions|].goals[1].task == Working
  {
    var states, actions := TwoGoalsStarted();
    states, actions := Extend(states, actions, RunTask(0, Continue));
    states, actions := Extend(states, actions, RunTask(1, Continue));
  }

  lemma OneGoalWorking() returns (states: seq<World>, actions: seq<Action>)
    ensures IsSerialRun(states, actions) && SetsOneAtATime(states, actions)
    ensures states[|actions|] == World([Goal(Active, 0, Working, false)], [], [Answered])
  {
    assert IsSerialRun([INITIAL], []);
    states, actions := Extend([INITIAL], [], CheckSet);
    states, actions := Extend(states, actions, StartGoal(0));
    states, actions := Extend(states, actions, RunTask(0, Continue));
  }

  /** Set calls that do not overlap are not enough: any such run, left with a live task and no set
      call under way, goes on with one absolute call to a second goal on that task. */
  lemma AbsoluteStartsSecond(states: seq<World>, actions: seq<Action>) returns (longer: seq<World>, taken: seq<Action>)
    requires IsRun(states, actions) && SetsOneAtATime(states, actions)
    requires !states[|actions|].TaskIdle() && !SetInFlight(states[|actions|])
    ensures IsRun(longer, taken) && SetsOneAtATime(longer, taken)
    ensures longer[|taken|].goals == states[|actions|].goals + [Goal(Active, 0, Fresh, false)]
  {
    longer, taken := Extend(states, actions, CheckAbsolute);
    longer, taken := Extend(longer, taken, StartGoal(|states[|actions|].sets|));
  }

  /** And there are such runs. */
  lemma AbsoluteOvertakesWorkingTask()
    ensures exists states: seq<World>, actions: seq<Action> ::
      IsRun(states, actions) && SetsOneAtATime(states, actions)
      && states[|actions|].goals == [Goal(Active, 0, Working, false), Goal(Active, 0, Fresh, false)]
  {
    var states, actions := OneGoalWorking();
    states, actions := AbsoluteStartsSecond(states, actions);
  }

  lemma CancelAwaitsFinishedTask() returns (states: seq<World>, actions: seq<Action>)
    ensures IsRun(states, actions) && SetsOneAtATime(states, actions)
    ensures states[|actions|] == World([Goal(Canceled, 1, Done(Finished), true)], [AwaitingTask(0)], [Answered])
  {
    states, actions := OneGoalWorking();
    states, actions := Extend(states, actions, CheckCancel(true));
    states, actions := Extend(states, actions, StopDone(0, false));
    states, actions := Extend(states, actions, RunTask(0, Continue));
  }

  /** The call finishes the goal that was started in the meantime. */
  lemma CancelFinishesNextGoal() returns (states: seq<World>, actions: seq<Action>)
    ensures IsRun(states, actions) && SetsOneAtATime(states, actions)
    ensures states[|actions|] == World([Goal(Canceled, 1, Done(Finished), true), Goal(Canceled, 1, Fresh, false)], [Returned], [Answered, Answered])
  {
    states, actions := CancelAwaitsFinishedTask();
    states, actions := Extend(states, actions, CheckSet);
    states, actions := Extend(states, actions, StartGoal(1));
    assert states[|actions|] == World([Goal(Canceled, 1, Done(Finished), true), Goal(Active, 0, Fresh, false)], [AwaitingTask(0)], [Answered, Answered]);
    states, actions := Extend(states, actions, TaskAwaited(0));
  }

  /** A goal started while a cancel call is still returning is finished by that
      call, and then once more by its own task. */
  lemma StartDuringCancelFinishesTwice()
    ensures exists states: seq<World>, actions: seq<Action> ::
      IsRun(states, actions) && SetsOneAtATime(states, actions) && |states[|actions|].goals| == 2
      && states[|actions|].goals[1].finishes == 2
  {
    var states, actions := CancelFinishesNextGoal();
    states, actions := Extend(states, actions, RunTask(1, Continue));
    states, actions := Extend(states, actions, RunTask(1, FinishNow(Failed)));
  }

  /** A stop that raises inside the error handler leaves the goal active with nobody at work on it. */
  lemma RaisingStopLeavesGoalActive()
    ensures exists states: seq<World>, actions: seq<Action> ::
      IsSerialRun(states, actions) && |states[|actions|].goals| == 1 && states[|actions|].cancels == []
      && states[|actions|].goals[0] == Goal(Active, 0, Done(Crashed), false)
  {
    var states, actions := OneGoalWorking();
    states, actions := Extend(states, actions, RunTask(0, Raise));
    states, actions := Extend(states, actions, RunTask(0, Raise));
  }

  // ----- the client's own state, section by section -----

  class NavigationClient {
    var goals: seq<Goal>
    var cancels: seq<CancelCall>
    var sets: seq<SetCall>

    function State(): World
      reads this
    {
      World(goals, cancels, sets)
    }

    constructor ()
      ensures State() == INITIAL
    {
      goals, cancels, sets := [], [], [];
    }

    /** The one writer of terminal states. */
    method Finish(status: Status)
      requires goals != []
      modifies this`goals
      ensures State() == old(State()).Finish(status)
    {
      var n := |goals| - 1;
      goals := goals[n := goals[n].(status := status, finishes := goals[n].finishes + 1)];
    }

    /** The check at the top of a relative set call. */
    method CheckSet() returns (id: nat, accepted: bool)
      modifies this`sets
      ensures State() == Next(old(State()), Action.CheckSet) && id == |old(sets)|
      ensures accepted <==> State().TaskIdle()
    {
      id, accepted := |sets|, goals == [] || goals[|goals| - 1].task.Done?;
      sets := sets + [if accepted then Checked else Answered];
    }

    /** An absolute set call asks for the map and never looks at the task. */
    method CheckAbsolute() returns (id: nat)
      modifies this`sets
      ensures State() == Next(old(State()), Action.CheckAbsolute) && id == |old(sets)|
    {
      id := |sets|;
      sets := sets + [Checked];
    }

    /** Without an await in between, the new goal and its task appear together. */
    method StartGoal(id: nat)
      requires Valid(State()) && Enabled(State(), Action.StartGoal(id)) && Serial(State(), Action.StartGoal(id))
      modifies this`sets, this`goals
      ensures Valid(State()) && State() == Next(old(State()), Action.StartGoal(id))
    {
      StepKeepsValid(State(), Action.StartGoal(id));
      sets := sets[id := Answered];
      goals := goals + [Goal(Active, 0, Fresh, false)];
    }

    /** A cancel call up to its first await; a goal that is not active needs no stop. */
    method CheckCancel(matches: bool) returns (id: nat)
      requires Valid(State())
      modifies this`cancels
      ensures Valid(State()) && State() == Next(old(State()), Action.CheckCancel(matches)) && id == |old(cancels)|
    {
      StepKeepsValid(State(), Action.CheckCancel(matches));
      id := |cancels|;
      cancels := cancels + [if goals != [] && goals[|goals| - 1].status == Active && matches then StoppingRobot else Returned];
    }

    /** From the completed stop to the await of the task, or to the return. */
    method StopDone(id: nat)
      requires Valid(State()) && Enabled(State(), Action.StopDone(id, false))
      modifies this`cancels, this`goals
      ensures Valid(State()) && State() == Next(old(State()), Action.StopDone(id, false))
    {
      StepKeepsValid(State(), Action.StopDone(id, false));
      var n := |goals| - 1;
      if goals[n].task.Done? {
        SettleCall(id);
      } else {
        cancels := cancels[id := AwaitingTask(n)];
        goals := goals[n := goals[n].(cancelRequested := true)];
      }
    }

    method SettleCall(id: nat)
      requires id < |cancels|
      modifies this`cancels, this`goals
      ensures State() == Settle(old(State()), id)
    {
      cancels := cancels[id := Returned];
      if goals != [] && goals[|goals| - 1].status == Active {
        Finish(Canceled);
      }
    }
  }
}
