/** What a finished goal ends with, traced back to the step that finished it:
    robot_brain/navigation/native_go2.py:471-491, 568-775 and 892-907. */
module GoalOutcomes {
  import opened GoalLifecycle

  /** The latest step of a goal's task, before step `k`, came back with this outcome. */
  ghost predicate LastCameBack(actions: seq<Action>, k: nat, g: nat, outcome: Outcome)
    requires k <= |actions|
  {
    exists i :: 0 <= i < k && actions[i] == RunTask(g, outcome) && NoStepOf(actions, i + 1, k, g)
  }

  ghost predicate NoStepOf(actions: seq<Action>, from: nat, to: nat, g: nat)
    requires to <= |actions|
  {
    forall l :: from <= l < to ==> !(actions[l].RunTask? && actions[l].goal == g)
  }

  lemma SameLast(actions: seq<Action>, k: nat, g: nat, outcome: Outcome)
    requires k < |actions| && LastCameBack(actions, k, g, outcome) && !(actions[k].RunTask? && actions[k].goal == g)
    ensures LastCameBack(actions, k + 1, g, outcome)
  {
    var i :| 0 <= i < k && actions[i] == RunTask(g, outcome) && NoStepOf(actions, i + 1, k, g);
    assert NoStepOf(actions, i + 1, k + 1, g);
  }

  lemma NewLast(actions: seq<Action>, k: nat, g: nat, outcome: Outcome)
    requires k < |actions| && actions[k] == RunTask(g, outcome)
    ensures LastCameBack(actions, k + 1, g, outcome)
  {
    assert NoStepOf(actions, k + 1, k + 1, g);
  }

  /** A task that is stopping the robot was told to by its latest step, for the status it will finish
      with; one in its error handler got there by an exception in its latest step. */
  ghost predicate Remembers(states: seq<World>, actions: seq<Action>, k: nat, g: nat)
    requires IsRun(states, actions) && k <= |actions| && g < |states[k].goals|
  {
    match states[k].goals[g].task
    case Stopping(status) => LastCameBack(actions, k, g, StopThen(status))
    case Handling => LastCameBack(actions, k, g, Raise)
    case _ => true
  }

  lemma OtherStepsKeepTask(w: World, a: Action, g: nat)
    requires Enabled(w, a) && g < |w.goals| && !(a.RunTask? && a.goal == g)
    ensures g < |Next(w, a).goals| && Next(w, a).goals[g].task == w.goals[g].task
  {
  }

  lemma OwnStep(w: World, g: nat, outcome: Outcome)
    requires Enabled(w, RunTask(g, outcome))
    ensures var task := RunStep(w, g, outcome).goals[g].task;
      && (task.Stopping? ==> outcome == StopThen(task.outcome))
      && (task.Handling? ==> outcome == Raise)
  {
  }

  lemma {:induction false} TaskRemembers(states: seq<World>, actions: seq<Action>, k: nat, g: nat)
    requires IsRun(states, actions) && k <= |actions| && g < |states[k].goals|
    ensures Remembers(states, actions, k, g)
  {
    if k > 0 && g < |states[k - 1].goals| {
      var (w, a) := (states[k - 1], actions[k - 1]);
      TaskRemembers(states, actions, k - 1, g);
      if a.RunTask? && a.goal == g {
        OwnStep(w, g, a.outcome);
        NewLast(actions, k - 1, g, a.outcome);
      } else {
        OtherStepsKeepTask(w, a, g);
        match states[k].goals[g].task
        case Stopping(status) => SameLast(actions, k - 1, g, StopThen(status));
        case Handling => SameLast(actions, k - 1, g, Raise);
        case _ =>
      }
    }
  }

  /** Why step `j` gives goal `g` this status. A task whose cancellation was requested, and every cancel
      call, cancels; otherwise the task finishes with the status it came back with, with the one for
      which it had stopped the robot, or, after an exception, as failed. */
  ghost predicate Decides(states: seq<World>, actions: seq<Action>, j: nat, g: nat, status: Status)
    requires IsRun(states, actions) && j < |actions| && g < |states[j].goals|
  {
    match actions[j]
    case RunTask(h, outcome) =>
      h == g &&
      if states[j].goals[g].cancelRequested then status == Canceled
      else
        || outcome == FinishNow(status)
        || (outcome != Raise && LastCameBack(actions, j, g, StopThen(status)))
        || (outcome != Raise && LastCameBack(actions, j, g, Raise) && status == Failed)
    case StopDone(_, raises) => !raises && status == Canceled
    case TaskAwaited(_) => status == Canceled
    case _ => false
  }

  lemma FinishingStepDecides(states: seq<World>, actions: seq<Action>, j: nat, g: nat)
    requires IsSerialRun(states, actions) && j < |actions| && g < |states[j].goals|
    requires states[j].goals[g].finishes == 0 && states[j + 1].goals[g].finishes > 0
    ensures Decides(states, actions, j, g, states[j + 1].goals[g].status)
  {
    RunKeepsValid(states, actions, j);
    TaskRemembers(states, actions, j, g);
    var (w, a) := (states[j], actions[j]);
    if a.RunTask? {
      TaskFinishes(w, a.goal, a.outcome, g);
    }
  }

  /** Only a step of the current goal's own task finishes it by itself, and with this status. */
  lemma TaskFinishes(w: World, h: nat, outcome: Outcome, g: nat)
    requires Valid(w) && Enabled(w, RunTask(h, outcome)) && g < |w.goals|
    requires w.goals[g].finishes == 0 && RunStep(w, h, outcome).goals[g].finishes > 0
    ensures h == g
    ensures var (goal, status) := (w.goals[g], RunStep(w, h, outcome).goals[g].status);
      if goal.cancelRequested then status == Canceled
      else
        || (goal.task == Working && outcome == FinishNow(status))
        || (goal.task == Stopping(status) && outcome != Raise)
        || (goal.task == Handling && outcome != Raise && status == Failed)
  {
  }

  lemma FinishedKeepsStatus(w: World, a: Action, g: nat)
    requires Valid(w) && Enabled(w, a) && Serial(w, a) && g < |w.goals| && w.goals[g].finishes == 1
    ensures g < |Next(w, a).goals| && Next(w, a).goals[g].status == w.goals[g].status && Next(w, a).goals[g].finishes == 1
  {
    if a.RunTask? {
      TaskStepIsLocal(w, a.outcome);
    }
  }

  /** In every run a finished goal, current or not, has the status that the step which finished it
      decided on, and there is just one such step. */
  lemma {:induction false} FinishedStatus(states: seq<World>, actions: seq<Action>, k: nat, g: nat) returns (j: nat)
    requires IsSerialRun(states, actions) && k < |states| && g < |states[k].goals| && states[k].goals[g].finishes == 1
    ensures j < k && g < |states[j].goals| && states[j].goals[g].finishes == 0 && g < |states[j + 1].goals| && states[j + 1].goals[g].finishes == 1
    ensures Decides(states, actions, j, g, states[k].goals[g].status)
  {
    RunKeepsValid(states, actions, k - 1);
    if g < |states[k - 1].goals| && states[k - 1].goals[g].finishes == 1 {
      j := FinishedStatus(states, actions, k - 1, g);
      FinishedKeepsStatus(states[k - 1], actions[k - 1], g);
    } else {
      j := k - 1;
      JustFinished(states, actions, j, g);
    }
  }

  lemma JustFinished(states: seq<World>, actions: seq<Action>, j: nat, g: nat)
    requires IsSerialRun(states, actions) && j < |actions| && g < |states[j + 1].goals| && states[j + 1].goals[g].finishes == 1
    requires !(g < |states[j].goals| && states[j].goals[g].finishes == 1)
    ensures g < |states[j].goals| && states[j].goals[g].finishes == 0
    ensures Decides(states, actions, j, g, states[j + 1].goals[g].status)
  {
    if g >= |states[j].goals| {
      NewGoalsAreOpen(states[j], actions[j], g);
      assert false;
    }
    FinishedOnce(states, actions, j, g);
    FinishingStepDecides(states, actions, j, g);
  }

  lemma NewGoalsAreOpen(w: World, a: Action, g: nat)
    requires Enabled(w, a) && |w.goals| <= g < |Next(w, a).goals|
    ensures Next(w, a).goals[g].finishes == 0
  {
  }
}
