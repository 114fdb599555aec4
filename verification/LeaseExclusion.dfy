/** When the idle event does keep velocity streams apart:
    robot_brain/actuation/unitree_webrtc.py:1629-1687. */
module LeaseExclusion {
  import opened MotionLease

  predicate IsWaiting(w: Lease, i: nat) { i < |w.streams| && w.streams[i].caller.Waiting? }

  predicate IsRunning(w: Lease, i: nat) { i < |w.streams| && w.streams[i].caller == Running }

  ghost predicate OneWaits(w: Lease) {
    forall i: nat, j: nat :: IsWaiting(w, i) && IsWaiting(w, j) ==> i == j
  }

  /** No caller is in its stream while the event is set or a waiting caller is already released. */
  ghost predicate Excludes(w: Lease) {
    && (forall i: nat, j: nat :: IsRunning(w, i) && IsRunning(w, j) ==> i == j)
    && (forall i: nat :: IsRunning(w, i) ==> !w.idle)
    && (forall i: nat, j: nat :: IsRunning(w, i) && IsWaiting(w, j) ==> !w.streams[j].caller.released)
  }

  lemma StepExcludes(zeroCount: nat, w: Lease, a: LeaseAction)
    requires Excludes(w) && OneWaits(w) && CanHappen(w, a) && (a.Begin? ==> !a.timedOut)
    ensures Excludes(AfterAction(zeroCount, w, a))
  {
    var after := AfterAction(zeroCount, w, a);
    match a
    case Acquire(_) =>
      forall i: nat | IsRunning(after, i) ensures IsRunning(w, i) {
      }
      forall i: nat | IsWaiting(after, i) ensures IsWaiting(w, i) || i == |w.streams| {
      }
    case Bump => FewerCallers(w, after);
    case Begin(i, _) =>
      assert IsWaiting(w, i);
      forall k: nat | IsRunning(after, k) ensures k == i {
        assert k != i ==> IsRunning(w, k);
      }
      forall k: nat | IsWaiting(after, k) ensures IsWaiting(w, k) && k != i {
      }
    case Abandon(_) => FewerCallers(w, after);
    case CancelStream(_) => FewerCallers(w, after);
    case Return(i) =>
      assert IsRunning(w, i);
      forall k: nat | IsRunning(after, k) ensures IsRunning(w, k) && k != i {
      }
    case Run(i, env) =>
      StreamKeepsCaller(zeroCount, w.generation, w.streams[i], env);
      FewerCallers(w, after);
  }

  lemma FewerCallers(w: Lease, after: Lease)
    requires Excludes(w) && after.idle == w.idle && |after.streams| == |w.streams|
    requires forall i :: 0 <= i < |w.streams| ==> after.streams[i].caller == w.streams[i].caller || after.streams[i].caller == Returned
    ensures Excludes(after)
  {
    forall i: nat | IsRunning(after, i) ensures IsRunning(w, i) {
    }
    forall i: nat | IsWaiting(after, i) ensures IsWaiting(w, i) {
    }
  }

  lemma StreamKeepsCaller(zeroCount: nat, generation: nat, s: Stream, env: Env)
    ensures StreamStep(zeroCount, generation, s, env).caller == s.caller
  {
  }

  /** In every run in which no wait times out and no two callers wait at once, at most one caller is in
      its stream at any time. With two waiting, `IdleIsNotExclusive` is the run that breaks this. */
  lemma {:induction false} AtMostOneRuns(zeroCount: nat, states: seq<Lease>, actions: seq<LeaseAction>, k: nat)
    requires IsLeaseRun(zeroCount, states, actions) && k < |states|
    requires forall n :: 0 <= n < |actions| && actions[n].Begin? ==> !actions[n].timedOut
    requires forall n :: 0 <= n < |states| ==> OneWaits(states[n])
    ensures Excludes(states[k])
  {
    if k > 0 {
      AtMostOneRuns(zeroCount, states, actions, k - 1);
      assert states[k - 1 + 1] == AfterAction(zeroCount, states[k - 1], actions[k - 1]);
      StepExcludes(zeroCount, states[k - 1], actions[k - 1]);
    }
  }
}
