/** The motion lease of robot_brain/actuation/unitree_webrtc.py:1629-1687,
    1690-1793 and 1831-1852: callers on one loop, velocity streams on another,
    and a generation counter between them. Each step below touches the shared
    state once; between any two steps any other caller or stream may run. */
module MotionLease {

  /** How a stream's coroutine ended: after its cleanup, by an exception or for
      want of a connection during it, or before it ran at all. */
  datatype Ending = CleanedUp | CutShort | NeverRan

  datatype Phase =
    | Scheduled | Checking | Checked | Published | Sleeping
    | Zeroing(left: nat) | ZeroSleep(left: nat) | Ended(ending: Ending)

  /** A waiting caller is released by whoever sets the idle event, even if it is
      cleared again before the caller resumes. */
  datatype Caller = Waiting(released: bool) | Running | Returned

  datatype Cancellation = NotCancelled | Pending | Delivered

  /** The last three fields are history: samples published, those published
      after the lease had moved on, and zero frames since the last sample. */
  datatype Stream = Stream(
    gen: nat, oneShot: bool, caller: Caller, phase: Phase, cancel: Cancellation,
    samples: nat, late: nat, zeros: nat)

  datatype Lease = Lease(generation: nat, idle: bool, streams: seq<Stream>)

  const FREE_LEASE := Lease(0, true, [])

  /** What a stream's step may find in its surroundings. */
  datatype Env = Env(connected: bool, expired: bool, raises: bool, pastDeadline: bool, hasConn: bool)

  datatype LeaseAction =
    | Acquire(oneShot: bool)
    | Bump
    | Begin(caller: nat, timedOut: bool)
    | Abandon(caller: nat)
    | CancelStream(caller: nat)
    | Return(caller: nat)
    | Run(stream: nat, env: Env)

  predicate CanHappen(w: Lease, a: LeaseAction) {
    match a
    case Acquire(_) => true
    case Bump => true
    case Begin(i, timedOut) => i < |w.streams| && w.streams[i].caller.Waiting? && (w.streams[i].caller.released || w.idle || timedOut)
    case Abandon(i) => i < |w.streams| && w.streams[i].caller.Waiting?
    case CancelStream(i) => i < |w.streams| && w.streams[i].caller == Running && w.streams[i].cancel == NotCancelled
    case Return(i) => i < |w.streams| && w.streams[i].caller == Running
                      && (w.streams[i].phase.Ended? || w.streams[i].cancel != NotCancelled)
    case Run(i, _) => i < |w.streams| && !w.streams[i].caller.Waiting? && !w.streams[i].phase.Ended?
  }

  /** Leaving the stream loop: only one-shot streams send zero frames, and only
      while there is a connection object to send them on. */
  function Leave(zeroCount: nat, s: Stream, env: Env): Stream {
    s.(phase := if s.oneShot && env.hasConn then Zeroing(zeroCount) else if s.oneShot then Ended(CutShort) else Ended(CleanedUp))
  }

  /** One step of a velocity stream that sees the given generation. */
  function StreamStep(zeroCount: nat, generation: nat, s: Stream, env: Env): Stream {
    match s.phase
    case Scheduled => if s.cancel == Pending then s.(phase := Ended(NeverRan), cancel := Delivered) else s.(phase := Checking)
    case Checking =>
      if s.gen != generation || !env.connected || (s.samples > 0 && env.expired) then Leave(zeroCount, s, env)
      else s.(phase := Checked)
    case Checked =>
      if env.raises then Leave(zeroCount, s, env)
      else s.(phase := Published, samples := s.samples + 1, zeros := 0, late := if s.gen != generation then s.late + 1 else s.late)
    case Published => if env.pastDeadline then Leave(zeroCount, s, env) else s.(phase := Sleeping)
    case Sleeping =>
      if s.cancel == Pending then Leave(zeroCount, s.(cancel := Delivered), env) else s.(phase := Checking)
    case Zeroing(left) =>
      if left == 0 then s.(phase := Ended(CleanedUp))
      else if env.raises then s.(phase := Ended(CutShort))
      else s.(phase := ZeroSleep(left - 1), zeros := s.zeros + 1)
    case ZeroSleep(left) =>
      if s.cancel == Pending then s.(phase := Ended(CutShort), cancel := Delivered) else s.(phase := Zeroing(left))
    case Ended(_) => s
  }

  function Released(streams: seq<Stream>): seq<Stream> {
    seq(|streams|, i requires 0 <= i < |streams| =>
      if streams[i].caller.Waiting? then streams[i].(caller := Waiting(true)) else streams[i])
  }

  function AfterAction(zeroCount: nat, w: Lease, a: LeaseAction): Lease
    requires CanHappen(w, a)
  {
    match a
    case Acquire(oneShot) =>
      Lease(w.generation + 1, w.idle, w.streams + [Stream(w.generation + 1, oneShot, Waiting(w.idle), Scheduled, NotCancelled, 0, 0, 0)])
    case Bump => w.(generation := w.generation + 1)
    case Begin(i, _) => w.(idle := false, streams := w.streams[i := w.streams[i].(caller := Running)])
    case Abandon(i) => w.(streams := w.streams[i := w.streams[i].(caller := Returned, phase := Ended(NeverRan))])
    case CancelStream(i) => w.(streams := w.streams[i := w.streams[i].(cancel := Pending)])
    case Return(i) => w.(idle := true, streams := Released(w.streams[i := w.streams[i].(caller := Returned)]))
    case Run(i, env) => w.(streams := w.streams[i := StreamStep(zeroCount, w.generation, w.streams[i], env)])
  }

  // ----- what every step keeps -----

  /** Generations are handed out in increasing order, each once. */
  ghost predicate GenerationsUnique(w: Lease) {
    && (forall i :: 0 <= i < |w.streams| ==> 0 < w.streams[i].gen <= w.generation)
    && (forall i, j :: 0 <= i < j < |w.streams| ==> w.streams[i].gen < w.streams[j].gen)
  }

  /** A stream that no longer holds the lease has published at most one sample
      since, and only if it had passed its check before. */
  predicate LateOnce(generation: nat, s: Stream) {
    && s.late <= 1
    && (s.gen == generation || s.phase == Checked ==> s.late == 0)
  }

  /** The zero frames sent and those to come make up the whole count. */
  predicate ZerosCounted(zeroCount: nat, s: Stream) {
    && (s.phase.Zeroing? || s.phase.ZeroSleep? ==> s.oneShot && s.zeros + s.phase.left == zeroCount)
    && (s.phase.ZeroSleep? ==> s.zeros > 0)
    && (!s.phase.Zeroing? && !s.phase.ZeroSleep? && !s.phase.Ended? ==> s.zeros == 0)
    && (s.phase == Ended(CleanedUp) && s.oneShot ==> s.zeros == zeroCount)
    && (s.phase == Ended(NeverRan) || s.phase == Scheduled ==> s.samples == 0)
    && (s.caller.Waiting? ==> s.phase == Scheduled && s.cancel == NotCancelled)
  }

  predicate StreamValid(zeroCount: nat, generation: nat, s: Stream) {
    LateOnce(generation, s) && ZerosCounted(zeroCount, s)
  }

  ghost predicate LeaseValid(zeroCount: nat, w: Lease) {
    && GenerationsUnique(w)
    && forall i :: 0 <= i < |w.streams| ==> StreamValid(zeroCount, w.generation, w.streams[i])
  }

  lemma StreamStepKeepsValid(zeroCount: nat, generation: nat, s: Stream, env: Env)
    requires StreamValid(zeroCount, generation, s) && !s.caller.Waiting?
    ensures StreamValid(zeroCount, generation, StreamStep(zeroCount, generation, s, env))
  {
  }

  lemma GenerationsStayUnique(zeroCount: nat, w: Lease, a: LeaseAction)
    requires GenerationsUnique(w) && CanHappen(w, a)
    ensures GenerationsUnique(AfterAction(zeroCount, w, a))
  {
    var after := AfterAction(zeroCount, w, a);
    assert forall i :: 0 <= i < |w.streams| ==> after.streams[i].gen == w.streams[i].gen;
  }

  /** What a step makes of the stream it is about, or of any other. */
  lemma StepOfStream(zeroCount: nat, w: Lease, a: LeaseAction, i: nat)
    requires GenerationsUnique(w) && CanHappen(w, a) && i < |w.streams| && StreamValid(zeroCount, w.generation, w.streams[i])
    ensures StreamValid(zeroCount, AfterAction(zeroCount, w, a).generation, AfterAction(zeroCount, w, a).streams[i])
  {
    if a.Run? && i == a.stream {
      StreamStepKeepsValid(zeroCount, w.generation, w.streams[i], a.env);
    }
  }

  lemma ActionKeepsValid(zeroCount: nat, w: Lease, a: LeaseAction)
    requires LeaseValid(zeroCount, w) && CanHappen(w, a)
    ensures LeaseValid(zeroCount, AfterAction(zeroCount, w, a))
  {
    var after := AfterAction(zeroCount, w, a);
    GenerationsStayUnique(zeroCount, w, a);
    forall i | 0 <= i < |after.streams| ensures StreamValid(zeroCount, after.generation, after.streams[i]) {
      if i < |w.streams| {
        StepOfStream(zeroCount, w, a, i);
      } else {
        assert after.streams[i].samples == 0;
      }
    }
  }

  ghost predicate IsLeaseRun(zeroCount: nat, states: seq<Lease>, actions: seq<LeaseAction>) {
    && |states| == |actions| + 1 && states[0] == FREE_LEASE
    && forall k :: 0 <= k < |actions| ==> CanHappen(states[k], actions[k]) && states[k + 1] == AfterAction(zeroCount, states[k], actions[k])
  }

  lemma {:induction false} LeaseStaysValid(zeroCount: nat, states: seq<Lease>, actions: seq<LeaseAction>, k: nat)
    requires IsLeaseRun(zeroCount, states, actions) && k < |states|
    ensures LeaseValid(zeroCount, states[k])
  {
    if k > 0 {
      LeaseStaysValid(zeroCount, states, actions, k - 1);
      ActionKeepsValid(zeroCount, states[k - 1], actions[k - 1]);
    }
  }

  // ----- safety -----

  /** In no state of any run can two streams pass the generation check. */
  lemma AtMostOnePasses(zeroCount: nat, states: seq<Lease>, actions: seq<LeaseAction>, k: nat, i: nat, j: nat, e: Env, f: Env)
    requires IsLeaseRun(zeroCount, states, actions) && k < |states| && i < |states[k].streams| && j < |states[k].streams|
    requires states[k].streams[i].phase == Checking && states[k].streams[j].phase == Checking
    requires StreamStep(zeroCount, states[k].generation, states[k].streams[i], e).phase == Checked
    requires StreamStep(zeroCount, states[k].generation, states[k].streams[j], f).phase == Checked
    ensures i == j && states[k].streams[i].gen == states[k].generation
  {
    LeaseStaysValid(zeroCount, states, actions, k);
  }

  /** A lease once lost is never regained, and losing it happens to every
      stream at every acquisition, halt, cancellation or timeout. */
  lemma SupersededForever(zeroCount: nat, w: Lease, a: LeaseAction, i: nat)
    requires LeaseValid(zeroCount, w) && CanHappen(w, a) && i < |w.streams|
    ensures var after := AfterAction(zeroCount, w, a);
      && i < |after.streams| && after.streams[i].gen == w.streams[i].gen
      && (w.streams[i].gen < w.generation ==> after.streams[i].gen < after.generation)
      && (a.Acquire? || a.Bump? ==> after.streams[i].gen < after.generation)
  {
  }

  /** After the lease has moved on a stream publishes at most one more sample. */
  lemma AtMostOneLateSample(zeroCount: nat, states: seq<Lease>, actions: seq<LeaseAction>, k: nat, i: nat)
    requires IsLeaseRun(zeroCount, states, actions) && k < |states| && i < |states[k].streams|
    ensures states[k].streams[i].late <= 1
  {
    LeaseStaysValid(zeroCount, states, actions, k);
  }

  // ----- a superseded stream exits -----

  /** How many of its own steps a superseded stream can still take. */
  function Rank(zeroCount: nat, phase: Phase): nat {
    match phase
    case Ended(_) => 0
    case Zeroing(left) => 2 * left + 1
    case ZeroSleep(left) => 2 * left + 2
    case Checking => 2 * zeroCount + 2
    case Sleeping => 2 * zeroCount + 3
    case Scheduled => 2 * zeroCount + 3
    case Published => 2 * zeroCount + 4
    case Checked => 2 * zeroCount + 5
  }

  function OwnSteps(actions: seq<LeaseAction>, from: nat, to: nat, i: nat): nat
    requires from <= to <= |actions|
  {
    if from == to then 0
    else OwnSteps(actions, from, to - 1, i) + if actions[to - 1].Run? && actions[to - 1].stream == i then 1 else 0
  }

  /** From the moment it loses the lease, a stream takes no more than
      2 * zeroCount + 5 further steps, whatever else runs in between. */
  lemma {:induction false} SupersededExits(zeroCount: nat, states: seq<Lease>, actions: seq<LeaseAction>, from: nat, to: nat, i: nat)
    requires IsLeaseRun(zeroCount, states, actions) && from <= to < |states|
    requires i < |states[from].streams| && states[from].streams[i].gen < states[from].generation
    ensures i < |states[to].streams| && states[to].streams[i].gen < states[to].generation
    ensures OwnSteps(actions, from, to, i) + Rank(zeroCount, states[to].streams[i].phase)
         <= Rank(zeroCount, states[from].streams[i].phase) <= 2 * zeroCount + 5
  {
    LeaseStaysValid(zeroCount, states, actions, from);
    if from < to {
      SupersededExits(zeroCount, states, actions, from, to - 1, i);
      LeaseStaysValid(zeroCount, states, actions, to - 1);
      SupersededStep(zeroCount, states[to - 1], actions[to - 1], i);
    } else {
      RankBounded(zeroCount, states[from].generation, states[from].streams[i]);
    }
  }

  lemma RankBounded(zeroCount: nat, generation: nat, s: Stream)
    requires StreamValid(zeroCount, generation, s)
    ensures Rank(zeroCount, s.phase) <= 2 * zeroCount + 5
  {
  }

  lemma SupersededStep(zeroCount: nat, w: Lease, a: LeaseAction, i: nat)
    requires LeaseValid(zeroCount, w) && CanHappen(w, a) && i < |w.streams| && w.streams[i].gen < w.generation
    ensures var after := AfterAction(zeroCount, w, a);
      && i < |after.streams| && after.streams[i].gen < after.generation
      && Rank(zeroCount, after.streams[i].phase) + (if a.Run? && a.stream == i then 1 else 0) <= Rank(zeroCount, w.streams[i].phase)
  {
    SupersededForever(zeroCount, w, a, i);
    if a.Run? && a.stream == i {
      StreamRank(zeroCount, w.generation, w.streams[i], a.env);
    }
  }

  lemma StreamRank(zeroCount: nat, generation: nat, s: Stream, env: Env)
    requires s.gen != generation && !s.phase.Ended?
    ensures Rank(zeroCount, StreamStep(zeroCount, generation, s, env).phase) < Rank(zeroCount, s.phase)
  {
  }

  // ----- zero frames -----

  /** Past its sampling loop. */
  predicate CleansUp(s: Stream) { s.phase.Zeroing? || s.phase.ZeroSleep? || s.phase.Ended? }

  lemma CleanupStep(zeroCount: nat, w: Lease, a: LeaseAction, i: nat)
    requires LeaseValid(zeroCount, w) && CanHappen(w, a) && i < |w.streams| && CleansUp(w.streams[i])
    ensures var s := AfterAction(zeroCount, w, a).streams[i];
      && CleansUp(s) && s.samples == w.streams[i].samples && s.zeros >= w.streams[i].zeros
      && (w.streams[i].phase.Ended? ==> s.phase == w.streams[i].phase && s.zeros == w.streams[i].zeros)
  {
  }

  /** A stream that has left its sampling loop publishes no velocity sample in
      the rest of the run, and one that has ended sends nothing at all. */
  lemma {:induction false} CleanupIsFinal(zeroCount: nat, states: seq<Lease>, actions: seq<LeaseAction>, from: nat, to: nat, i: nat)
    requires IsLeaseRun(zeroCount, states, actions) && from <= to < |states|
    requires i < |states[from].streams| && CleansUp(states[from].streams[i])
    ensures i < |states[to].streams|
    ensures var (before, s) := (states[from].streams[i], states[to].streams[i]);
      && CleansUp(s) && s.samples == before.samples && s.zeros >= before.zeros
      && (before.phase.Ended? ==> s.phase == before.phase && s.zeros == before.zeros)
  {
    if from < to {
      CleanupIsFinal(zeroCount, states, actions, from, to - 1, i);
      LeaseStaysValid(zeroCount, states, actions, to - 1);
      CleanupStep(zeroCount, states[to - 1], actions[to - 1], i);
    }
  }

  /** What keeps a one-shot stream that ends from sending all its zero frames. */
  predicate FallsShort(zeroCount: nat, generation: nat, s: Stream, env: Env) {
    || (Leaves(generation, s, env) && !env.hasConn && zeroCount > 0)
    || (s.phase.Zeroing? && s.phase.left > 0 && env.raises)
    || (s.phase.ZeroSleep? && s.phase.left > 0 && s.cancel == Pending)
  }

  /** How a step ends a one-shot stream that has sampled. Leaving for
      preemption, disconnection, watchdog, deadline, cancellation or a raising
      publication all lead into the full count of zero frames. Fewer are sent
      exactly when there is no connection object left to send them on, a zero
      frame itself raises, or a cancellation lands before the last of them. */
  lemma ExitPaths(zeroCount: nat, states: seq<Lease>, actions: seq<LeaseAction>, k: nat, i: nat, env: Env)
    requires IsLeaseRun(zeroCount, states, actions) && k < |states| && i < |states[k].streams|
    requires CanHappen(states[k], Run(i, env)) && states[k].streams[i].oneShot && states[k].streams[i].samples > 0
    ensures var before := states[k].streams[i];
      var s := StreamStep(zeroCount, states[k].generation, before, env);
      && s.zeros <= zeroCount
      && (s.phase.Ended? ==> (s.zeros < zeroCount <==> FallsShort(zeroCount, states[k].generation, before, env)))
      && (Leaves(states[k].generation, before, env) && env.hasConn ==> s.phase == Zeroing(zeroCount))
      && (FallsShort(zeroCount, states[k].generation, before, env) ==> s.phase.Ended?)
  {
    LeaseStaysValid(zeroCount, states, actions, k);
    assert StreamValid(zeroCount, states[k].generation, states[k].streams[i]);
  }

  /** Every way out of the sampling loop. */
  predicate Leaves(generation: nat, s: Stream, env: Env) {
    || (s.phase == Checking && (s.gen != generation || !env.connected || (s.samples > 0 && env.expired)))
    || (s.phase == Checked && env.raises)
    || (s.phase == Published && env.pastDeadline)
    || (s.phase == Sleeping && s.cancel == Pending)
  }

  // ----- the idle event alone -----

  ghost predicate HoldsIdleTogether(w: Lease, i: nat, j: nat) {
    && i < j < |w.streams|
    && w.streams[i].caller == Running && w.streams[j].caller == Running
    && w.streams[i].phase == Checking && w.streams[j].phase == Checking
  }

  lemma ExtendRun(zeroCount: nat, states: seq<Lease>, actions: seq<LeaseAction>, a: LeaseAction) returns (longer: seq<Lease>, taken: seq<LeaseAction>)
    requires IsLeaseRun(zeroCount, states, actions) && CanHappen(states[|actions|], a)
    ensures IsLeaseRun(zeroCount, longer, taken) && |taken| == |actions| + 1
    ensures longer[|taken|] == AfterAction(zeroCount, states[|actions|], a)
    ensures longer == states + [longer[|taken|]] && taken == actions + [a]
  {
    longer, taken := states + [AfterAction(zeroCount, states[|actions|], a)], actions + [a];
  }

  function Held(gen: nat, caller: Caller, phase: Phase): Stream {
    Stream(gen, false, caller, phase, NotCancelled, 0, 0, 0)
  }

  /** A first holder is superseded by two waiting callers. */
  lemma TwoWaitForFirst(zeroCount: nat) returns (states: seq<Lease>, actions: seq<LeaseAction>)
    ensures IsLeaseRun(zeroCount, states, actions)
    ensures states[|actions|] == Lease(3, false,
      [Held(1, Running, Scheduled), Held(2, Waiting(false), Scheduled), Held(3, Waiting(false), Scheduled)])
  {
    states, actions := ExtendRun(zeroCount, [FREE_LEASE], [], Acquire(false));
    states, actions := ExtendRun(zeroCount, states, actions, Begin(0, false));
    assert states[|actions|] == Lease(1, false, [Held(1, Running, Scheduled)]);
    states, actions := ExtendRun(zeroCount, states, actions, Acquire(false));
    assert states[|actions|] == Lease(2, false, [Held(1, Running, Scheduled), Held(2, Waiting(false), Scheduled)]);
    states, actions := ExtendRun(zeroCount, states, actions, Acquire(false));
  }

  /** It leaves, and its return releases both. */
  lemma FirstHolderLeaves(zeroCount: nat, env: Env) returns (states: seq<Lease>, actions: seq<LeaseAction>)
    ensures IsLeaseRun(zeroCount, states, actions)
    ensures states[|actions|] == Lease(3, true,
      [Held(1, Returned, Ended(CleanedUp)), Held(2, Waiting(true), Scheduled), Held(3, Waiting(true), Scheduled)])
  {
    states, actions := TwoWaitForFirst(zeroCount);
    states, actions := ExtendRun(zeroCount, states, actions, Run(0, env));
    states, actions := ExtendRun(zeroCount, states, actions, Run(0, env));
    assert states[|actions|] == Lease(3, false,
      [Held(1, Running, Ended(CleanedUp)), Held(2, Waiting(false), Scheduled), Held(3, Waiting(false), Scheduled)]);
    states, actions := ExtendRun(zeroCount, states, actions, Return(0));
  }

  /** The idle event is not mutual exclusion: one stream returning releases every
      waiting caller, and both of two go on to run a stream, no wait timing out. */
  lemma IdleIsNotExclusive(zeroCount: nat, env: Env)
    ensures exists states, actions ::
      IsLeaseRun(zeroCount, states, actions) && HoldsIdleTogether(states[|actions|], 1, 2)
  {
    var states, actions := FirstHolderLeaves(zeroCount, env);
    states, actions := ExtendRun(zeroCount, states, actions, Begin(1, false));
    states, actions := ExtendRun(zeroCount, states, actions, Begin(2, false));
    assert states[|actions|] == Lease(3, false,
      [Held(1, Returned, Ended(CleanedUp)), Held(2, Running, Scheduled), Held(3, Running, Scheduled)]);
    states, actions := ExtendRun(zeroCount, states, actions, Run(1, env));
    states, actions := ExtendRun(zeroCount, states, actions, Run(2, env));
    assert HoldsIdleTogether(states[|actions|], 1, 2);
  }

  // ----- runs that fall short -----

  /** A sampled one-shot stream that ended with fewer zero frames than configured. */
  ghost predicate EndsShort(zeroCount: nat, w: Lease) {
    && |w.streams| == 1 && w.streams[0].oneShot && w.streams[0].samples > 0
    && w.streams[0].phase.Ended? && w.streams[0].zeros < zeroCount
  }

  const CALM := Env(true, false, false, false, true)
  const DUE := Env(true, false, false, true, true)
  const UNPLUGGED := Env(true, false, false, true, false)
  const RAISING := Env(true, false, true, false, true)

  function OneShot(phase: Phase, zeros: nat): Lease {
    Lease(1, false, [Stream(1, true, Running, phase, NotCancelled, 1, 0, zeros)])
  }

  lemma SampledOnce(zeroCount: nat) returns (states: seq<Lease>, actions: seq<LeaseAction>)
    ensures IsLeaseRun(zeroCount, states, actions) && states[|actions|] == OneShot(Published, 0)
  {
    states, actions := ExtendRun(zeroCount, [FREE_LEASE], [], Acquire(true));
    states, actions := ExtendRun(zeroCount, states, actions, Begin(0, false));
    assert states[|actions|] == Lease(1, false, [Stream(1, true, Running, Scheduled, NotCancelled, 0, 0, 0)]);
    states, actions := ExtendRun(zeroCount, states, actions, Run(0, CALM));
    states, actions := ExtendRun(zeroCount, states, actions, Run(0, CALM));
    states, actions := ExtendRun(zeroCount, states, actions, Run(0, CALM));
  }

  /** The connection object is gone when the deadline passes. */
  lemma LostConnectionFallsShort(zeroCount: nat)
    requires zeroCount > 0
    ensures exists states: seq<Lease>, actions: seq<LeaseAction> ::
      && IsLeaseRun(zeroCount, states, actions) && EndsShort(zeroCount, states[|actions|]) && |actions| > 0
      && states[|actions| - 1] == OneShot(Published, 0) && actions[|actions| - 1] == Run(0, UNPLUGGED)
  {
    var states, actions := SampledOnce(zeroCount);
    states, actions := ExtendRun(zeroCount, states, actions, Run(0, UNPLUGGED));
  }

  /** The first zero frame raises. */
  lemma RaisingZeroFallsShort(zeroCount: nat)
    requires zeroCount > 0
    ensures exists states: seq<Lease>, actions: seq<LeaseAction> ::
      && IsLeaseRun(zeroCount, states, actions) && EndsShort(zeroCount, states[|actions|]) && |actions| > 0
      && states[|actions| - 1] == OneShot(Zeroing(zeroCount), 0) && actions[|actions| - 1] == Run(0, RAISING)
  {
    var states, actions := SampledOnce(zeroCount);
    states, actions := ExtendRun(zeroCount, states, actions, Run(0, DUE));
    assert states[|actions|] == OneShot(Zeroing(zeroCount), 0);
    states, actions := ExtendRun(zeroCount, states, actions, Run(0, RAISING));
  }

  /** A cancellation lands after the first of several zero frames. */
  lemma CancelledZerosFallShort(zeroCount: nat)
    requires zeroCount > 1
    ensures exists states: seq<Lease>, actions: seq<LeaseAction> ::
      && IsLeaseRun(zeroCount, states, actions) && EndsShort(zeroCount, states[|actions|]) && |actions| > 1
      && states[|actions| - 2] == OneShot(ZeroSleep(zeroCount - 1), 1) && actions[|actions| - 2] == CancelStream(0)
  {
    var states, actions := FirstZeroSent(zeroCount);
    ghost var n := |actions|;
    states, actions := ExtendRun(zeroCount, states, actions, CancelStream(0));
    assert states[n + 1] == Lease(1, false, [Stream(1, true, Running, ZeroSleep(zeroCount - 1), Pending, 1, 0, 1)]);
    states, actions := ExtendRun(zeroCount, states, actions, Run(0, CALM));
    assert IsLeaseRun(zeroCount, states, actions) && EndsShort(zeroCount, states[|actions|]) && |actions| == n + 2;
  }

  lemma FirstZeroSent(zeroCount: nat) returns (states: seq<Lease>, actions: seq<LeaseAction>)
    requires zeroCount > 1
    ensures IsLeaseRun(zeroCount, states, actions) && states[|actions|] == OneShot(ZeroSleep(zeroCount - 1), 1)
  {
    states, actions := SampledOnce(zeroCount);
    states, actions := ExtendRun(zeroCount, states, actions, Run(0, DUE));
    states, actions := ExtendRun(zeroCount, states, actions, Run(0, CALM));
  }

  // ----- the lease as the object keeps it -----

  class UnitreeMotion {
    const zeroCount: nat
    var motionGen: nat
    var driveIdle: bool
    var streams: seq<Stream>

    function State(): Lease
      reads this
    {
      Lease(motionGen, driveIdle, streams)
    }

    constructor (zeroCount: nat)
      ensures State() == FREE_LEASE && this.zeroCount == zeroCount
    {
      this.zeroCount := zeroCount;
      motionGen, driveIdle, streams := 0, true, [];
    }

    /** Halting, and a cancelled or timed out bridge call, only invalidate the lease. */
    method BumpMotionGeneration() returns (gen: nat)
      requires LeaseValid(zeroCount, State())
      modifies this
      ensures LeaseValid(zeroCount, State()) && State() == AfterAction(zeroCount, old(State()), Bump)
      ensures gen == motionGen && forall i :: 0 <= i < |streams| ==> streams[i].gen < gen
    {
      ActionKeepsValid(zeroCount, State(), Bump);
      motionGen := motionGen + 1;
      gen := motionGen;
    }

    method Acquire(oneShot: bool) returns (id: nat)
      requires LeaseValid(zeroCount, State())
      modifies this
      ensures LeaseValid(zeroCount, State()) && State() == AfterAction(zeroCount, old(State()), LeaseAction.Acquire(oneShot))
      ensures id < |streams| && streams[id].gen == motionGen
    {
      ActionKeepsValid(zeroCount, State(), LeaseAction.Acquire(oneShot));
      motionGen, id := motionGen + 1, |streams|;
      streams := streams + [Stream(motionGen, oneShot, Waiting(driveIdle), Scheduled, NotCancelled, 0, 0, 0)];
    }

    method Begin(id: nat, timedOut: bool)
      requires LeaseValid(zeroCount, State()) && CanHappen(State(), LeaseAction.Begin(id, timedOut))
      modifies this
      ensures LeaseValid(zeroCount, State()) && State() == AfterAction(zeroCount, old(State()), LeaseAction.Begin(id, timedOut))
    {
      ActionKeepsValid(zeroCount, State(), LeaseAction.Begin(id, timedOut));
      driveIdle := false;
      streams := streams[id := streams[id].(caller := Running)];
    }

    method CancelStream(id: nat)
      requires LeaseValid(zeroCount, State()) && CanHappen(State(), LeaseAction.CancelStream(id))
      modifies this
      ensures LeaseValid(zeroCount, State()) && State() == AfterAction(zeroCount, old(State()), LeaseAction.CancelStream(id))
    {
      ActionKeepsValid(zeroCount, State(), LeaseAction.CancelStream(id));
      streams := streams[id := streams[id].(cancel := Pending)];
    }

    method Return(id: nat)
      requires LeaseValid(zeroCount, State()) && CanHappen(State(), LeaseAction.Return(id))
      modifies this
      ensures LeaseValid(zeroCount, State()) && State() == AfterAction(zeroCount, old(State()), LeaseAction.Return(id))
    {
      ActionKeepsValid(zeroCount, State(), LeaseAction.Return(id));
      driveIdle, streams := true, Released(streams[id := streams[id].(caller := Returned)]);
    }

    method RunStream(id: nat, env: Env)
      requires LeaseValid(zeroCount, State()) && CanHappen(State(), Run(id, env))
      modifies this`streams
      ensures LeaseValid(zeroCount, State()) && State() == AfterAction(zeroCount, old(State()), Run(id, env))
    {
      ActionKeepsValid(zeroCount, State(), Run(id, env));
      streams := streams[id := StreamStep(zeroCount, motionGen, streams[id], env)];
    }
  }
}
