/** The coroutine `_velocity_stream` as it is written, with its end reasons:
    robot_brain/actuation/unitree_webrtc.py:1725-1820. */
module VelocityStream {
  import opened Grid
  import M = MotionLease

  datatype EndReason = Completed | Preempted | Disconnect | Watchdog | Cancelled | TransportError

  /** What one turn of the sampling loop finds. */
  datatype Turn = Turn(generation: nat, connected: bool, expired: bool, raises: bool, pastDeadline: bool, cancelled: bool)

  /** What one zero frame meets: its publication raises, or its sleep is cancelled. */
  datatype ZeroTurn = ZeroTurn(raises: bool, cancelled: bool)

  datatype Exit = Exit(reason: EndReason, sampled: bool)

  /** How a turn leaves the loop, the causes in the order they are looked at. */
  function ExitOf(gen: nat, turn: nat, t: Turn): Option<Exit> {
    if t.generation != gen then Some(Exit(Preempted, false))
    else if !t.connected then Some(Exit(Disconnect, false))
    else if turn > 0 && t.expired then Some(Exit(Watchdog, false))
    else if t.raises then Some(Exit(TransportError, false))
    else if t.pastDeadline then Some(Exit(Completed, true))
    else if t.cancelled then Some(Exit(Cancelled, true))
    else None
  }

  /** The loop runs exactly to its first exit, having sampled once in each turn before. */
  ghost predicate LeavesAt(gen: nat, turns: nat -> Turn, n: nat, reason: EndReason, samples: nat) {
    && (forall k :: 0 <= k < n ==> ExitOf(gen, k, turns(k)).None?)
    && ExitOf(gen, n, turns(n)).Some? && ExitOf(gen, n, turns(n)).value.reason == reason
    && samples == n + if ExitOf(gen, n, turns(n)).value.sampled then 1 else 0
  }

  lemma FirstExitIsUnique(gen: nat, turns: nat -> Turn, n: nat, m: nat, r: EndReason, q: EndReason, a: nat, b: nat)
    requires LeavesAt(gen, turns, n, r, a) && LeavesAt(gen, turns, m, q, b)
    ensures n == m && r == q && a == b
  {
    assert n < m ==> ExitOf(gen, n, turns(n)).None?;
    assert m < n ==> ExitOf(gen, m, turns(m)).None?;
  }

  /** Whether zero frame `k` is sent, and whether the next one is tried. */
  predicate Sent(t: ZeroTurn) { !t.raises }

  predicate GoesOn(cancellable: bool, t: ZeroTurn) { !t.raises && !(cancellable && t.cancelled) }

  /** The zero frames stop after the count, at a raising one, or after a cancelled sleep. */
  ghost predicate StopsZeroing(cancellable: bool, zeroCount: nat, turns: nat -> ZeroTurn, zeros: nat, finished: bool) {
    && zeros <= zeroCount
    && (forall k :: 0 <= k < zeros ==> Sent(turns(k)))
    && (forall k :: 0 <= k < zeros - 1 ==> GoesOn(cancellable, turns(k)))
    && (finished <==> zeros == zeroCount && (zeros > 0 ==> GoesOn(cancellable, turns(zeros - 1))))
    && (!finished ==> (zeros < zeroCount && turns(zeros).raises && (zeros > 0 ==> GoesOn(cancellable, turns(zeros - 1))))
                      || (zeros > 0 && !GoesOn(cancellable, turns(zeros - 1))))
  }

  // ----- the same steps in the interleaved machine -----

  datatype Seen = Seen(generation: nat, env: M.Env, cancels: bool)

  function Step(zeroCount: nat, s: M.Stream, seen: Seen): M.Stream {
    M.StreamStep(zeroCount, seen.generation, if seen.cancels && s.cancel == M.NotCancelled then s.(cancel := M.Pending) else s, seen.env)
  }

  function Steps(zeroCount: nat, s: M.Stream, seen: seq<Seen>): M.Stream {
    if seen == [] then s else Step(zeroCount, Steps(zeroCount, s, seen[..|seen| - 1]), seen[|seen| - 1])
  }

  lemma StepsNext(zeroCount: nat, s: M.Stream, seen: seq<Seen>, next: Seen)
    ensures Steps(zeroCount, s, seen + [next]) == Step(zeroCount, Steps(zeroCount, s, seen), next)
  {
    assert (seen + [next])[..|seen|] == seen;
  }

  function Started(gen: nat, oneShot: bool): M.Stream {
    M.Stream(gen, oneShot, M.Running, M.Checking, M.NotCancelled, 0, 0, 0)
  }

  function Environment(t: Turn, hasConn: bool): M.Env {
    M.Env(t.connected, t.expired, t.raises, t.pastDeadline, hasConn)
  }

  /** What the machine's stream sees in one turn: at its check, its publication,
      its deadline test and its sleep. */
  function SeenIn(gen: nat, turn: nat, t: Turn, hasConn: bool): seq<Seen> {
    var at := Seen(t.generation, Environment(t, hasConn), false);
    if t.generation != gen || !t.connected || (turn > 0 && t.expired) then [at]
    else if t.raises then [at, at]
    else if t.pastDeadline then [at, at, at]
    else [at, at, at, at.(cancels := t.cancelled)]
  }

  /** In the sampling loop after some full turns. */
  function Sampling(gen: nat, oneShot: bool, turns: nat, late: nat): M.Stream {
    Started(gen, oneShot).(samples := turns, late := late)
  }

  lemma FewSteps(zeroCount: nat, s: M.Stream, a: Seen, b: Seen, c: Seen, d: Seen)
    ensures Steps(zeroCount, s, [a]) == Step(zeroCount, s, a)
    ensures Steps(zeroCount, s, [a, b]) == Step(zeroCount, Step(zeroCount, s, a), b)
    ensures Steps(zeroCount, s, [a, b, c]) == Step(zeroCount, Step(zeroCount, Step(zeroCount, s, a), b), c)
    ensures Steps(zeroCount, s, [a, b, c, d]) == Step(zeroCount, Step(zeroCount, Step(zeroCount, Step(zeroCount, s, a), b), c), d)
  {
    assert Steps(zeroCount, s, []) == s;
    assert [] + [a] == [a] && [a] + [b] == [a, b] && [a, b] + [c] == [a, b, c] && [a, b, c] + [d] == [a, b, c, d];
    StepsNext(zeroCount, s, [], a);
    StepsNext(zeroCount, s, [a], b);
    StepsNext(zeroCount, s, [a, b], c);
    StepsNext(zeroCount, s, [a, b, c], d);
  }

  /** Where a turn leaves the machine's stream. */
  function AfterTurn(zeroCount: nat, gen: nat, oneShot: bool, turn: nat, t: Turn, hasConn: bool): M.Stream {
    var exit := ExitOf(gen, turn, t);
    if exit.None? then Sampling(gen, oneShot, turn + 1, 0)
    else Left(zeroCount, gen, oneShot, turn + (if exit.value.sampled then 1 else 0), exit.value.reason, t, hasConn)
  }

  function Left(zeroCount: nat, gen: nat, oneShot: bool, samples: nat, reason: EndReason, t: Turn, hasConn: bool): M.Stream {
    M.Leave(zeroCount, Sampling(gen, oneShot, samples, 0).(cancel := if reason == Cancelled then M.Delivered else M.NotCancelled),
            Environment(t, hasConn))
  }

  /** One turn of the loop is the machine's check, publication, deadline test and sleep. */
  lemma TurnIsSteps(zeroCount: nat, gen: nat, oneShot: bool, turn: nat, t: Turn, hasConn: bool)
    ensures Steps(zeroCount, Sampling(gen, oneShot, turn, 0), SeenIn(gen, turn, t, hasConn))
         == AfterTurn(zeroCount, gen, oneShot, turn, t, hasConn)
  {
    var (s, at) := (Sampling(gen, oneShot, turn, 0), Seen(t.generation, Environment(t, hasConn), false));
    FewSteps(zeroCount, s, at, at, at, at.(cancels := t.cancelled));
    if t.generation == gen && t.connected && !(turn > 0 && t.expired) {
      PassedCheck(zeroCount, gen, oneShot, turn, t, hasConn);
    }
  }

  lemma PassedCheck(zeroCount: nat, gen: nat, oneShot: bool, turn: nat, t: Turn, hasConn: bool)
    requires t.generation == gen && t.connected && !(turn > 0 && t.expired)
    ensures var (s, at) := (Sampling(gen, oneShot, turn, 0), Seen(t.generation, Environment(t, hasConn), false));
      && Step(zeroCount, s, at) == s.(phase := M.Checked)
      && (t.raises ==> Step(zeroCount, s.(phase := M.Checked), at) == Left(zeroCount, gen, oneShot, turn, TransportError, t, hasConn))
      && (!t.raises ==> Step(zeroCount, s.(phase := M.Checked), at) == s.(phase := M.Published, samples := turn + 1))
      && (t.pastDeadline ==>
            Step(zeroCount, s.(phase := M.Published, samples := turn + 1), at) == Left(zeroCount, gen, oneShot, turn + 1, Completed, t, hasConn))
      && (!t.pastDeadline ==> Step(zeroCount, s.(phase := M.Published, samples := turn + 1), at) == s.(phase := M.Sleeping, samples := turn + 1))
      && Step(zeroCount, s.(phase := M.Sleeping, samples := turn + 1), at.(cancels := t.cancelled))
         == if t.cancelled then Left(zeroCount, gen, oneShot, turn + 1, Cancelled, t, hasConn) else Sampling(gen, oneShot, turn + 1, 0)
  {
  }

  lemma TakeTurn(zeroCount: nat, gen: nat, oneShot: bool, seen: seq<Seen>, turn: nat, t: Turn, hasConn: bool)
    requires Steps(zeroCount, Started(gen, oneShot), seen) == Sampling(gen, oneShot, turn, 0)
    ensures Steps(zeroCount, Started(gen, oneShot), seen + SeenIn(gen, turn, t, hasConn))
         == AfterTurn(zeroCount, gen, oneShot, turn, t, hasConn)
  {
    TurnIsSteps(zeroCount, gen, oneShot, turn, t, hasConn);
    StepsJoin(zeroCount, Started(gen, oneShot), seen, SeenIn(gen, turn, t, hasConn));
  }

  lemma {:induction false} StepsJoin(zeroCount: nat, s: M.Stream, a: seq<Seen>, b: seq<Seen>)
    ensures Steps(zeroCount, s, a + b) == Steps(zeroCount, Steps(zeroCount, s, a), b)
  {
    if b == [] {
      assert a + b == a;
    } else {
      var init, last := b[..|b| - 1], b[|b| - 1];
      StepsJoin(zeroCount, s, a, init);
      assert a + b == a + init + [last];
      StepsNext(zeroCount, s, a + init, last);
    }
  }

  /** The machine's stream comes from one state to another by seeing this. */
  ghost predicate Reaches(zeroCount: nat, s: M.Stream, seen: seq<Seen>, after: M.Stream) {
    forall e {:trigger IsAfter(zeroCount, s, seen, e)} :: IsAfter(zeroCount, s, seen, e) ==> e == after
  }

  ghost predicate IsAfter(zeroCount: nat, s: M.Stream, seen: seq<Seen>, after: M.Stream) { after == Steps(zeroCount, s, seen) }

  lemma ReachesExactly(zeroCount: nat, s: M.Stream, seen: seq<Seen>, after: M.Stream)
    ensures Reaches(zeroCount, s, seen, after) <==> after == Steps(zeroCount, s, seen)
  {
    assert IsAfter(zeroCount, s, seen, Steps(zeroCount, s, seen));
  }

  lemma ReachesJoin(zeroCount: nat, s: M.Stream, a: seq<Seen>, middle: M.Stream, b: seq<Seen>, after: M.Stream, whole: seq<Seen>)
    requires Reaches(zeroCount, s, a, middle) && Reaches(zeroCount, middle, b, after) && whole == a + b
    ensures Reaches(zeroCount, s, whole, after)
  {
    ReachesExactly(zeroCount, s, a, middle);
    ReachesExactly(zeroCount, middle, b, after);
    StepsJoin(zeroCount, s, a, b);
    ReachesExactly(zeroCount, s, whole, after);
  }

  /** What the machine's stream sees in the first turns of the loop. */
  function LoopTrace(gen: nat, turns: nat -> Turn, n: nat, hasConn: bool): seq<Seen> {
    if n == 0 then [] else LoopTrace(gen, turns, n - 1, hasConn) + SeenIn(gen, n - 1, turns(n - 1), hasConn)
  }

  /** The machine's course through the turns before the exit. */
  lemma {:induction false} FullTurns(zeroCount: nat, gen: nat, oneShot: bool, turns: nat -> Turn, n: nat, hasConn: bool)
    requires forall k :: 0 <= k < n ==> ExitOf(gen, k, turns(k)).None?
    ensures Steps(zeroCount, Started(gen, oneShot), LoopTrace(gen, turns, n, hasConn)) == Sampling(gen, oneShot, n, 0)
  {
    if n > 0 {
      FullTurns(zeroCount, gen, oneShot, turns, n - 1, hasConn);
      TakeTurn(zeroCount, gen, oneShot, LoopTrace(gen, turns, n - 1, hasConn), n - 1, turns(n - 1), hasConn);
    }
  }

  /** And out of the loop. */
  lemma LoopCourse(zeroCount: nat, gen: nat, oneShot: bool, turns: nat -> Turn, n: nat, reason: EndReason, samples: nat, hasConn: bool)
    requires LeavesAt(gen, turns, n, reason, samples)
    ensures Reaches(zeroCount, Started(gen, oneShot), LoopTrace(gen, turns, n + 1, hasConn),
                    Left(zeroCount, gen, oneShot, samples, reason, turns(n), hasConn))
  {
    FullTurns(zeroCount, gen, oneShot, turns, n, hasConn);
    TakeTurn(zeroCount, gen, oneShot, LoopTrace(gen, turns, n, hasConn), n, turns(n), hasConn);
    ReachesExactly(zeroCount, Started(gen, oneShot), LoopTrace(gen, turns, n + 1, hasConn),
                   Left(zeroCount, gen, oneShot, samples, reason, turns(n), hasConn));
  }

  /** The sampling loop; it ends because some turn leaves it. */
  method SampleUntilExit(gen: nat, turns: nat -> Turn, ghost last: nat) returns (samples: nat, reason: EndReason)
    requires ExitOf(gen, last, turns(last)).Some?
    ensures exists n: nat :: n <= last && LeavesAt(gen, turns, n, reason, samples)
  {
    samples, reason := 0, Completed;
    ghost var n := 0;
    while true
      invariant n <= last && samples == n && reason == Completed && forall k :: 0 <= k < n ==> ExitOf(gen, k, turns(k)).None?
      decreases last - n
    {
      var turn := turns(samples);
      if turn.generation != gen {
        reason := Preempted;
        break;
      }
      if !turn.connected {
        reason := Disconnect;
        break;
      }
      if samples > 0 && turn.expired {
        reason := Watchdog;
        break;
      }
      if turn.raises {
        reason := TransportError;
        break;
      }
      samples := samples + 1;
      if turn.pastDeadline {
        break;
      }
      if turn.cancelled {
        reason := Cancelled;
        break;
      }
      n := n + 1;
    }
    assert LeavesAt(gen, turns, n, reason, samples);
  }

  function ZeroEnv(raises: bool): M.Env { M.Env(true, false, raises, false, true) }

  /** In the cleanup with some zero frames sent. */
  predicate IsZeroing(s: M.Stream, start: M.Stream, zeroCount: nat, zeros: nat)
    requires zeros <= zeroCount
  {
    s.samples == start.samples && s.cancel == start.cancel && s.zeros == zeros && s.phase == M.Zeroing(zeroCount - zeros)
  }

  /** What the machine's stream sees at one zero frame: its publication, and its sleep unless it raises. */
  function FrameSeen(gen: nat, t: ZeroTurn): seq<Seen> {
    if t.raises then [Seen(gen, ZeroEnv(true), false)]
    else [Seen(gen, ZeroEnv(false), false), Seen(gen, ZeroEnv(false), t.cancelled)]
  }

  /** What it sees from frame `k` on, with `left` frames still due: the frames up to the
      first that is not gone on from, or all of them and the end of the cleanup. */
  function ZeroTrace(gen: nat, cancellable: bool, left: nat, turns: nat -> ZeroTurn, k: nat): seq<Seen>
    decreases left
  {
    if left == 0 then [Seen(gen, ZeroEnv(false), false)]
    else FrameSeen(gen, turns(k)) + if GoesOn(cancellable, turns(k)) then ZeroTrace(gen, cancellable, left - 1, turns, k + 1) else []
  }

  lemma FrameCourse(zeroCount: nat, gen: nat, s: M.Stream, start: M.Stream, k: nat, t: ZeroTurn) returns (after: M.Stream)
    requires k < zeroCount && IsZeroing(s, start, zeroCount, k) && start.cancel != M.Pending
    ensures Reaches(zeroCount, s, FrameSeen(gen, t), after)
    ensures if GoesOn(start.cancel == M.NotCancelled, t) then IsZeroing(after, start, zeroCount, k + 1)
      else EndsAs(after, start.samples, if t.raises then k else k + 1, false)
  {
    FewSteps(zeroCount, s, Seen(gen, ZeroEnv(t.raises), false), Seen(gen, ZeroEnv(false), t.cancelled),
             Seen(gen, ZeroEnv(false), false), Seen(gen, ZeroEnv(false), false));
    after := Steps(zeroCount, s, FrameSeen(gen, t));
    ReachesExactly(zeroCount, s, FrameSeen(gen, t), after);
  }

  /** Frames that were all gone on from do not end the cleanup before the count. */
  lemma StopsNoEarlier(cancellable: bool, zeroCount: nat, turns: nat -> ZeroTurn, zeros: nat, finished: bool, k: nat)
    requires StopsZeroing(cancellable, zeroCount, turns, zeros, finished)
    requires k <= zeroCount && forall j :: 0 <= j < k ==> GoesOn(cancellable, turns(j))
    ensures k <= zeros
    ensures k == zeroCount ==> zeros == zeroCount && finished
    ensures k < zeroCount && !GoesOn(cancellable, turns(k)) ==> zeros == (if turns(k).raises then k else k + 1) && !finished
  {
    assert k < zeroCount && turns(k).raises ==> !Sent(turns(k));
  }

  /** The machine's course through the zero frames. */
  lemma {:induction false} ZeroCourse(zeroCount: nat, gen: nat, s: M.Stream, start: M.Stream, turns: nat -> ZeroTurn, k: nat,
                                      zeros: nat, finished: bool)
    returns (after: M.Stream)
    requires k <= zeroCount && IsZeroing(s, start, zeroCount, k) && start.cancel != M.Pending
    requires forall j :: 0 <= j < k ==> GoesOn(start.cancel == M.NotCancelled, turns(j))
    requires StopsZeroing(start.cancel == M.NotCancelled, zeroCount, turns, zeros, finished)
    ensures Reaches(zeroCount, s, ZeroTrace(gen, start.cancel == M.NotCancelled, zeroCount - k, turns, k), after)
    ensures EndsAs(after, start.samples, zeros, finished)
    decreases zeroCount - k
  {
    var cancellable := start.cancel == M.NotCancelled;
    StopsNoEarlier(cancellable, zeroCount, turns, zeros, finished, k);
    if k == zeroCount {
      after := LastStep(zeroCount, gen, s, start);
    } else {
      var middle := FrameCourse(zeroCount, gen, s, start, k, turns(k));
      ZeroTraceNext(gen, cancellable, zeroCount - k, turns, k);
      if GoesOn(cancellable, turns(k)) {
        after := ZeroCourse(zeroCount, gen, middle, start, turns, k + 1, zeros, finished);
        ReachesJoin(zeroCount, s, FrameSeen(gen, turns(k)), middle, ZeroTrace(gen, cancellable, zeroCount - k - 1, turns, k + 1),
                    after, ZeroTrace(gen, cancellable, zeroCount - k, turns, k));
      } else {
        after := middle;
      }
    }
  }

  lemma ZeroTraceNext(gen: nat, cancellable: bool, left: nat, turns: nat -> ZeroTurn, k: nat)
    requires left > 0
    ensures ZeroTrace(gen, cancellable, left, turns, k)
         == if GoesOn(cancellable, turns(k)) then FrameSeen(gen, turns(k)) + ZeroTrace(gen, cancellable, left - 1, turns, k + 1)
            else FrameSeen(gen, turns(k))
  {
  }

  lemma LastStep(zeroCount: nat, gen: nat, s: M.Stream, start: M.Stream) returns (after: M.Stream)
    requires IsZeroing(s, start, zeroCount, zeroCount)
    ensures Reaches(zeroCount, s, [Seen(gen, ZeroEnv(false), false)], after) && EndsAs(after, start.samples, zeroCount, true)
  {
    after := Steps(zeroCount, s, [Seen(gen, ZeroEnv(false), false)]);
    ReachesExactly(zeroCount, s, [Seen(gen, ZeroEnv(false), false)], after);
    StepsNext(zeroCount, s, [], Seen(gen, ZeroEnv(false), false));
    assert Steps(zeroCount, s, []) == s;
    assert [] + [Seen(gen, ZeroEnv(false), false)] == [Seen(gen, ZeroEnv(false), false)];
  }

  /** The zero frames of a one-shot stream with a connection. */
  method SendZeros(zeroCount: nat, cancellable: bool, turns: nat -> ZeroTurn) returns (zeros: nat, finished: bool)
    ensures StopsZeroing(cancellable, zeroCount, turns, zeros, finished)
  {
    zeros := 0;
    while zeros < zeroCount
      invariant zeros <= zeroCount && forall k :: 0 <= k < zeros ==> GoesOn(cancellable, turns(k))
    {
      var turn := turns(zeros);
      if turn.raises {
        return zeros, false;
      }
      zeros := zeros + 1;
      if cancellable && turn.cancelled {
        return zeros, false;
      }
    }
    finished := true;
  }

  /** The whole trace of a coroutine that leaves its loop in turn `n`: what the machine's stream sees at
      its checks, publications, deadline tests and sleeps, given by the turns and nothing else. */
  function Trace(gen: nat, oneShot: bool, zeroCount: nat, hasConn: bool, turns: nat -> Turn, zeroTurns: nat -> ZeroTurn,
                 n: nat, reason: EndReason): seq<Seen>
  {
    LoopTrace(gen, turns, n + 1, hasConn)
    + if oneShot && hasConn then ZeroTrace(gen, reason != Cancelled, zeroCount, zeroTurns, 0) else []
  }

  predicate EndsAs(s: M.Stream, samples: nat, zeros: nat, finished: bool) {
    s.samples == samples && s.zeros == zeros && s.phase == M.Ended(if finished then M.CleanedUp else M.CutShort)
  }

  /** The zero frames that follow the sampling loop. */
  ghost predicate IsCleanup(oneShot: bool, hasConn: bool, reason: EndReason, zeroCount: nat, zeroTurns: nat -> ZeroTurn, zeros: nat, finished: bool) {
    if oneShot && hasConn then StopsZeroing(reason != Cancelled, zeroCount, zeroTurns, zeros, finished)
    else zeros == 0 && finished == !oneShot
  }

  lemma CoroutineReaches(gen: nat, oneShot: bool, zeroCount: nat, hasConn: bool, turns: nat -> Turn, zeroTurns: nat -> ZeroTurn,
                         n: nat, samples: nat, zeros: nat, reason: EndReason, finished: bool) returns (after: M.Stream)
    requires LeavesAt(gen, turns, n, reason, samples)
    requires IsCleanup(oneShot, hasConn, reason, zeroCount, zeroTurns, zeros, finished)
    ensures Reaches(zeroCount, Started(gen, oneShot), Trace(gen, oneShot, zeroCount, hasConn, turns, zeroTurns, n, reason), after)
    ensures EndsAs(after, samples, zeros, finished)
  {
    var loop, left := LoopTrace(gen, turns, n + 1, hasConn), Left(zeroCount, gen, oneShot, samples, reason, turns(n), hasConn);
    var whole := Trace(gen, oneShot, zeroCount, hasConn, turns, zeroTurns, n, reason);
    LoopCourse(zeroCount, gen, oneShot, turns, n, reason, samples, hasConn);
    LeftIsEnd(zeroCount, gen, oneShot, samples, reason, turns(n), hasConn);
    if oneShot && hasConn {
      after := ZeroCourse(zeroCount, gen, left, left, zeroTurns, 0, zeros, finished);
      ReachesJoin(zeroCount, Started(gen, oneShot), loop, left, ZeroTrace(gen, reason != Cancelled, zeroCount, zeroTurns, 0), after, whole);
    } else {
      after := left;
      assert whole == loop;
    }
  }

  /** Whatever the coroutine meets, the interleaved machine's stream, meeting the same in the same
      order, ends as the coroutine does, with its samples and its zero frames. */
  lemma CoroutineIsMachine(gen: nat, oneShot: bool, zeroCount: nat, hasConn: bool, turns: nat -> Turn, zeroTurns: nat -> ZeroTurn,
                           n: nat, samples: nat, zeros: nat, reason: EndReason, finished: bool)
    requires LeavesAt(gen, turns, n, reason, samples)
    requires IsCleanup(oneShot, hasConn, reason, zeroCount, zeroTurns, zeros, finished)
    ensures EndsAs(Steps(zeroCount, Started(gen, oneShot), Trace(gen, oneShot, zeroCount, hasConn, turns, zeroTurns, n, reason)),
                   samples, zeros, finished)
  {
    var after := CoroutineReaches(gen, oneShot, zeroCount, hasConn, turns, zeroTurns, n, samples, zeros, reason, finished);
    ReachesExactly(zeroCount, Started(gen, oneShot), Trace(gen, oneShot, zeroCount, hasConn, turns, zeroTurns, n, reason), after);
  }

  /** Where the loop leaves the machine's stream: at its zero frames, or at its end. */
  lemma LeftIsEnd(zeroCount: nat, gen: nat, oneShot: bool, samples: nat, reason: EndReason, t: Turn, hasConn: bool)
    ensures var left := Left(zeroCount, gen, oneShot, samples, reason, t, hasConn);
      && left.samples == samples && left.cancel != M.Pending && (left.cancel == M.NotCancelled <==> reason != Cancelled)
      && if oneShot && hasConn then IsZeroing(left, left, zeroCount, 0) else EndsAs(left, samples, 0, !oneShot)
  {
  }

  /** The whole coroutine: why it ended and how many samples and zero frames it sent. */
  method RunStream(gen: nat, oneShot: bool, zeroCount: nat, hasConn: bool, turns: nat -> Turn, zeroTurns: nat -> ZeroTurn, ghost last: nat)
    returns (samples: nat, zeros: nat, reason: EndReason, finished: bool)
    requires ExitOf(gen, last, turns(last)).Some?
    ensures exists n: nat :: n <= last && LeavesAt(gen, turns, n, reason, samples)
    ensures IsCleanup(oneShot, hasConn, reason, zeroCount, zeroTurns, zeros, finished)
  {
    samples, reason := SampleUntilExit(gen, turns, last);
    zeros, finished := 0, !oneShot;
    if oneShot && hasConn {
      zeros, finished := SendZeros(zeroCount, reason != Cancelled, zeroTurns);
    }
  }
}
