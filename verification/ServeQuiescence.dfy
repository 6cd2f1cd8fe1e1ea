/** With an idle timeout and nobody connecting, `serve` ends. The wake-ups that service refused
    connections cannot go on for ever: a natural-number measure falls with every program step. A
    negative timeout would lose this bound, and keep only one that counts from the last deadline. */
module ServeQuiescence {
  import opened Prelude
  import opened RefusedQueue
  import opened ServeProtocol
  import opened ServeInvariants
  import opened ServeTheorems

  /** A step of a run in which no connection arrives and no signal is sent. */
  predicate IsQuiet(l: Label) {
    l.Tick? || l == Expire || l == Advance
  }

  ghost predicate QuietBetween(r: Run, i: nat, j: nat)
    requires i <= j <= |r.labels|
  {
    forall k :: i <= k < j ==> IsQuiet(r.labels[k])
  }

  // ---------------------------------------------------------------------------------------------
  // The measure

  /** The time until the last held linger is over. */
  function Remaining(q: seq<Entry>, t: int): nat {
    if q == [] then 0 else Max(0, q[|q| - 1].deadline - t)
  }

  /** How many whole waits of the idle timeout fit into a span of time; each is over only when the
      clock is past its end. */
  function WholeWaits(span: nat, idle: nat): nat {
    if span <= idle then 0 else 1 + WholeWaits(span - idle - 1, idle)
  }

  /** Wake-ups to come when the loop is about to wait at time `t`. */
  function WakesBefore(q: seq<Entry>, idle: nat, t: int): nat {
    1 + |q| + WholeWaits(Remaining(q, t), idle)
  }

  /** Wake-ups to come after the one whose reap reads the clock at `t` or later. */
  function WakesAfter(q: seq<Entry>, idle: nat, t: int): nat {
    if q == [] then 0 else 1 + |Unexpired(q, t)| + WholeWaits(Remaining(q, t), idle)
  }

  function Wakes(idle: nat, s: State): nat {
    if s.idle then 0
    else match s.pc
      case Test => WakesBefore(s.refused, idle, s.now)
      case Choose => WakesBefore(s.refused, idle, s.now)
      case Begin => WakesBefore(s.refused, idle, s.now)
      case Select(u) => WakesAfter(s.refused, idle, if u.None? then s.now else Max(s.now, u.value + 1))
      case Expired => WakesAfter(s.refused, idle, s.now)
      case ReapStart(_) => WakesAfter(s.refused, idle, s.now)
      case Reaping(t, _, _) => WakesAfter(s.refused, idle, t)
      case _ => 0
  }

  /** Program steps left before the next wait begins, or before `serve` is done. */
  function Rank(s: State): int {
    match s.pc
    case Test => 5
    case Choose => 4
    case Begin => 3
    case Select(_) => REFUSE_MAX + 9
    case Expired => REFUSE_MAX + 8
    case ReapStart(_) => REFUSE_MAX + 7
    case Reaping(_, i, _) => |s.refused| - i + 6
    case Finally(_) => 1
    case _ => 0
  }

  const STEPS_PER_WAKE: nat := REFUSE_MAX + 10

  function Measure(idle: nat, s: State): int {
    Wakes(idle, s) * STEPS_PER_WAKE + Rank(s)
  }

  // ---------------------------------------------------------------------------------------------
  // Arithmetic of wake-ups

  lemma {:induction false} WaitsMonotone(a: nat, b: nat, idle: nat)
    requires a <= b
    ensures WholeWaits(a, idle) <= WholeWaits(b, idle)
    decreases b
  {
    if a > idle {
      WaitsMonotone(a - idle - 1, b - idle - 1, idle);
    }
  }

  lemma WaitsDrop(a: nat, b: nat, idle: nat)
    requires a + idle + 1 <= b
    ensures WholeWaits(a, idle) < WholeWaits(b, idle)
  {
    WaitsMonotone(a, b - idle - 1, idle);
  }

  lemma {:induction false} UnexpiredShrinks(q: seq<Entry>, t: int, t': int)
    requires t <= t'
    ensures |Unexpired(q, t')| <= |Unexpired(q, t)| <= |q|
  {
    if q != [] {
      UnexpiredShrinks(q[1..], t, t');
    }
  }

  lemma WakesAfterShrinks(q: seq<Entry>, idle: nat, t: int, t': int)
    requires t <= t'
    ensures WakesAfter(q, idle, t') <= WakesAfter(q, idle, t)
  {
    UnexpiredShrinks(q, t, t');
    WaitsMonotone(Remaining(q, t'), Remaining(q, t), idle);
  }

  lemma WakesBeforeShrinks(q: seq<Entry>, idle: nat, t: int, t': int)
    requires t <= t'
    ensures WakesBefore(q, idle, t') <= WakesBefore(q, idle, t)
  {
    WaitsMonotone(Remaining(q, t'), Remaining(q, t), idle);
  }

  lemma ReapUsesWake(q: seq<Entry>, idle: nat, t: int, now: int)
    requires q != [] && Sorted(q) && t <= now
    ensures WakesBefore(Unexpired(q, t), idle, now) <= WakesAfter(q, idle, t)
  {
    ExpiredIsPrefix(q, t);
    WaitsMonotone(Remaining(Unexpired(q, t), now), Remaining(q, t), idle);
  }

  /** A wait that began at `t` with the timeout of `_serve_timeout`, and is over at `t'`, leaves
      fewer wake-ups to come: it outlasts the head's linger, or else the whole idle timeout. */
  lemma WaitUsesWake(q: seq<Entry>, idle: nat, t: int, t': int)
    requires Sorted(q)
    requires q != [] ==> t + Min(idle, q[0].deadline - t) < t' && t <= t'
    ensures WakesAfter(q, idle, t') < WakesBefore(q, idle, t)
  {
    if q != [] {
      UnexpiredShrinks(q, t, t');
      if q[0].deadline <= t' {
        ExpiredIsPrefix(q, t');
        WaitsMonotone(Remaining(q, t'), Remaining(q, t), idle);
      } else {
        assert q[0].deadline <= q[|q| - 1].deadline;
        WaitsDrop(Remaining(q, t'), Remaining(q, t), idle);
      }
    }
  }

  // ---------------------------------------------------------------------------------------------
  // The measure falls

  /** What holds from a loop test on, as long as the run is quiet. */
  ghost predicate QuietShape(s: State) {
    && Sorted(s.refused) && |s.refused| <= REFUSE_MAX
    && (s.idle ==> s.pc == Test || s.pc.Finally? || s.pc.Done?)
    && match s.pc
       case Test => true
       case Choose => true
       case Begin => s.timeout.Some?
       case Select(u) => u.Some?
       case Expired => true
       case ReapStart(after) => after == ToTest && s.refused != []
       case Reaping(t, i, after) => after == ToTest && s.refused != [] && t <= s.now && i <= |s.refused|
       case Finally(raised) => !raised
       case Done(raised) => !raised
       case _ => false
  }

  /** The wait about to begin is over only when the head's linger or the idle timeout is. */
  ghost predicate WaitCovers(idle: nat, s: State) {
    s.pc == Begin && s.timeout.Some? ==>
      && 0 <= s.timeout.value
      && (s.refused != [] ==> Min(idle, s.refused[0].deadline - s.now) <= s.timeout.value)
  }

  ghost predicate QuietInv(idle: nat, s: State) {
    QuietShape(s) && WaitCovers(idle, s)
  }

  lemma UnexpiredShape(q: seq<Entry>, t: int)
    requires Sorted(q)
    ensures Sorted(Unexpired(q, t)) && |Unexpired(q, t)| <= |q|
  {
    ExpiredIsPrefix(q, t);
  }

  lemma LoopKeepsShape(cfg: Config, s: State)
    requires cfg.idleTimeout.Some? && QuietShape(s) && LoopCode(s.pc)
    ensures QuietShape(LoopStep(cfg, s))
  {
  }

  lemma ReapKeepsShape(s: State)
    requires QuietShape(s) && ReapCode(s.pc)
    ensures QuietShape(ReapStep(s))
  {
    if s.pc.Reaping? {
      UnexpiredShape(s.refused, s.pc.cutoff);
    }
  }

  lemma ShapeKept(cfg: Config, s: State, l: Label, s': State)
    requires cfg.idleTimeout.Some? && QuietShape(s) && IsQuiet(l) && IsStep(cfg, s, l, s')
    ensures QuietShape(s')
  {
    if l.Advance? {
      if LoopCode(s.pc) {
        LoopKeepsShape(cfg, s);
      } else if ReapCode(s.pc) {
        ReapKeepsShape(s);
      }
    }
  }

  lemma QuietLoopStep(cfg: Config, idle: nat, s: State)
    requires cfg.idleTimeout == Some(idle) && QuietInv(idle, s) && LoopCode(s.pc)
    ensures var s' := LoopStep(cfg, s);
            && WaitCovers(idle, s')
            && Wakes(idle, s') <= Wakes(idle, s)
            && (Wakes(idle, s') == Wakes(idle, s) ==> Rank(s') < Rank(s))
  {
    if s.pc == Begin {
      WaitUsesWake(s.refused, idle, s.now, s.now + s.timeout.value + 1);
    }
  }

  lemma QuietReapStep(idle: nat, s: State)
    requires QuietShape(s) && ReapCode(s.pc)
    ensures var s' := ReapStep(s);
            && Wakes(idle, s') <= Wakes(idle, s)
            && (Wakes(idle, s') == Wakes(idle, s) ==> Rank(s') < Rank(s))
  {
    if s.pc.Reaping? && s.pc.i == |s.refused| {
      ReapUsesWake(s.refused, idle, s.pc.cutoff, s.now);
    }
  }

  lemma WakesShrinkWithTime(idle: nat, s: State, dt: nat)
    requires QuietShape(s) && !s.pc.Select?
    ensures Wakes(idle, s.(now := s.now + dt)) <= Wakes(idle, s)
  {
    WakesBeforeShrinks(s.refused, idle, s.now, s.now + dt);
    WakesAfterShrinks(s.refused, idle, s.now, s.now + dt);
  }

  lemma WakesShrinkInWait(idle: nat, s: State, dt: nat)
    requires QuietShape(s) && s.pc.Select?
    ensures Wakes(idle, s.(now := s.now + dt)) <= Wakes(idle, s)
  {
    WakesAfterShrinks(s.refused, idle, Max(s.now, s.pc.until.value + 1), Max(s.now + dt, s.pc.until.value + 1));
  }

  lemma QuietTick(idle: nat, s: State, dt: nat)
    requires QuietInv(idle, s)
    ensures var s' := s.(now := s.now + dt);
            WaitCovers(idle, s') && Wakes(idle, s') <= Wakes(idle, s) && Rank(s') == Rank(s)
  {
    if s.pc.Select? {
      WakesShrinkInWait(idle, s, dt);
    } else {
      WakesShrinkWithTime(idle, s, dt);
    }
  }

  lemma QuietExpire(idle: nat, s: State)
    requires QuietInv(idle, s) && Enabled(s, Expire)
    ensures var s' := s.(pc := Expired);
            WaitCovers(idle, s') && Wakes(idle, s') <= Wakes(idle, s) && Rank(s') < Rank(s)
  {
  }

  lemma RankBounds(s: State)
    requires QuietShape(s)
    ensures 0 <= Rank(s) < STEPS_PER_WAKE
    ensures Rank(s) == 0 <==> s.pc.Done?
  {
  }

  lemma QuietStepFalls(cfg: Config, idle: nat, s: State, l: Label, s': State)
    requires cfg.idleTimeout == Some(idle) && QuietInv(idle, s) && IsQuiet(l) && IsStep(cfg, s, l, s')
    ensures WaitCovers(idle, s') && Wakes(idle, s') <= Wakes(idle, s)
    ensures if l.Tick? then Rank(s') == Rank(s) else Wakes(idle, s') == Wakes(idle, s) ==> Rank(s') < Rank(s)
  {
    if l.Tick? {
      QuietTick(idle, s, l.dt);
    } else if l == Expire {
      QuietExpire(idle, s);
    } else if LoopCode(s.pc) {
      QuietLoopStep(cfg, idle, s);
    } else if ReapCode(s.pc) {
      QuietReapStep(idle, s);
    }
  }

  lemma MeasureFalls(cfg: Config, idle: nat, s: State, l: Label, s': State)
    requires cfg.idleTimeout == Some(idle) && QuietInv(idle, s) && IsQuiet(l) && IsStep(cfg, s, l, s')
    ensures QuietInv(idle, s')
    ensures Measure(idle, s') + Cost(l) <= Measure(idle, s)
  {
    ShapeKept(cfg, s, l, s');
    QuietStepFalls(cfg, idle, s, l, s');
    RankBounds(s);
    RankBounds(s');
    MeasureOrder(Wakes(idle, s), Rank(s), Wakes(idle, s'), Rank(s'));
  }

  lemma MeasureOrder(w: nat, k: nat, w': nat, k': nat)
    requires w' <= w && k < STEPS_PER_WAKE && k' < STEPS_PER_WAKE
    ensures w' == w && k' == k ==> w' * STEPS_PER_WAKE + k' == w * STEPS_PER_WAKE + k
    ensures w' < w || k' < k ==> w' * STEPS_PER_WAKE + k' < w * STEPS_PER_WAKE + k
  {
  }

  // ---------------------------------------------------------------------------------------------
  // Serve ends

  lemma MeasureFallsAt(cfg: Config, idle: nat, r: Run, k: nat)
    requires IsRun(cfg, r) && cfg.idleTimeout == Some(idle) && k < |r.labels|
    requires QuietInv(idle, r.states[k]) && IsQuiet(r.labels[k])
    ensures QuietInv(idle, r.states[k + 1])
    ensures Measure(idle, r.states[k + 1]) + Cost(r.labels[k]) <= Measure(idle, r.states[k])
  {
    StepOf(cfg, r, k);
    MeasureFalls(cfg, idle, r.states[k], r.labels[k], r.states[k + 1]);
  }

  lemma {:induction false} QuietInvKept(cfg: Config, idle: nat, r: Run, i: nat, j: nat)
    requires IsRun(cfg, r) && cfg.idleTimeout == Some(idle)
    requires i <= j < |r.states| && r.states[i].pc == Test && QuietBetween(r, i, j)
    ensures QuietInv(idle, r.states[j])
  {
    if i < j {
      QuietInvKept(cfg, idle, r, i, j - 1);
      MeasureFallsAt(cfg, idle, r, j - 1);
    } else {
      QuietFromTest(cfg, r, i);
    }
  }

  /** The measure bounds the program steps of a quiet stretch of any run. */
  lemma QuietStepsBounded(cfg: Config, idle: nat, r: Run, i: nat, j: nat)
    requires IsRun(cfg, r) && cfg.idleTimeout == Some(idle)
    requires i <= j < |r.states| && r.states[i].pc == Test && QuietBetween(r, i, j)
    ensures ProgramSteps(r.labels[i..j]) + Measure(idle, r.states[j]) <= Measure(idle, r.states[i])
  {
    var measure := Map((s: State) => Measure(idle, s), r.states);
    forall k | i <= k < j
      ensures measure[k + 1] + Cost(r.labels[k]) <= measure[k]
    {
      QuietInvKept(cfg, idle, r, i, k);
      MeasureFallsAt(cfg, idle, r, k);
    }
    StepsPaidFor(r.labels, measure, i, j);
  }

  lemma QuietFromTest(cfg: Config, r: Run, i: nat)
    requires IsRun(cfg, r) && i < |r.states| && r.states[i].pc == Test
    ensures QuietShape(r.states[i])
  {
    ReachableInv(cfg, r, i);
    RefusedIsSuffix(QueueOf(r.states[i]));
  }

  /** The measure at a loop test, in terms of the constants: at most one wake-up for each held
      connection, one for each whole idle timeout that fits into the linger, and the last. */
  function QuietBound(idle: nat): nat {
    (1 + REFUSE_MAX + WholeWaits(REFUSE_LINGER, idle)) * STEPS_PER_WAKE + 5
  }

  /** A quiet server has returned, has a step to take, or waits for a known time to come. */
  ghost predicate NotBlocked(s: State) {
    || s.pc == Done(false)
    || Enabled(s, Advance)
    || (s.pc.Select? && s.pc.until.Some? && Enabled(s.(now := Max(s.now, s.pc.until.value + 1)), Expire))
  }

  lemma QuietNotBlocked(s: State)
    requires QuietShape(s)
    ensures NotBlocked(s)
  {
  }

  /** A measure made of wake-ups and rank is used up only when `serve` has returned. */
  lemma UsedUp(w: nat, s: State)
    requires QuietShape(s)
    ensures 0 <= w * STEPS_PER_WAKE + Rank(s)
    ensures w * STEPS_PER_WAKE + Rank(s) == 0 ==> s.pc == Done(false)
  {
    RankBounds(s);
  }

  /** With an idle timeout that is not negative, no connections and no signals, `serve` takes a
      bounded number of steps, is never blocked without a deadline to wake it, and when its steps
      are used up has returned. */
  lemma QuiescentServeEnds(cfg: Config, idle: nat, r: Run, i: nat, j: nat)
    requires IsRun(cfg, r) && cfg.idleTimeout == Some(idle)
    requires i <= j < |r.states| && r.states[i].pc == Test && QuietBetween(r, i, j)
    ensures ProgramSteps(r.labels[i..j]) <= Measure(idle, r.states[i]) <= QuietBound(idle)
    ensures ProgramSteps(r.labels[i..j]) == Measure(idle, r.states[i]) ==> r.states[j].pc == Done(false)
    ensures NotBlocked(r.states[j])
  {
    QuietInvKept(cfg, idle, r, i, j);
    QuietStepsBounded(cfg, idle, r, i, j);
    QuietNotBlocked(r.states[j]);
    UsedUp(Wakes(idle, r.states[j]), r.states[j]);
    MeasureAtTest(cfg, idle, r, i);
  }

  lemma MeasureAtTest(cfg: Config, idle: nat, r: Run, i: nat)
    requires IsRun(cfg, r) && i < |r.states| && r.states[i].pc == Test
    ensures Measure(idle, r.states[i]) <= QuietBound(idle)
  {
    ReachableQueueOk(cfg, r, i);
    var s := r.states[i];
    RefusedIsSuffix(QueueOf(s));
    assert Remaining(s.refused, s.now) <= REFUSE_LINGER by {
      assert Clocked(QueueOf(s));
    }
    WaitsMonotone(Remaining(s.refused, s.now), REFUSE_LINGER, idle);
    MeasureScale(Wakes(idle, s), 1 + REFUSE_MAX + WholeWaits(REFUSE_LINGER, idle));
  }

  lemma MeasureScale(w: nat, w': nat)
    requires w <= w'
    ensures w * STEPS_PER_WAKE <= w' * STEPS_PER_WAKE
  {
  }

  // ---------------------------------------------------------------------------------------------
  // The check of --idle-timeout in main

  datatype Duration = Infinite | Finite(ticks: int)

  /** What `main` makes of the option: the value for `srv.idle_timeout`, or a usage error. */
  function IdleTimeoutOption(arg: Option<Duration>): Result<Option<int>, string> {
    match arg
    case None => Ok(None)
    case Some(Infinite) => Ok(None)
    case Some(Finite(v)) => if v <= 0 then Err("--idle-timeout must be a positive duration") else Ok(Some(v))
  }

  /** The option reaches the server as it was given; no option and infinity are no timeout; exactly the
      durations that are not positive are usage errors. */
  lemma IdleTimeoutPassedOn(arg: Option<Duration>)
    ensures var r := IdleTimeoutOption(arg);
            && (forall v: int :: r == Ok(Some(v)) <==> arg == Some(Finite(v)) && 0 < v)
            && (r == Ok(None) <==> arg == None || arg == Some(Infinite))
            && (r.Err? <==> arg.Some? && arg.value.Finite? && arg.value.ticks <= 0)
  {
  }

  /** Every idle timeout that `main` lets through makes a quiescent `serve` end. */
  lemma AcceptedTimeoutEnds(arg: Option<Duration>, cfg: Config, r: Run, i: nat, j: nat)
    requires IdleTimeoutOption(arg) == Ok(cfg.idleTimeout) && cfg.idleTimeout.Some?
    requires IsRun(cfg, r) && i <= j < |r.states| && r.states[i].pc == Test && QuietBetween(r, i, j)
    ensures 0 < cfg.idleTimeout.value
    ensures var idle := cfg.idleTimeout.value;
            && ProgramSteps(r.labels[i..j]) <= Measure(idle, r.states[i]) <= QuietBound(idle)
            && (ProgramSteps(r.labels[i..j]) == Measure(idle, r.states[i]) ==> r.states[j].pc == Done(false))
    ensures NotBlocked(r.states[j])
  {
    QuiescentServeEnds(cfg, cfg.idleTimeout.value, r, i, j);
  }

  // ---------------------------------------------------------------------------------------------
  // An idle timeout of either sign

  /** The linger of every held connection is over. */
  ghost predicate LingersOver(s: State) {
    forall k :: 0 <= k < |s.refused| ==> s.refused[k].deadline <= s.now
  }

  lemma {:induction false} NoneUnexpired(q: seq<Entry>, t: int)
    requires forall k :: 0 <= k < |q| ==> q[k].deadline <= t
    ensures Unexpired(q, t) == []
  {
    if q != [] {
      NoneUnexpired(q[1..], t);
    }
  }

  lemma {:induction false} UnexpiredStillOver(q: seq<Entry>, t: int, now: int)
    requires forall k :: 0 <= k < |q| ==> q[k].deadline <= now
    ensures forall k :: 0 <= k < |Unexpired(q, t)| ==> Unexpired(q, t)[k].deadline <= now
  {
    if q != [] {
      UnexpiredStillOver(q[1..], t, now);
    }
  }

  /** Wake-ups to come when every linger is over: one to reap what is held, and one to go idle. */
  function LateWakes(s: State): nat {
    if s.idle then 0
    else match s.pc
      case Test => if s.refused == [] then 1 else 2
      case Choose => if s.refused == [] then 1 else 2
      case Begin => if s.refused == [] then 1 else 2
      case Select(_) => if s.refused == [] then 0 else 1
      case Expired => if s.refused == [] then 0 else 1
      case ReapStart(_) => 1
      case Reaping(t, _, _) => if Unexpired(s.refused, t) == [] then 1 else 2
      case _ => 0
  }

  function LateMeasure(s: State): int {
    LateWakes(s) * STEPS_PER_WAKE + Rank(s)
  }

  lemma LateLoopStep(cfg: Config, s: State)
    requires QuietShape(s) && LoopCode(s.pc) && LingersOver(s)
    ensures var s' := LoopStep(cfg, s);
            && LingersOver(s')
            && LateWakes(s') <= LateWakes(s)
            && (LateWakes(s') == LateWakes(s) ==> Rank(s') < Rank(s))
  {
  }

  lemma LateReapStart(s: State)
    requires QuietShape(s) && s.pc.ReapStart? && LingersOver(s)
    ensures var s' := ReapStep(s);
            LingersOver(s') && LateWakes(s') <= LateWakes(s) && Rank(s') < Rank(s)
  {
    NoneUnexpired(s.refused, s.now);
  }

  lemma LateClosing(s: State)
    requires QuietShape(s) && s.pc.Reaping? && s.pc.i < |s.refused|
    ensures var s' := ReapStep(s);
            s'.refused == s.refused && s'.now == s.now && LateWakes(s') == LateWakes(s) && Rank(s') < Rank(s)
  {
  }

  lemma LateReapEnd(s: State)
    requires QuietShape(s) && s.pc.Reaping? && s.pc.i == |s.refused|
    ensures var s' := ReapStep(s);
            && s'.refused == Unexpired(s.refused, s.pc.cutoff) && s'.now == s.now
            && LateWakes(s') == LateWakes(s) && Rank(s') < Rank(s)
  {
  }

  lemma LateReapStep(s: State, s': State)
    requires QuietShape(s) && ReapCode(s.pc) && LingersOver(s) && s' == ReapStep(s)
    ensures LingersOver(s') && LateWakes(s') <= LateWakes(s) && Rank(s') < Rank(s)
  {
    if s.pc.ReapStart? {
      LateReapStart(s);
    } else if s.pc.i < |s.refused| {
      LateClosing(s);
    } else {
      LateReapEnd(s);
      UnexpiredStillOver(s.refused, s.pc.cutoff, s.now);
    }
  }

  lemma LateMeasureFalls(cfg: Config, s: State, l: Label, s': State)
    requires cfg.idleTimeout.Some? && QuietShape(s) && LingersOver(s) && IsQuiet(l) && IsStep(cfg, s, l, s')
    ensures QuietShape(s') && LingersOver(s')
    ensures LateMeasure(s') + Cost(l) <= LateMeasure(s)
  {
    ShapeKept(cfg, s, l, s');
    if l.Advance? {
      if LoopCode(s.pc) {
        LateLoopStep(cfg, s);
      } else if ReapCode(s.pc) {
        LateReapStep(s, s');
      }
    }
    RankBounds(s);
    RankBounds(s');
    MeasureOrder(LateWakes(s), Rank(s), LateWakes(s'), Rank(s'));
  }

  lemma {:induction false} ShapeOfQuiet(cfg: Config, r: Run, i: nat, m: nat)
    requires IsRun(cfg, r) && cfg.idleTimeout.Some?
    requires i <= m < |r.states| && r.states[i].pc == Test && QuietBetween(r, i, m)
    ensures QuietShape(r.states[m])
  {
    if i < m {
      ShapeOfQuiet(cfg, r, i, m - 1);
      StepOf(cfg, r, m - 1);
      ShapeKept(cfg, r.states[m - 1], r.labels[m - 1], r.states[m]);
    } else {
      QuietFromTest(cfg, r, i);
    }
  }

  lemma LateMeasureFallsAt(cfg: Config, r: Run, k: nat)
    requires IsRun(cfg, r) && cfg.idleTimeout.Some? && k < |r.labels|
    requires QuietShape(r.states[k]) && LingersOver(r.states[k]) && IsQuiet(r.labels[k])
    ensures QuietShape(r.states[k + 1]) && LingersOver(r.states[k + 1])
    ensures LateMeasure(r.states[k + 1]) + Cost(r.labels[k]) <= LateMeasure(r.states[k])
  {
    StepOf(cfg, r, k);
    LateMeasureFalls(cfg, r.states[k], r.labels[k], r.states[k + 1]);
  }

  lemma {:induction false} LingersStayOver(cfg: Config, r: Run, m: nat, j: nat)
    requires IsRun(cfg, r) && cfg.idleTimeout.Some? && m <= j < |r.states| && QuietBetween(r, m, j)
    requires QuietShape(r.states[m]) && LingersOver(r.states[m])
    ensures QuietShape(r.states[j]) && LingersOver(r.states[j])
  {
    if m < j {
      LingersStayOver(cfg, r, m, j - 1);
      LateMeasureFallsAt(cfg, r, j - 1);
    }
  }

  lemma LateStepsBounded(cfg: Config, r: Run, m: nat, j: nat)
    requires IsRun(cfg, r) && cfg.idleTimeout.Some? && m <= j < |r.states| && QuietBetween(r, m, j)
    requires QuietShape(r.states[m]) && LingersOver(r.states[m])
    ensures ProgramSteps(r.labels[m..j]) + LateMeasure(r.states[j]) <= LateMeasure(r.states[m])
  {
    var measure := Map(LateMeasure, r.states);
    forall k | m <= k < j
      ensures measure[k + 1] + Cost(r.labels[k]) <= measure[k]
    {
      LingersStayOver(cfg, r, m, k);
      LateMeasureFallsAt(cfg, r, k);
    }
    StepsPaidFor(r.labels, measure, m, j);
  }

  const LATE_STEPS: nat := 3 * STEPS_PER_WAKE

  /** Whatever the sign of the idle timeout, once the clock has passed the last held deadline a quiet
      `serve` takes at most a fixed number of steps more, is never blocked without a deadline to wake
      it, and when its steps are used up has returned. */
  lemma QuietServeEndsAfterLingers(cfg: Config, r: Run, i: nat, m: nat, j: nat)
    requires IsRun(cfg, r) && cfg.idleTimeout.Some?
    requires i <= m <= j < |r.states| && r.states[i].pc == Test && QuietBetween(r, i, j)
    requires LingersOver(r.states[m])
    ensures ProgramSteps(r.labels[m..j]) <= LateMeasure(r.states[m]) <= LATE_STEPS
    ensures ProgramSteps(r.labels[m..j]) == LateMeasure(r.states[m]) ==> r.states[j].pc == Done(false)
    ensures NotBlocked(r.states[j])
  {
    ShapeOfQuiet(cfg, r, i, m);
    RankBounds(r.states[m]);
    LateStepsBounded(cfg, r, m, j);
    ShapeOfQuiet(cfg, r, i, j);
    QuietNotBlocked(r.states[j]);
    UsedUp(LateWakes(r.states[j]), r.states[j]);
  }

  /** The run that continues `r` by the steps with the given labels, if they can all be taken. */
  ghost function Follow(cfg: Config, s: State, labels: seq<Label>): Option<State>
    decreases |labels|
  {
    if labels == [] then Some(s)
    else if !Enabled(s, labels[0]) then None
    else Follow(cfg, Apply(cfg, s, labels[0]), labels[1..])
  }

  lemma {:induction false} FollowIsRun(cfg: Config, r: Run, labels: seq<Label>) returns (r': Run)
    requires IsRun(cfg, r) && Follow(cfg, Last(r), labels).Some?
    ensures IsRun(cfg, r') && r'.labels == r.labels + labels && r.states <= r'.states
    ensures Last(r') == Follow(cfg, Last(r), labels).value
    decreases |labels|
  {
    if labels == [] {
      r' := r;
    } else {
      var r1 := Extend(cfg, r, labels[0]);
      ExtendIsRun(cfg, r, labels[0]);
      r' := FollowIsRun(cfg, r1, labels[1..]);
      Assoc(r.labels, [labels[0]], labels[1..]);
      assert [labels[0]] + labels[1..] == labels;
      PrefixOfPrefix(r.states, r1.states, r'.states);
    }
  }

  lemma {:induction false} FollowAppend(cfg: Config, s: State, a: seq<Label>, b: seq<Label>)
    requires Follow(cfg, s, a).Some?
    ensures Follow(cfg, s, a + b) == Follow(cfg, Follow(cfg, s, a).value, b)
    decreases |a|
  {
    if a == [] {
      assert a + b == b;
    } else {
      assert (a + b)[1..] == a[1..] + b;
      FollowAppend(cfg, Apply(cfg, s, a[0]), a[1..], b);
    }
  }

  lemma FollowOne(cfg: Config, s: State, a: seq<Label>, l: Label)
    requires Follow(cfg, s, a).Some? && Enabled(Follow(cfg, s, a).value, l)
    ensures Follow(cfg, s, a + [l]) == Some(Apply(cfg, Follow(cfg, s, a).value, l))
  {
    FollowAppend(cfg, s, a, [l]);
    assert [l][1..] == [];
  }

  /** The loop test with one refused connection whose linger is not over. */
  ghost predicate AtSpin(s: State) {
    && s.pc == Test && !s.stopping && !s.idle
    && |s.refused| == 1 && s.now < s.refused[0].deadline
  }

  const SPIN := [Advance, Advance, Advance] + [Expire] + ([Advance, Advance] + [Advance, Advance])

  lemma FollowTwo(cfg: Config, s: State, l: Label, k: Label)
    requires Enabled(s, l) && Enabled(Apply(cfg, s, l), k)
    ensures Follow(cfg, s, [l, k]) == Some(Apply(cfg, Apply(cfg, s, l), k))
  {
    FollowOne(cfg, s, [], l);
    FollowOne(cfg, s, [l], k);
    assert [] + [l] == [l] && [l] + [k] == [l, k];
  }

  lemma SpinTimeout(cfg: Config, s: State)
    requires cfg.idleTimeout.Some? && cfg.idleTimeout.value < 0 && AtSpin(s)
    ensures LoopStep(cfg, LoopStep(cfg, s)) == s.(pc := Begin, timeout := cfg.idleTimeout)
  {
  }

  lemma SpinWait(cfg: Config, s: State)
    requires cfg.idleTimeout.Some? && cfg.idleTimeout.value < 0 && AtSpin(s)
    ensures var s' := Follow(cfg, s, [Advance, Advance, Advance]);
            && s'.Some? && s'.value.pc == Select(Some(s.now + cfg.idleTimeout.value))
            && s'.value.(pc := Test, timeout := s.timeout, h := s.h) == s
  {
    FollowTwo(cfg, s, Advance, Advance);
    SpinTimeout(cfg, s);
    FollowOne(cfg, s, [Advance, Advance], Advance);
    assert [Advance, Advance] + [Advance] == [Advance, Advance, Advance];
  }

  lemma SpinExpire(cfg: Config, s: State)
    requires s.pc == Expired && AtSpin(s.(pc := Test))
    ensures Follow(cfg, s, [Advance, Advance]) == Some(s.(pc := Reaping(s.now, 0, ToTest)))
  {
    assert LoopStep(cfg, s) == s.(pc := ReapStart(ToTest));
    FollowTwo(cfg, s, Advance, Advance);
  }

  lemma SpinReap(cfg: Config, s: State)
    requires s.pc == Expired && AtSpin(s.(pc := Test))
    ensures var s' := Follow(cfg, s, [Advance, Advance] + [Advance, Advance]);
            s'.Some? && s'.value == s.(pc := Test, h := s.h.(lastReap := Some(s.now)))
  {
    SpinExpire(cfg, s);
    SpinKeeps(cfg, s.(pc := Reaping(s.now, 0, ToTest)));
    FollowAppend(cfg, s, [Advance, Advance], [Advance, Advance]);
  }

  lemma SpinKeeps(cfg: Config, s: State)
    requires s.pc == Reaping(s.now, 0, ToTest) && AtSpin(s.(pc := Test))
    ensures var s' := Follow(cfg, s, [Advance, Advance]);
            s'.Some? && s'.value == s.(pc := Test, h := s.h.(lastReap := Some(s.now)))
  {
    SpinReaping(s);
    FollowTwo(cfg, s, Advance, Advance);
  }

  lemma SpinReaping(s: State)
    requires s.pc == Reaping(s.now, 0, ToTest) && AtSpin(s.(pc := Test))
    ensures ReapStep(s) == s.(pc := Reaping(s.now, 1, ToTest))
    ensures ReapStep(ReapStep(s)) == s.(pc := Test, h := s.h.(lastReap := Some(s.now)))
  {
    assert Unexpired(s.refused, s.now) == s.refused;
  }

  /** With a negative idle timeout a wake-up can leave everything as it was, the clock included. */
  lemma SpinsOnce(cfg: Config, s: State)
    requires cfg.idleTimeout.Some? && cfg.idleTimeout.value < 0 && AtSpin(s)
    ensures var s' := Follow(cfg, s, SPIN);
            s'.Some? && AtSpin(s'.value) && s'.value.now == s.now && s'.value.refused == s.refused
  {
    var wait := [Advance, Advance, Advance];
    SpinWait(cfg, s);
    var s1 := Follow(cfg, s, wait).value;
    FollowOne(cfg, s, wait, Expire);
    SpinReap(cfg, Apply(cfg, s1, Expire));
    FollowAppend(cfg, s, wait + [Expire], [Advance, Advance] + [Advance, Advance]);
  }

  /** One connection whose peer uid cannot be read: the loop accepts it and refuses it. */
  ghost const STRANGER := Conn(0, None)
  ghost const REFUSAL := [Advance, Advance, Advance, Ready, Advance, Advance, Accepts(STRANGER),
                          Advance, Advance, Advance, Advance]

  ghost function RefusalPoint(cfg: Config, k: nat): PC {
    match k
    case 0 => Test
    case 1 => Choose
    case 2 => Begin
    case 3 => Select(cfg.idleTimeout)
    case 4 => ReapStart(ToAccept)
    case 5 => Reaping(0, 0, ToAccept)
    case 6 => Accept
    case 7 => Verify(STRANGER)
    case 8 => Refusing(STRANGER)
    case 9 => Evicting(STRANGER)
    case 10 => ShutRefused(STRANGER)
    case _ => Test
  }

  ghost predicate RefusalStage(cfg: Config, k: nat, s: State) {
    && s.now == 0 && !s.stopping && !s.idle
    && s.pc == RefusalPoint(cfg, k)
    && (k == 2 ==> s.timeout == cfg.idleTimeout)
    && s.h.accepted == (if k <= 6 then [] else [STRANGER])
    && s.refused == (if k <= 8 then [] else [Entry(STRANGER, REFUSE_LINGER)])
  }

  lemma RefusalStep(cfg: Config, k: nat, s: State)
    requires cfg.allowedPeerUid.Some? && k < |REFUSAL| && RefusalStage(cfg, k, s)
    ensures Enabled(s, REFUSAL[k]) && RefusalStage(cfg, k + 1, Apply(cfg, s, REFUSAL[k]))
  {
  }

  /** The loop can be brought to such a point by that connection. */
  lemma ReachSpin(cfg: Config) returns (r: Run)
    requires cfg.allowedPeerUid.Some?
    ensures IsRun(cfg, r) && AtSpin(Last(r))
  {
    r := Run([Initial(0)], []);
    var k := 0;
    while k < |REFUSAL|
      invariant 0 <= k <= |REFUSAL| && IsRun(cfg, r) && RefusalStage(cfg, k, Last(r))
    {
      RefusalStep(cfg, k, Last(r));
      ExtendIsRun(cfg, r, REFUSAL[k]);
      r := Extend(cfg, r, REFUSAL[k]);
      k := k + 1;
    }
  }

  /** With a negative idle timeout and the access check on, there is no bound on wake-ups that does not
      depend on how fast the program runs: while one refused connection lingers, the loop can wake up
      any number of times before the clock moves. */
  lemma {:induction false} NegativeTimeoutSpins(cfg: Config, n: nat) returns (r: Run, i: nat)
    requires cfg.idleTimeout.Some? && cfg.idleTimeout.value < 0 && cfg.allowedPeerUid.Some?
    ensures IsRun(cfg, r) && i < |r.states| && r.states[i].pc == Test
    ensures QuietBetween(r, i, |r.labels|) && n <= |r.labels| - i
    ensures forall k :: i <= k < |r.labels| ==> IsProgramStep(r.labels[k])
    ensures AtSpin(Last(r)) && Last(r).now == r.states[i].now
  {
    if n == 0 {
      r := ReachSpin(cfg);
      i := |r.labels|;
    } else {
      var r0;
      r0, i := NegativeTimeoutSpins(cfg, n - 1);
      SpinsOnce(cfg, Last(r0));
      r := FollowIsRun(cfg, r0, SPIN);
    }
  }

  /** No quiet stretch from a loop test takes more than `bound` program steps. */
  ghost predicate QuietStretchesBounded(cfg: Config, bound: nat) {
    forall r: Run, i: nat, j: nat ::
      IsRun(cfg, r) && i <= j < |r.states| && r.states[i].pc == Test && QuietBetween(r, i, j)
      ==> ProgramSteps(r.labels[i..j]) <= bound
  }

  lemma {:induction false} AllProgramSteps(labels: seq<Label>)
    requires forall k :: 0 <= k < |labels| ==> IsProgramStep(labels[k])
    ensures ProgramSteps(labels) == |labels|
  {
    if labels != [] {
      AllProgramSteps(labels[..|labels| - 1]);
    }
  }

  lemma NegativeTimeoutUnbounded(cfg: Config, bound: nat)
    requires cfg.idleTimeout.Some? && cfg.idleTimeout.value < 0 && cfg.allowedPeerUid.Some?
    ensures !QuietStretchesBounded(cfg, bound)
  {
    var r, i := NegativeTimeoutSpins(cfg, bound + 1);
    var j := |r.labels|;
    AllProgramSteps(r.labels[i..j]);
    ExceedsBound(cfg, r, i, j, bound);
  }

  lemma ExceedsBound(cfg: Config, r: Run, i: nat, j: nat, bound: nat)
    requires IsRun(cfg, r) && i <= j < |r.states| && r.states[i].pc == Test && QuietBetween(r, i, j)
    requires bound < ProgramSteps(r.labels[i..j])
    ensures !QuietStretchesBounded(cfg, bound)
  {
  }

  /** What the sign check in `main` is for: with the access check on, there is a bound on the steps of
      quiescent stretches, however fast they are taken, if and only if the idle timeout is not
      negative. */
  lemma BoundedAtAnySpeedExactlyWhenNotNegative(cfg: Config)
    requires cfg.idleTimeout.Some? && cfg.allowedPeerUid.Some?
    ensures (exists bound: nat :: QuietStretchesBounded(cfg, bound)) <==> 0 <= cfg.idleTimeout.value
  {
    if 0 <= cfg.idleTimeout.value {
      var idle: nat := cfg.idleTimeout.value;
      forall r: Run, i: nat, j: nat
        | IsRun(cfg, r) && i <= j < |r.states| && r.states[i].pc == Test && QuietBetween(r, i, j)
        ensures ProgramSteps(r.labels[i..j]) <= QuietBound(idle)
      {
        QuiescentServeEnds(cfg, idle, r, i, j);
      }
      assert QuietStretchesBounded(cfg, QuietBound(idle));
    } else {
      forall bound: nat
        ensures !QuietStretchesBounded(cfg, bound)
      {
        NegativeTimeoutUnbounded(cfg, bound);
      }
    }
  }
}
