/** What the serve loop guarantees over whole runs, for every interleaving of its steps with
    arrivals, signals and the passage of time. */
module ServeTheorems {
  import opened Prelude
  import opened RefusedQueue
  import opened ServeProtocol
  import opened ServeInvariants

  // ---------------------------------------------------------------------------------------------
  // Stopping

  lemma StepAfterStop(cfg: Config, s: State, l: Label, s': State)
    requires StopInv(s) && s.stopping && IsStep(cfg, s, l, s')
    ensures s'.stopping && s'.h.waits == s.h.waits && s'.h.accepted == s.h.accepted
  {
  }

  lemma StepAfterStopAt(cfg: Config, r: Run, k: nat)
    requires IsRun(cfg, r) && k < |r.labels| && r.states[k].stopping
    ensures r.states[k + 1].stopping
    ensures r.states[k + 1].h.waits == r.states[k].h.waits
    ensures r.states[k + 1].h.accepted == r.states[k].h.accepted
  {
    ReachableStopInv(cfg, r, k);
    StepOf(cfg, r, k);
    StepAfterStop(cfg, r.states[k], r.labels[k], r.states[k + 1]);
  }

  /** No lost wake-up: once a stop signal has been delivered, at whatever point, the server starts
      no further wait and accepts no further connection. */
  lemma {:induction false} NoWaitOrAcceptAfterStop(cfg: Config, r: Run, i: nat, j: nat)
    requires IsRun(cfg, r) && i <= j < |r.states| && r.states[i].stopping
    ensures r.states[j].stopping
    ensures r.states[j].h.waits == r.states[i].h.waits
    ensures r.states[j].h.accepted == r.states[i].h.accepted
  {
    if i < j {
      NoWaitOrAcceptAfterStop(cfg, r, i, j - 1);
      StepAfterStopAt(cfg, r, j - 1);
    }
  }

  /** The steps the program itself takes, as against time passing and signals arriving. */
  predicate IsProgramStep(l: Label) {
    !l.Tick? && !l.Deliver?
  }

  function Cost(l: Label): nat {
    if IsProgramStep(l) then 1 else 0
  }

  ghost function ProgramSteps(labels: seq<Label>): nat {
    if labels == [] then 0
    else ProgramSteps(labels[..|labels| - 1]) + Cost(labels[|labels| - 1])
  }

  lemma ProgramStepsGrow(labels: seq<Label>, i: nat, j: nat)
    requires i < j <= |labels|
    ensures ProgramSteps(labels[i..j]) == ProgramSteps(labels[i..j - 1]) + Cost(labels[j - 1])
  {
    assert labels[i..j][..j - 1 - i] == labels[i..j - 1];
  }

  /** A measure that pays for every program step bounds their number. */
  lemma {:induction false} StepsPaidFor(labels: seq<Label>, measure: seq<int>, i: nat, j: nat)
    requires i <= j <= |labels| < |measure|
    requires forall k :: i <= k < j ==> measure[k + 1] + Cost(labels[k]) <= measure[k]
    ensures ProgramSteps(labels[i..j]) + measure[j] <= measure[i]
  {
    if i < j {
      StepsPaidFor(labels, measure, i, j - 1);
      ProgramStepsGrow(labels, i, j);
      assert measure[(j - 1) + 1] + Cost(labels[j - 1]) <= measure[j - 1];
    }
  }

  /** How many steps the loop has left at most, once it is stopping. */
  function StepsLeft(pc: PC): nat {
    match pc
    case Serving(_) => 6
    case Closing(_) => 5
    case Leaving(_) => 4
    case Left(_) => 3
    case Failed(_) => 3
    case Unwinding(c) => if c.Some? then 3 else 2
    case Test => 2
    case Finally(_) => 1
    case _ => 0
  }

  lemma StopProgress(cfg: Config, s: State, l: Label, s': State)
    requires StopInv(s) && s.stopping && IsStep(cfg, s, l, s')
    ensures StepsLeft(s'.pc) + Cost(l) <= StepsLeft(s.pc)
  {
  }

  lemma NoStepsLeftWhenDone(s: State)
    requires StopInv(s)
    ensures s.stopping ==> StepsLeft(s.pc) <= 6 && (StepsLeft(s.pc) == 0 <==> s.pc.Done?)
  {
  }

  lemma StopCountdown(cfg: Config, r: Run, i: nat, j: nat)
    requires IsRun(cfg, r) && i <= j < |r.states| && r.states[i].stopping
    ensures ProgramSteps(r.labels[i..j]) + StepsLeft(r.states[j].pc) <= StepsLeft(r.states[i].pc)
  {
    var measure := Map((s: State) => StepsLeft(s.pc), r.states);
    forall k | i <= k < j
      ensures measure[k + 1] + Cost(r.labels[k]) <= measure[k]
    {
      NoWaitOrAcceptAfterStop(cfg, r, i, k);
      ReachableStopInv(cfg, r, k);
      StepOf(cfg, r, k);
      StopProgress(cfg, r.states[k], r.labels[k], r.states[k + 1]);
    }
    StepsPaidFor(r.labels, measure, i, j);
  }

  /** After the first stop signal the program takes at most six more steps, the handler of the
      request in flight counting as one: `serve` ends right after that request. */
  lemma StopEndsServe(cfg: Config, r: Run, i: nat, j: nat)
    requires IsRun(cfg, r) && i <= j < |r.states| && r.states[i].stopping
    ensures r.states[j].stopping
    ensures ProgramSteps(r.labels[i..j]) + StepsLeft(r.states[j].pc) <= StepsLeft(r.states[i].pc) <= 6
    ensures StepsLeft(r.states[j].pc) == 0 <==> r.states[j].pc.Done?
  {
    NoWaitOrAcceptAfterStop(cfg, r, i, j);
    StopCountdown(cfg, r, i, j);
    ReachableStopInv(cfg, r, j);
    NoStepsLeftWhenDone(r.states[j]);
  }

  /** A stopping server is never blocked for good: it has a step to take of its own, or a request is
      in flight with the grace timer armed. */
  lemma StoppingNeverBlocks(cfg: Config, r: Run, i: nat)
    requires IsRun(cfg, r) && i < |r.states| && r.states[i].stopping && !r.states[i].pc.Done?
    ensures var s := r.states[i];
            || Enabled(s, Advance)
            || (s.pc.Serving? && s.h.firstStop.Some? && s.alarm == Some(s.h.firstStop.value + STOP_GRACE))
  {
    ReachableStopInv(cfg, r, i);
  }

  /** A signal unwinds the loop on the spot exactly when no request is in flight or one has already
      asked it to stop. */
  lemma SignalRaisesUnlessServing(cfg: Config, r: Run, i: nat)
    requires IsRun(cfg, r) && i < |r.labels| && r.labels[i].Deliver?
    ensures r.states[i + 1].pc.Unwinding? <==> !InFlight(r.states[i].pc) || r.states[i].stopping
    ensures !r.states[i + 1].pc.Unwinding? ==>
              r.states[i + 1].pc == r.states[i].pc && r.states[i + 1].alarm == Some(r.states[i].now + 5_000_000)
    ensures r.states[i + 1].pc.Unwinding? ==>
              r.states[i + 1].alarm == if r.labels[i] == Deliver(Alarm) then None else r.states[i].alarm
  {
    ReachableStopInv(cfg, r, i);
    StepOf(cfg, r, i);
  }

  /** Whether a step cuts off a request in flight. */
  ghost predicate CutsRequest(r: Run, i: nat)
    requires |r.states| == |r.labels| + 1 && i < |r.labels|
  {
    InFlight(r.states[i].pc) && !InFlight(r.states[i + 1].pc) && Raised(r.states[i + 1].pc)
  }

  ghost function ExternalSignals(labels: seq<Label>): nat {
    if labels == [] then 0
    else ExternalSignals(labels[..|labels| - 1]) + if labels[|labels| - 1] == Deliver(External) then 1 else 0
  }

  /** The record of signals is as it was. */
  ghost predicate SameSignals(s: State, s': State) {
    s'.stopping == s.stopping && s'.h.externals == s.h.externals && s'.h.firstStop == s.h.firstStop
  }

  lemma LoopLeavesSignals(cfg: Config, s: State)
    requires LoopCode(s.pc)
    ensures SameSignals(s, LoopStep(cfg, s))
  {
  }

  lemma ReapLeavesSignals(s: State)
    requires ReapCode(s.pc)
    ensures SameSignals(s, ReapStep(s))
  {
  }

  lemma RefuseLeavesSignals(cfg: Config, s: State)
    requires RefuseCode(s.pc)
    ensures SameSignals(s, RefuseStep(cfg, s))
  {
  }

  lemma RequestLeavesSignals(s: State)
    ensures SameSignals(s, RequestStep(s))
  {
  }

  lemma CodeLeavesSignals(cfg: Config, s: State)
    ensures SameSignals(s, Advanced(cfg, s))
  {
    if LoopCode(s.pc) {
      LoopLeavesSignals(cfg, s);
    } else if ReapCode(s.pc) {
      ReapLeavesSignals(s);
    } else if RefuseCode(s.pc) {
      RefuseLeavesSignals(cfg, s);
    } else {
      RequestLeavesSignals(s);
    }
  }

  lemma StopBookkeeping(cfg: Config, s: State, l: Label, s': State)
    requires StopInv(s) && IsStep(cfg, s, l, s')
    ensures s'.h.externals == s.h.externals + (if l == Deliver(External) then 1 else 0)
    ensures s.stopping ==> s'.h.firstStop == s.h.firstStop
    ensures !s.stopping && s'.stopping ==> l == Deliver(External) && s'.h.firstStop == Some(s.now)
  {
    if l.Advance? {
      CodeLeavesSignals(cfg, s);
    }
  }

  lemma {:induction false} ExternalsCounted(cfg: Config, r: Run, i: nat)
    requires IsRun(cfg, r) && i < |r.states|
    ensures r.states[i].h.externals == ExternalSignals(r.labels[..i])
  {
    if i > 0 {
      ExternalsCounted(cfg, r, i - 1);
      ReachableStopInv(cfg, r, i - 1);
      StepOf(cfg, r, i - 1);
      StopBookkeeping(cfg, r.states[i - 1], r.labels[i - 1], r.states[i]);
      assert r.labels[..i][..i - 1] == r.labels[..i - 1];
    }
  }

  /** The first stop signal was delivered at an earlier step, from outside, and its time is kept. */
  lemma {:induction false} FirstStopIsExternal(cfg: Config, r: Run, i: nat) returns (k: nat)
    requires IsRun(cfg, r) && i < |r.states| && r.states[i].stopping
    ensures k < i && r.labels[k] == Deliver(External) && !r.states[k].stopping
    ensures r.states[i].h.firstStop == Some(r.states[k].now)
  {
    assert i > 0;
    ReachableStopInv(cfg, r, i - 1);
    StepOf(cfg, r, i - 1);
    StopBookkeeping(cfg, r.states[i - 1], r.labels[i - 1], r.states[i]);
    if r.states[i - 1].stopping {
      k := FirstStopIsExternal(cfg, r, i - 1);
    } else {
      k := i - 1;
    }
  }

  /** Non-truncation: a request in flight is cut off only by a second delivery to `_stop`. With a
      single signal from outside that is the grace timer, and the signal came at least five seconds
      earlier. */
  lemma NoEarlyTruncation(cfg: Config, r: Run, i: nat) returns (k: nat)
    requires IsRun(cfg, r) && i < |r.labels| && CutsRequest(r, i)
    ensures k < i && r.labels[k] == Deliver(External) && r.labels[i].Deliver?
    ensures ExternalSignals(r.labels[..i + 1]) == 1 ==>
              r.labels[i] == Deliver(Alarm) && r.states[k].now + 5_000_000 <= r.states[i].now
  {
    ReachableStopInv(cfg, r, i);
    StepOf(cfg, r, i);
    assert r.labels[i].Deliver? && r.states[i].stopping by {
      CutNeedsRepeat(cfg, r.states[i], r.labels[i]);
    }
    k := FirstStopIsExternal(cfg, r, i);
    ExternalsCounted(cfg, r, i);
    assert r.labels[..i + 1][..i] == r.labels[..i];
  }

  lemma CutNeedsRepeat(cfg: Config, s: State, l: Label)
    requires StopInv(s) && Enabled(s, l) && InFlight(s.pc)
    requires Raised(Apply(cfg, s, l).pc)
    ensures l.Deliver? && s.stopping
  {
  }

  /** The wait for a request in flight is bounded: while the server is stopping the timer is armed
      for five seconds after the first signal, and its alarm unwinds a request still running. */
  lemma GraceIsBounded(cfg: Config, r: Run, i: nat)
    requires IsRun(cfg, r) && i < |r.states| && InFlight(r.states[i].pc) && r.states[i].stopping
    ensures var s := r.states[i];
            && s.h.firstStop.Some?
            && s.alarm == Some(s.h.firstStop.value + 5_000_000)
            && (s.h.firstStop.value + 5_000_000 <= s.now ==>
                  Enabled(s, Deliver(Alarm)) && Raised(Apply(cfg, s, Deliver(Alarm)).pc))
  {
    ReachableStopInv(cfg, r, i);
  }

  /** The timer runs only for a stop in progress, and never outlives `serve`. */
  lemma TimerOnlyWhileStopping(cfg: Config, r: Run, i: nat)
    requires IsRun(cfg, r) && i < |r.states|
    ensures r.states[i].alarm.Some? ==> r.states[i].stopping
    ensures r.states[i].pc.Done? ==> r.states[i].alarm.None? && (r.states[i].stopping || r.states[i].idle)
  {
    ReachableStopInv(cfg, r, i);
  }

  // ---------------------------------------------------------------------------------------------
  // The refused queue

  /** Between operations `_refused` is exactly the last sixteen refusals, or all if fewer, among
      those whose deadline lies after the most recent reap. */
  lemma RefusedIsLastSurviving(cfg: Config, r: Run, i: nat)
    requires IsRun(cfg, r) && i < |r.states|
    requires !r.states[i].pc.Evicting? && !Raised(r.states[i].pc)
    ensures var s := r.states[i];
            && s.refused == LastN(Surviving(s.h.refusals, s.h.lastReap), 16)
            && |s.refused| <= 16 && |s.refused| <= |s.h.refusals|
            && s.refused == s.h.refusals[|s.h.refusals| - |s.refused|..]
  {
    ReachableQueueOk(cfg, r, i);
    var q := QueueOf(r.states[i]);
    assert HoldsUpTo(q, REFUSE_MAX) by { assert QueueShape(q); }
    RefusedIsSuffix(q);
    HeldIsLastSurviving(q.refused, q.refusals, q.lastReap, REFUSE_MAX);
  }

  /** The newest refusal survives its own eviction loop, so that the shutdown_request that follows
      leaves it open for the client to read the answer. */
  lemma NewestRefusalSurvives(cfg: Config, r: Run, i: nat)
    requires IsRun(cfg, r) && i < |r.states| && r.states[i].pc.ShutRefused?
    ensures var s := r.states[i];
            Holds(s.refused, s.pc.c) && Advanced(cfg, s).h.shut == s.h.shut
  {
    ReachableQueueOk(cfg, r, i);
    NewestIsHeld(r.states[i]);
  }

  /** Deadlines are in order in every reachable state, so the timeout `_serve_timeout` takes from
      the head is the least limit over all held connections and the idle timeout. */
  lemma TimeoutIsLeastLimit(cfg: Config, r: Run, i: nat, v: int)
    requires IsRun(cfg, r) && i < |r.labels| && r.states[i].pc == Choose && r.labels[i] == Advance
    ensures var s, t := r.states[i], r.states[i + 1].timeout;
            && Sorted(s.refused)
            && (t.None? ==> !IsLimit(s.refused, cfg.idleTimeout, s.now, v))
            && (t.Some? ==> IsLimit(s.refused, cfg.idleTimeout, s.now, t.value))
            && (IsLimit(s.refused, cfg.idleTimeout, s.now, v) ==> t.Some? && t.value <= v)
            && (forall k :: 0 <= k < |s.refused| ==> t.Some? && s.now + t.value <= Max(s.now, s.refused[k].deadline))
            && (cfg.idleTimeout == None || 0 <= cfg.idleTimeout.value ==> t == None || 0 <= t.value)
  {
    ReachableQueueOk(cfg, r, i);
    RefusedIsSuffix(QueueOf(r.states[i]));
    StepOf(cfg, r, i);
    ServeTimeoutIsLeastLimit(r.states[i].refused, cfg.idleTimeout, r.states[i].now);
  }

  /** The program points at which every refusal is either held or has been closed. */
  predicate QueueAtRest(pc: PC) {
    !pc.Evicting? && !pc.Reaping? && !Raised(pc)
  }

  /** Linger: refusal k has been closed exactly when a reap has read a clock at or past its
      deadline or sixteen later connections have been refused; and a close before the deadline is
      always of the latter kind. */
  lemma LingerIsExact(cfg: Config, r: Run, i: nat, k: nat)
    requires IsRun(cfg, r) && i < |r.states| && k < |r.states[i].h.refusals|
    ensures var h := r.states[i].h;
            && (QueueAtRest(r.states[i].pc) ==>
                  (k < |h.closes| <==> !Live(h.refusals[k], h.lastReap) || k + REFUSE_MAX < |h.refusals|))
            && (k < |h.closes| ==>
                  && h.closes[k].conn == h.refusals[k].conn
                  && (h.closes[k].at < h.refusals[k].deadline ==> k + REFUSE_MAX < |h.refusals|))
  {
    ReachableQueueOk(cfg, r, i);
    var q := QueueOf(r.states[i]);
    assert ClosesInOrder(q);
    if QueueAtRest(r.states[i].pc) {
      assert HoldsUpTo(q, REFUSE_MAX) by { assert QueueShape(q); }
      assert |q.closes| == |q.refusals| - |q.refused| by { assert ClosesShape(q); }
    }
  }

  lemma MoveGrowsRefusals(q: Queue, q': Queue)
    requires QueueMove(q, q')
    ensures q.refusals <= q'.refusals
  {
  }

  lemma StepMovesQueue(cfg: Config, r: Run, k: nat)
    requires IsRun(cfg, r) && k < |r.labels|
    ensures QueueMove(QueueOf(r.states[k]), QueueOf(r.states[k + 1]))
  {
    ReachableInv(cfg, r, k);
    StepOf(cfg, r, k);
    ShutdownsAgree(cfg, r.states[k]);
    StepKeeps(cfg, r.states[k], r.labels[k], r.states[k + 1]);
  }

  lemma StepGrowsRefusals(cfg: Config, r: Run, k: nat)
    requires IsRun(cfg, r) && k < |r.labels|
    ensures r.states[k].h.refusals <= r.states[k + 1].h.refusals
  {
    StepMovesQueue(cfg, r, k);
    MoveGrowsRefusals(QueueOf(r.states[k]), QueueOf(r.states[k + 1]));
  }

  lemma RefusalsOnlyGrow(cfg: Config, r: Run, i: nat, j: nat)
    requires IsRun(cfg, r) && i <= j < |r.states|
    ensures r.states[i].h.refusals <= r.states[j].h.refusals
  {
    var refusals := Map((s: State) => s.h.refusals, r.states);
    forall k | i <= k < j
      ensures refusals[k] <= refusals[k + 1]
    {
      StepGrowsRefusals(cfg, r, k);
    }
    PrefixThroughout(refusals, i, j);
  }

  /** A connection refused at one step of a run is, for the rest of it, closed no earlier than a second
      after that step, unless sixteen more have been refused by then. */
  lemma RefusedLingersOneSecond(cfg: Config, r: Run, i: nat, j: nat)
    requires IsRun(cfg, r) && i < j < |r.states| && r.states[i].pc.Refusing? && r.labels[i] == Advance
    ensures var k, h := |r.states[i].h.refusals|, r.states[j].h;
            && k < |h.refusals| && h.refusals[k] == Entry(r.states[i].pc.c, r.states[i].now + 1_000_000)
            && (k < |h.closes| ==>
                  && h.closes[k].conn == r.states[i].pc.c
                  && (r.states[i].now + 1_000_000 <= h.closes[k].at || k + 16 < |h.refusals|))
  {
    StepOf(cfg, r, i);
    var k := |r.states[i].h.refusals|;
    assert r.states[i + 1].h.refusals[k] == Entry(r.states[i].pc.c, r.states[i].now + REFUSE_LINGER);
    RefusalsOnlyGrow(cfg, r, i + 1, j);
    LingerIsExact(cfg, r, j, k);
  }

  // ---------------------------------------------------------------------------------------------
  // Connections

  ghost function ClosedConns(closes: seq<Close>): seq<Conn> {
    Map((k: Close) => k.conn, closes)
  }

  lemma {:induction false} DistinctMultiplicity(cs: seq<Conn>, c: Conn)
    requires DistinctIds(cs)
    ensures multiset(cs)[c] == if c in cs then 1 else 0
  {
    if cs != [] {
      DistinctMultiplicity(cs[1..], c);
      assert cs == [cs[0]] + cs[1..];
      forall i | 0 <= i < |cs| - 1
        ensures cs[1..][i] != cs[0]
      {
        assert cs[1..][i] == cs[i + 1];
      }
      assert multiset(cs) == multiset{cs[0]} + multiset(cs[1..]);
    }
  }

  lemma ConnsSplit(past: seq<Entry>, closes: seq<Close>, q: seq<Entry>)
    requires |closes| + |q| == |past| && q == past[|closes|..]
    requires forall k :: 0 <= k < |closes| ==> closes[k].conn == past[k].conn
    ensures Conns(past) == ClosedConns(closes) + Conns(q)
  {
    var all := ClosedConns(closes) + Conns(q);
    forall k | 0 <= k < |past|
      ensures Conns(past)[k] == all[k]
    {
      if |closes| <= k {
        assert q[k - |closes|] == past[k];
      }
    }
  }

  lemma RefusedSplit(s: State)
    requires QueueInv(s) && QueueAtRest(s.pc)
    ensures Conns(s.h.refusals) == ClosedConns(s.h.closes) + Conns(s.refused)
  {
    var q := QueueOf(s);
    RefusedIsSuffix(q);
    assert ClosesInOrder(q) && ClosesShape(q);
    ConnsSplit(s.h.refusals, s.h.closes, s.refused);
  }

  lemma AcceptedIsShutOrTurnedAway(cfg: Config, g: Ledger)
    requires LedgerOk(cfg, g) && g.stage == Filed
    ensures multiset(g.accepted) == multiset(g.shut) + multiset(g.turnedAway)
  {
    LedgerSum(cfg, g.accepted);
  }

  /** Conservation: at the loop test, and when `serve` has ended by itself, every connection ever
      accepted is exactly one of shut down after its request, held open in `_refused`, or refused
      and closed, and was closed once in the first and last case. */
  lemma ConnectionsConserved(cfg: Config, r: Run, i: nat, c: Conn)
    requires IsRun(cfg, r) && i < |r.states|
    requires r.states[i].pc == Test || r.states[i].pc == Done(false)
    ensures var s := r.states[i];
            multiset(s.h.shut)[c] + multiset(Conns(s.refused))[c] + multiset(ClosedConns(s.h.closes))[c]
            == if c in s.h.accepted then 1 else 0
  {
    ReachableQueueOk(cfg, r, i);
    ReachableLedgerOk(cfg, r, i);
    var s := r.states[i];
    AcceptedIsShutOrTurnedAway(cfg, LedgerOf(s));
    RefusedSplit(s);
    DistinctMultiplicity(s.h.accepted, c);
  }

  /** At every step a refused connection has been closed at most once. */
  lemma ClosedAtMostOnce(cfg: Config, r: Run, i: nat, j: nat, k: nat)
    requires IsRun(cfg, r) && i < |r.states|
    requires j < k < |r.states[i].h.closes|
    ensures r.states[i].h.closes[j].conn != r.states[i].h.closes[k].conn
  {
    ReachableQueueOk(cfg, r, i);
    ReachableLedgerOk(cfg, r, i);
    var h := r.states[i].h;
    assert ClosesInOrder(QueueOf(r.states[i]));
    var g := LedgerOf(r.states[i]);
    assert g.turnedAway[j] == h.refusals[j].conn && g.turnedAway[k] == h.refusals[k].conn;
    if g.turnedAway == Rejected(cfg, h.accepted) {
      RejectedDistinct(cfg, h.accepted);
    } else {
      assert DistinctIds(Earlier(h.accepted));
      RejectedDistinct(cfg, Earlier(h.accepted));
    }
  }

  lemma {:induction false} RejectedDistinct(cfg: Config, cs: seq<Conn>)
    requires DistinctIds(cs)
    ensures DistinctIds(Rejected(cfg, cs))
  {
    if cs != [] {
      var init, c := cs[..|cs| - 1], cs[|cs| - 1];
      RejectedDistinct(cfg, init);
      LedgerMembers(cfg, init);
      forall i | 0 <= i < |Rejected(cfg, init)|
        ensures Rejected(cfg, init)[i].id != c.id
      {
        assert Rejected(cfg, init)[i] in init;
      }
    }
  }

  lemma LedgerFiles(cfg: Config, r: Run, i: nat)
    requires IsRun(cfg, r) && i < |r.states|
    ensures var h := r.states[i].h;
            && (forall c :: c in h.processed ==> c in h.accepted && Allowed(cfg, c))
            && (forall c :: c in Conns(h.refusals) ==> c in h.accepted && !Allowed(cfg, c))
            && (r.states[i].pc == Test || r.states[i].pc == Done(false) ==>
                  h.processed == Permitted(cfg, h.accepted) && Conns(h.refusals) == Rejected(cfg, h.accepted))
  {
    ReachableLedgerOk(cfg, r, i);
    var g := LedgerOf(r.states[i]);
    var filed := FiledPart(cfg, g);
    LedgerMembers(cfg, filed);
    assert forall c :: c in filed ==> c in g.accepted;
  }

  /** Access control over runs: with a permitted uid, every connection that reaches the request handler
      is from exactly that uid, and every one that is refused is from another or from one that cannot be
      read; without one, nothing is ever refused. At the loop test every accepted connection has gone one
      of these two ways. */
  lemma OnlyPermittedPeersProcessed(cfg: Config, r: Run, i: nat)
    requires IsRun(cfg, r) && i < |r.states|
    ensures var h := r.states[i].h;
            && (forall c :: c in h.processed ==>
                  c in h.accepted && (cfg.allowedPeerUid.Some? ==> c.peer == cfg.allowedPeerUid))
            && (forall c :: c in Conns(h.refusals) ==>
                  c in h.accepted && cfg.allowedPeerUid.Some? && c.peer != cfg.allowedPeerUid)
            && (cfg.allowedPeerUid.None? ==> h.refusals == [] && r.states[i].refused == [])
            && (r.states[i].pc == Test || r.states[i].pc == Done(false) ==>
                  forall c :: c in h.accepted ==> c in h.processed || c in Conns(h.refusals))
  {
    LedgerFiles(cfg, r, i);
    var s := r.states[i];
    LedgerMembers(cfg, s.h.accepted);
    if s.h.refusals != [] {
      assert Conns(s.h.refusals)[0] in Conns(s.h.refusals);
    }
    ReachableQueueOk(cfg, r, i);
  }

  /** The accepted connections that have been filed: all of them, or all but the last. */
  lemma FiledPart(cfg: Config, g: Ledger) returns (filed: seq<Conn>)
    requires LedgerOk(cfg, g)
    ensures FiledAs(cfg, g, filed) && filed <= g.accepted
    ensures g.stage == Filed ==> filed == g.accepted
  {
    filed := if FiledAs(cfg, g, g.accepted) then g.accepted else Earlier(g.accepted);
  }

  // ---------------------------------------------------------------------------------------------
  // Idle exit

  /** `_idle` is never set early: the last wait started had the full idle timeout, ended only after
      it, and no connection was accepted since that wait began. Without an idle timeout it is
      never set. */
  lemma IdleNeverEarly(cfg: Config, r: Run, i: nat)
    requires IsRun(cfg, r) && i < |r.states| && r.states[i].idle
    ensures var h := r.states[i].h;
            && cfg.idleTimeout.Some? && h.waitFor == cfg.idleTimeout
            && h.idleAt.Some? && h.waitFrom + cfg.idleTimeout.value < h.idleAt.value
            && h.acceptedAtWait == |h.accepted|
            && r.states[i].refused == []
  {
    ReachableInv(cfg, r, i);
  }
}
