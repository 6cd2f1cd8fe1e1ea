/** `_Server` as an object: its fields, updated in place by its methods as the loop runs. Between
    any two statements time may pass and signals may be delivered (`Preempt`). Every method is
    proved to move the object along a run of the step relation, so that what is proved of runs
    holds of the object at each of these points. */
module Server {
  import opened Prelude
  import opened RefusedQueue
  import opened ServeProtocol
  import opened ServeInvariants
  import opened ServeTheorems

  ghost predicate Reachable(cfg: Config, s: State) {
    exists r :: IsRun(cfg, r) && Last(r) == s
  }

  lemma ReachInitial(cfg: Config, now: int)
    ensures Reachable(cfg, Initial(now))
  {
    var r := Run([Initial(now)], []);
    assert IsRun(cfg, r) && Last(r) == Initial(now);
  }

  lemma ReachStep(cfg: Config, s: State, l: Label, s': State)
    requires Reachable(cfg, s) && IsStep(cfg, s, l, s')
    ensures Reachable(cfg, s')
  {
    var r :| IsRun(cfg, r) && Last(r) == s;
    ExtendIsRun(cfg, r, l);
  }

  lemma ReachLoop(cfg: Config, s: State, s': State)
    requires Reachable(cfg, s) && LoopCode(s.pc) && s' == LoopStep(cfg, s)
    ensures Reachable(cfg, s')
  {
    ReachStep(cfg, s, Advance, s');
  }

  lemma ReachReap(cfg: Config, s: State, s': State)
    requires Reachable(cfg, s) && ReapCode(s.pc) && s' == ReapStep(s)
    ensures Reachable(cfg, s')
  {
    ReachStep(cfg, s, Advance, s');
  }

  lemma ReachRefuse(cfg: Config, s: State, s': State)
    requires Reachable(cfg, s) && RefuseCode(s.pc) && s' == RefuseStep(cfg, s)
    ensures Reachable(cfg, s')
  {
    ReachStep(cfg, s, Advance, s');
  }

  predicate RequestCode(pc: PC) {
    pc.Admit? || pc.Closing? || pc.Leaving? || pc.Left? || pc.Failed? || pc.Unwinding? || pc.Finally?
  }

  lemma ReachRequest(cfg: Config, s: State, s': State)
    requires Reachable(cfg, s) && RequestCode(s.pc) && s' == RequestStep(s)
    ensures Reachable(cfg, s')
  {
    ReachStep(cfg, s, Advance, s');
  }

  lemma ReachInv(cfg: Config, s: State)
    requires Reachable(cfg, s)
    ensures Inv(cfg, s)
  {
    var r :| IsRun(cfg, r) && Last(r) == s;
    ReachableInv(cfg, r, |r.states| - 1);
  }

  lemma ReachStopInv(cfg: Config, s: State)
    requires Reachable(cfg, s)
    ensures StopInv(s)
  {
    ReachInv(cfg, s);
  }

  lemma ReachNewestHeld(cfg: Config, s: State)
    requires Reachable(cfg, s) && s.pc.ShutRefused?
    ensures Holds(s.refused, s.pc.c)
  {
    ReachInv(cfg, s);
    NewestIsHeld(s);
  }

  lemma ReachNotHeld(cfg: Config, s: State)
    requires Reachable(cfg, s) && StageAt(s.pc).InHand?
    ensures !Holds(s.refused, s.pc.c)
  {
    ReachInv(cfg, s);
    ProcessedNotHeld(cfg, s);
  }

  /** How `serve` came to an end, or that it had not when the given number of turns was over. */
  datatype Outcome = StillServing | Returned | Interrupted

  class Server {
    const cfg: Config

    // the fields of _Server
    var refused: seq<Entry>
    var idle: bool
    var stopping: bool
    var inRequest: bool
    var timeout: Option<int>

    // the kernel: the monotonic clock, the interval timer, and the next unused socket
    var now: int
    var alarm: Option<int>
    var nextId: nat

    // the program counter and the history, for the proof only
    ghost var pc: PC
    ghost var h: History

    ghost function At(): State
      reads this
    {
      State(pc, now, refused, idle, stopping, inRequest, timeout, alarm, h)
    }

    ghost predicate Valid()
      reads this
    {
      Reachable(cfg, At()) && forall i :: 0 <= i < |h.accepted| ==> h.accepted[i].id < nextId
    }

    constructor (cfg: Config, now: int)
      ensures Valid() && At() == Initial(now) && this.cfg == cfg
    {
      this.cfg := cfg;
      refused, idle, stopping, inRequest, timeout := [], false, false, false, None;
      this.now, alarm, nextId := now, None, 0;
      pc, h := Test, NO_HISTORY;
      new;
      ReachInitial(cfg, now);
    }

    // -------------------------------------------------------------------------------------------
    // Signals and time

    /** `_stop`, entered for an enabled delivery. */
    method Stop(sig: Signal) returns (raised: bool)
      requires Valid() && Enabled(At(), Deliver(sig))
      modifies this
      ensures Valid() && At() == ServeProtocol.Stop(old(At()), sig)
      ensures now == old(now) && nextId == old(nextId)
      ensures raised <==> old(stopping) || !old(inRequest)
      ensures raised <==> pc.Unwinding?
    {
      ghost var s := At();
      ReachStopInv(cfg, s);
      if sig == Alarm {
        alarm := None;
      }
      h := h.(firstStop := if h.firstStop.None? then Some(now) else h.firstStop,
      externals := if sig == External then h.externals + 1 else h.externals);
      var repeat := stopping;
      stopping := true;
      if repeat || !inRequest {
        raised, inRequest, pc := true, false, Unwound(pc);
      } else {
        raised, alarm := false, Some(now + STOP_GRACE);
      }
      ReachStep(cfg, s, Deliver(sig), At());
    }

    /** One event: the clock moves, or a signal is delivered. */
    method Event() returns (raised: bool)
      requires Valid() && Interruptible(pc)
      modifies this
      ensures Valid()
      ensures refused == old(refused) && idle == old(idle) && timeout == old(timeout) && old(now) <= now
      ensures nextId == old(nextId)
      ensures h == old(h).(firstStop := h.firstStop, externals := h.externals)
      ensures raised ==> pc == Unwound(old(pc)) && stopping && !inRequest
      ensures !raised ==> pc == old(pc) && inRequest == old(inRequest)
      ensures !raised && !inRequest ==> stopping == old(stopping) && h == old(h)
    {
      raised := false;
      ghost var s := At();
      if {
        case true =>
          var dt :| 0 <= dt;
          now := now + dt;
          ReachStep(cfg, s, Tick(dt), At());
        case true =>
          raised := Stop(External);
        case alarm.Some? && alarm.value <= now =>
          raised := Stop(Alarm);
      }
    }

    /** What may happen before the next statement runs: any number of events. */
    method Preempt() returns (raised: bool)
      requires Valid() && Interruptible(pc)
      modifies this
      ensures Valid()
      ensures refused == old(refused) && idle == old(idle) && timeout == old(timeout) && old(now) <= now
      ensures nextId == old(nextId)
      ensures h == old(h).(firstStop := h.firstStop, externals := h.externals)
      ensures raised ==> pc == Unwound(old(pc)) && stopping && !inRequest
      ensures !raised ==> pc == old(pc) && inRequest == old(inRequest)
      ensures !raised && !inRequest ==> stopping == old(stopping) && h == old(h)
    {
      raised := false;
      var events: nat := *;
      while events > 0 && !raised
        invariant Valid()
        invariant refused == old(refused) && idle == old(idle) && timeout == old(timeout) && old(now) <= now
        invariant nextId == old(nextId)
        invariant h == old(h).(firstStop := h.firstStop, externals := h.externals)
        invariant raised ==> pc == Unwound(old(pc)) && stopping && !inRequest
        invariant !raised ==> pc == old(pc) && inRequest == old(inRequest)
        invariant !raised && !inRequest ==> stopping == old(stopping) && h == old(h)
      {
        raised := Event();
        events := events - 1;
      }
    }

    // -------------------------------------------------------------------------------------------
    // Refused connections

    /** `_close`, when the i-th held connection is due at the reading the reap works with. */
    method CloseIfDue(cutoff: int, i: nat, after: After)
      requires Valid() && pc == Reaping(cutoff, i, after) && i < |refused|
      modifies `h, `pc
      ensures Valid() && pc == Reaping(cutoff, i + 1, after)
      ensures h.waits == old(h).waits
    {
      ghost var s := At();
      if refused[i].deadline <= cutoff {
        h := h.(closes := h.closes + [Close(refused[i].conn, now)]);
      }
      pc := Reaping(cutoff, i + 1, after);
      ReachReap(cfg, s, At());
    }

    /** The closing loop of `_reap`. */
    method CloseDue(cutoff: int, after: After) returns (raised: bool)
      requires Valid() && pc == Reaping(cutoff, 0, after)
      modifies this
      ensures Valid() && idle == old(idle) && refused == old(refused) && old(now) <= now
      ensures raised ==> pc == Unwinding(None)
      ensures !raised ==> pc == Reaping(cutoff, |refused|, after)
      ensures h.waits == old(h).waits
    {
      raised := false;
      var i := 0;
      while i < |refused|
        invariant 0 <= i <= |refused|
        invariant Valid() && idle == old(idle) && refused == old(refused) && old(now) <= now
        invariant pc == Reaping(cutoff, i, after) && !raised && h.waits == old(h).waits
      {
        raised := Preempt();
        if raised { return; }
        CloseIfDue(cutoff, i, after);
        i := i + 1;
      }
    }

    /** `_reap`, on its way to accept or back to the loop. */
    method Reap(after: After) returns (raised: bool)
      requires Valid() && pc == ReapStart(after)
      modifies this
      ensures Valid() && idle == old(idle)
      ensures raised ==> pc == Unwinding(None)
      ensures !raised ==> pc == (if after == ToAccept then Accept else Test)
      ensures !raised ==> h.lastReap.Some? && old(now) <= h.lastReap.value <= now
                          && refused == Unexpired(old(refused), h.lastReap.value)
      ensures h.waits == old(h).waits
    {
      var cutoff;
      cutoff, raised := StartReap(after);
      if raised { return; }
      raised := CloseDue(cutoff, after);
      if raised { return; }
      raised := FinishReap(cutoff, after);
    }

    method StartReap(after: After) returns (cutoff: int, raised: bool)
      requires Valid() && pc == ReapStart(after)
      modifies this
      ensures Valid() && idle == old(idle) && refused == old(refused)
      ensures raised ==> pc == Unwinding(None)
      ensures !raised ==> pc == Reaping(cutoff, 0, after) && old(now) <= cutoff <= now
      ensures h.waits == old(h).waits
    {
      cutoff := 0;
      raised := Preempt();
      if raised { return; }
      ghost var s := At();
      cutoff := now;
      pc := Reaping(cutoff, 0, after);
      ReachReap(cfg, s, At());
    }

    method FinishReap(cutoff: int, after: After) returns (raised: bool)
      requires Valid() && pc == Reaping(cutoff, |refused|, after)
      modifies this
      ensures Valid() && idle == old(idle) && old(now) <= now
      ensures raised ==> pc == Unwinding(None)
      ensures !raised ==> pc == (if after == ToAccept then Accept else Test)
      ensures !raised ==> refused == Unexpired(old(refused), cutoff) && h.lastReap == Some(cutoff)
      ensures h.waits == old(h).waits
    {
      raised := Preempt();
      if raised { return; }
      KeepUnexpired(cutoff, after);
    }

    /** The list comprehension at the end of `_reap`. */
    method KeepUnexpired(cutoff: int, after: After)
      requires Valid() && pc == Reaping(cutoff, |refused|, after)
      modifies `refused, `h, `pc
      ensures Valid() && pc == (if after == ToAccept then Accept else Test)
      ensures refused == Unexpired(old(refused), cutoff) && h.lastReap == Some(cutoff)
      ensures h.waits == old(h).waits
    {
      ghost var s := At();
      refused := Unexpired(refused, cutoff);
      h := h.(lastReap := Some(cutoff));
      pc := if after == ToAccept then Accept else Test;
      ReachReap(cfg, s, At());
    }

    /** The 403, best effort, and the append. */
    method Append(c: Conn) returns (raised: bool)
      requires Valid() && pc == Refusing(c)
      modifies this
      ensures Valid() && idle == old(idle)
      ensures raised ==> pc == Unwinding(None)
      ensures !raised ==> pc == Evicting(c) && old(now) <= now
      ensures !raised ==> var e := Entry(c, now + REFUSE_LINGER);
                          refused == old(refused) + [e] && h.refusals == old(h).refusals + [e]
      ensures h.waits == old(h).waits
    {
      raised := Preempt();
      if raised { return; }
      AppendEntry(c);
    }

    method AppendEntry(c: Conn)
      requires Valid() && pc == Refusing(c)
      modifies `refused, `h, `pc
      ensures Valid() && pc == Evicting(c)
      ensures var e := Entry(c, now + REFUSE_LINGER);
              refused == old(refused) + [e] && h.refusals == old(h).refusals + [e] && h.waits == old(h).waits
    {
      ghost var s := At();
      var e := Entry(c, now + REFUSE_LINGER);
      refused := refused + [e];
      h := h.(refusals := h.refusals + [e]);
      pc := Evicting(c);
      ReachRefuse(cfg, s, At());
    }

    method EvictHead(c: Conn)
      requires Valid() && pc == Evicting(c) && |refused| > REFUSE_MAX
      modifies `refused, `h
      ensures Valid() && refused == old(refused)[1..] && h.refusals == old(h).refusals
      ensures h.waits == old(h).waits
    {
      ghost var s := At();
      h := h.(closes := h.closes + [Close(refused[0].conn, now)]);
      refused := refused[1..];
      ReachRefuse(cfg, s, At());
    }

    /** The eviction loop of `_refuse`. */
    method Evict(c: Conn) returns (raised: bool)
      requires Valid() && pc == Evicting(c)
      modifies this
      ensures Valid() && idle == old(idle) && old(now) <= now
      ensures h.refusals == old(h).refusals
      ensures raised ==> pc == Unwinding(None)
      ensures !raised ==> pc == ShutRefused(c) && refused == LastN(old(refused), REFUSE_MAX)
      ensures h.waits == old(h).waits
    {
      raised := false;
      ghost var gone := 0;
      while |refused| > REFUSE_MAX
        invariant Valid() && idle == old(idle) && old(now) <= now && pc == Evicting(c)
        invariant h.refusals == old(h).refusals && h.waits == old(h).waits && !raised
        invariant 0 <= gone <= |old(refused)| && refused == old(refused)[gone..]
        invariant gone > 0 ==> |refused| >= REFUSE_MAX
      {
        raised := Preempt();
        if raised { return; }
        EvictHead(c);
        gone := gone + 1;
      }
      ToShutdown(c);
    }

    /** `_refuse`: append, then evict from the front down to the cap. */
    method Refuse(c: Conn) returns (raised: bool)
      requires Valid() && pc == Refusing(c)
      modifies this
      ensures Valid() && idle == old(idle)
      ensures raised ==> pc == Unwinding(None)
      ensures !raised ==> pc == ShutRefused(c) && h.refusals != []
      ensures !raised ==> var e := h.refusals[|h.refusals| - 1];
                          && e.conn == c && old(now) + REFUSE_LINGER <= e.deadline <= now + REFUSE_LINGER
                          && refused == LastN(old(refused) + [e], REFUSE_MAX)
      ensures h.waits == old(h).waits
    {
      raised := Append(c);
      if raised { return; }
      raised := Evict(c);
    }

    method ToShutdown(c: Conn)
      requires Valid() && pc == Evicting(c) && |refused| <= REFUSE_MAX
      modifies `pc
      ensures Valid() && pc == ShutRefused(c)
    {
      ghost var s := At();
      pc := ShutRefused(c);
      ReachRefuse(cfg, s, At());
    }

    /** `shutdown_request`: a refused connection is left for `_reap`. */
    method ShutdownRequest(c: Conn)
      modifies `h
      ensures h == if Holds(refused, c) then old(h) else old(h).(shut := old(h).shut + [c])
    {
      if !Holds(refused, c) {
        h := h.(shut := h.shut + [c]);
      }
    }

    /** `verify_request`, with the refusal of a connection that does not pass. */
    method VerifyRequest(c: Conn) returns (ok: bool, raised: bool)
      requires Valid() && pc == Verify(c)
      modifies this
      ensures Valid() && idle == old(idle)
      ensures raised ==> pc == Unwinding(None)
      ensures !raised ==> (ok <==> cfg.allowedPeerUid == None || c.peer == cfg.allowedPeerUid)
      ensures !raised ==> pc == if ok then Admit(c) else ShutRefused(c)
      ensures h.waits == old(h).waits
    {
      ok := false;
      raised := Preempt();
      if raised { return; }
      ghost var s := At();
      if cfg.allowedPeerUid.None? {
        ok := true;
      } else {
        ok := c.peer.Some? && c.peer.value == cfg.allowedPeerUid.value;
      }
      pc := if ok then Admit(c) else Refusing(c);
      ReachRefuse(cfg, s, At());
      if !ok {
        raised := Refuse(c);
      }
    }

    // -------------------------------------------------------------------------------------------
    // Requests

    /** `get_request`: reap, then accept, which may fail. */
    method GetRequest() returns (conn: Option<Conn>, raised: bool)
      requires Valid() && pc == ReapStart(ToAccept)
      modifies this
      ensures Valid() && idle == old(idle)
      ensures raised ==> pc == Unwinding(None)
      ensures !raised ==> pc == (if conn.Some? then Verify(conn.value) else Test)
      ensures !raised ==> h.lastReap.Some? && old(now) <= h.lastReap.value <= now
                          && refused == Unexpired(old(refused), h.lastReap.value)
      ensures h.waits == old(h).waits
    {
      conn := None;
      raised := Reap(ToAccept);
      if raised { return; }
      conn, raised := AcceptOne();
    }

    method AcceptOne() returns (conn: Option<Conn>, raised: bool)
      requires Valid() && pc == Accept
      modifies this
      ensures Valid() && idle == old(idle) && refused == old(refused) && old(now) <= now
      ensures h.waits == old(h).waits && h.lastReap == old(h).lastReap
      ensures raised ==> pc == Unwinding(None)
      ensures !raised ==> pc == (if conn.Some? then Verify(conn.value) else Test)
    {
      conn := None;
      raised := Preempt();
      if raised { return; }
      if * {
        conn := AcceptNext();
      } else {
        AcceptFails();
      }
    }

    method AcceptNext() returns (conn: Option<Conn>)
      requires Valid() && pc == Accept
      modifies `nextId, `h, `pc
      ensures Valid() && conn.Some? && pc == Verify(conn.value)
      ensures h == old(h).(accepted := old(h).accepted + [conn.value])
    {
      ghost var s := At();
      var peer: Option<nat> := *;
      var c := Conn(nextId, peer);
      conn, nextId, pc := Some(c), nextId + 1, Verify(c);
      h := h.(accepted := h.accepted + [c]);
      ReachStep(cfg, s, Accepts(c), At());
    }

    method AcceptFails()
      requires Valid() && pc == Accept
      modifies `pc
      ensures Valid() && pc == Test
    {
      ghost var s := At();
      pc := Test;
      ReachStep(cfg, s, AcceptError, At());
    }

    method EnterRequest(c: Conn) returns (raised: bool)
      requires Valid() && pc == Admit(c)
      modifies this
      ensures Valid() && idle == old(idle) && refused == old(refused) && inRequest == !raised
      ensures h.waits == old(h).waits && h.shut == old(h).shut
      ensures raised ==> pc == Unwinding(Some(c)) && stopping
      ensures !raised ==> pc == Serving(c) && h.processed == old(h).processed + [c]
    {
      raised := Preempt();
      if raised { return; }
      ghost var s := At();
      inRequest := true;
      h := h.(processed := h.processed + [c]);
      pc := Serving(c);
      ReachRequest(cfg, s, At());
    }

    /** The handler returns, or raises an Exception. */
    method EndHandler(c: Conn) returns (failed: bool)
      requires Valid() && pc == Serving(c) && inRequest
      modifies `inRequest, `pc
      ensures Valid() && pc == (if failed then Failed(c) else Closing(c)) && inRequest == !failed
    {
      ghost var s := At();
      failed := *;
      if failed {
        inRequest, pc := false, Failed(c);
        ReachStep(cfg, s, Fail, At());
      } else {
        pc := Closing(c);
        ReachStep(cfg, s, Finish, At());
      }
    }

    /** The handler runs: it returns, raises an Exception, or is unwound by a signal. */
    method RunHandler(c: Conn) returns (failed: bool, raised: bool)
      requires Valid() && pc == Serving(c) && inRequest
      modifies this
      ensures Valid() && idle == old(idle) && refused == old(refused)
      ensures h == old(h).(firstStop := h.firstStop, externals := h.externals)
      ensures raised ==> pc == Unwinding(Some(c)) && stopping && !inRequest
      ensures !raised ==> pc == (if failed then Failed(c) else Closing(c)) && inRequest == !failed
    {
      failed := false;
      raised := Preempt();
      if raised { return; }
      failed := EndHandler(c);
    }

    /** The standard library's part of `process_request`, once the handler has returned. */
    method ShutServed(c: Conn) returns (raised: bool)
      requires Valid() && pc == Closing(c)
      modifies this
      ensures Valid() && idle == old(idle) && refused == old(refused)
      ensures h.waits == old(h).waits && h.processed == old(h).processed
      ensures raised ==> pc == Unwinding(Some(c)) && stopping && !inRequest
      ensures !raised ==> pc == Leaving(c) && h.shut == old(h).shut + [c]
    {
      raised := Preempt();
      if raised { return; }
      ghost var s := At();
      ReachNotHeld(cfg, s);
      ShutdownRequest(c);
      pc := Leaving(c);
      ReachRequest(cfg, s, At());
    }

    /** The `finally` clause of `process_request`. */
    method LeaveRequest(c: Conn) returns (raised: bool)
      requires Valid() && pc == Leaving(c)
      modifies this
      ensures Valid() && idle == old(idle) && refused == old(refused) && !inRequest
      ensures h == old(h).(firstStop := h.firstStop, externals := h.externals)
      ensures raised ==> pc == Unwinding(Some(c)) && stopping
      ensures !raised ==> pc == Left(c)
    {
      raised := Preempt();
      if raised { return; }
      ghost var s := At();
      inRequest := false;
      pc := Left(c);
      ReachRequest(cfg, s, At());
    }

    method BackToLoop(c: Conn) returns (raised: bool)
      requires Valid() && pc == Left(c) && !inRequest
      modifies this
      ensures Valid() && idle == old(idle) && refused == old(refused) && !inRequest
      ensures h == old(h).(firstStop := h.firstStop, externals := h.externals)
      ensures raised ==> pc == Unwinding(Some(c)) && stopping
      ensures !raised ==> pc == Test
    {
      raised := Preempt();
      if raised { return; }
      ghost var s := At();
      pc := Test;
      ReachRequest(cfg, s, At());
    }

    /** `process_request`: the window in which a signal does not raise at once. */
    method ProcessRequest(c: Conn) returns (failed: bool, raised: bool)
      requires Valid() && pc == Admit(c)
      modifies this
      ensures Valid() && idle == old(idle) && refused == old(refused)
      ensures !inRequest && h.waits == old(h).waits
      ensures raised ==> pc == Unwinding(Some(c)) && stopping
      ensures !raised ==> pc == (if failed then Failed(c) else Test)
      ensures !raised ==> h.processed == old(h).processed + [c]
      ensures !raised ==> h.shut == if failed then old(h).shut else old(h).shut + [c]
    {
      failed := false;
      raised := EnterRequest(c);
      if raised { return; }
      failed, raised := RunHandler(c);
      if raised || failed { return; }
      raised := ShutServed(c);
      if raised { return; }
      raised := LeaveRequest(c);
      if raised { return; }
      raised := BackToLoop(c);
    }

    /** `handle_timeout`. */
    method HandleTimeout() returns (raised: bool)
      requires Valid() && pc == Expired && !idle
      modifies this
      ensures Valid()
      ensures raised ==> pc == Unwinding(None)
      ensures !raised ==> pc == Test && (idle <==> old(refused) == [])
      ensures !raised && old(refused) == [] ==> refused == []
      ensures !raised && old(refused) != [] ==>
                h.lastReap.Some? && old(now) <= h.lastReap.value <= now
                && refused == Unexpired(old(refused), h.lastReap.value)
      ensures h.waits == old(h).waits
    {
      raised := Preempt();
      if raised { return; }
      ghost var s := At();
      if refused != [] {
        pc := ReapStart(ToTest);
        ReachLoop(cfg, s, At());
        raised := Reap(ToTest);
      } else {
        idle := true;
        pc := Test;
        h := h.(idleAt := Some(now));
        ReachLoop(cfg, s, At());
      }
    }

    /** What the standard library does with one ready connection. */
    method HandleConnection() returns (raised: bool)
      requires Valid() && pc == ReapStart(ToAccept)
      modifies this
      ensures Valid() && idle == old(idle)
      ensures raised ==> pc == Unwinding(None)
      ensures !raised ==> pc == Test
      ensures h.waits == old(h).waits
    {
      var conn: Option<Conn>;
      conn, raised := GetRequest();
      if raised || conn.None? { return; }
      var c, ok, failed := conn.value, false, false;
      ok, raised := VerifyRequest(c);
      if raised { return; }
      if ok {
        failed, raised := ProcessRequest(c);
        if raised {
          ShutUnwinding(c);
          return;
        }
        if !failed { return; }
      }
      if ok {
        raised := ShutFailed(c);
      } else {
        raised := ShutRejected(c);
      }
    }

    method ShutFailed(c: Conn) returns (raised: bool)
      requires Valid() && pc == Failed(c)
      modifies this
      ensures Valid() && idle == old(idle)
      ensures pc == if raised then Unwinding(None) else Test
      ensures !raised ==> h.shut == old(h).shut + [c] && refused == old(refused)
      ensures h.waits == old(h).waits
    {
      raised := Preempt();
      if raised { return; }
      ghost var s := At();
      ReachNotHeld(cfg, s);
      ShutdownRequest(c);
      pc := Test;
      ReachRequest(cfg, s, At());
    }

    method ShutRejected(c: Conn) returns (raised: bool)
      requires Valid() && pc == ShutRefused(c)
      modifies this
      ensures Valid() && idle == old(idle)
      ensures pc == if raised then Unwinding(None) else Test
      ensures !raised ==> h.shut == old(h).shut && refused == old(refused)
      ensures h.waits == old(h).waits
    {
      raised := Preempt();
      if raised { return; }
      ghost var s := At();
      ReachNewestHeld(cfg, s);
      ShutdownRequest(c);
      pc := Test;
      ReachRefuse(cfg, s, At());
    }

    /** The bare `except` around `process_request`; a further signal may cut it short. */
    method ShutUnwinding(c: Conn)
      requires Valid() && pc == Unwinding(Some(c))
      modifies this
      ensures Valid() && idle == old(idle) && pc == Unwinding(None)
      ensures h.waits == old(h).waits
    {
      var again := Preempt();
      if !again {
        ghost var s := At();
        ShutdownRequest(c);
        pc := Unwinding(None);
        ReachRequest(cfg, s, At());
      }
    }

    method StartWait() returns (until: Option<int>)
      requires Valid() && pc == Begin
      modifies `h, `pc
      ensures Valid() && pc == Select(until)
      ensures until == if timeout.None? then None else Some(now + timeout.value)
      ensures h.waits == old(h).waits + 1
    {
      ghost var s := At();
      until := if timeout.None? then None else Some(now + timeout.value);
      pc := Select(until);
      h := h.(waits := h.waits + 1, waitFrom := now, waitFor := timeout, acceptedAtWait := |h.accepted|);
      ReachLoop(cfg, s, At());
    }

    /** `handle_request`: wait for a connection, for at most `timeout`. */
    method HandleRequest() returns (raised: bool)
      requires Valid() && pc == Begin && !idle
      modifies this
      ensures Valid()
      ensures raised ==> pc == Unwinding(None)
      ensures !raised ==> pc == Test
      ensures old(h).waits <= h.waits <= old(h).waits + 1
      ensures !raised ==> h.waits == old(h).waits + 1
    {
      raised := Preempt();
      if raised { return; }
      var until := StartWait();
      raised := Preempt();  // blocked in select
      if raised { return; }
      raised := AfterWait(until);
    }

    /** The wait ends: its deadline is past, or a connection is ready. */
    method AfterWait(until: Option<int>) returns (raised: bool)
      requires Valid() && pc == Select(until) && !idle
      modifies this
      ensures Valid() && h.waits == old(h).waits
      ensures raised ==> pc == Unwinding(None)
      ensures !raised ==> pc == Test
    {
      ghost var s := At();
      var overdue := until.Some? && until.value < now;
      if {
        case overdue =>
          pc := Expired;
          ReachStep(cfg, s, Expire, At());
          raised := HandleTimeout();
        case true =>
          pc := ReapStart(ToAccept);
          ReachStep(cfg, s, Ready, At());
          raised := HandleConnection();
      }
    }

    /** The test of the loop. */
    method TestLoop() returns (more: bool, raised: bool)
      requires Valid() && pc == Test
      modifies this
      ensures Valid() && h.waits == old(h).waits
      ensures raised ==> pc == Unwinding(None)
      ensures !raised ==> pc == (if more then Choose else Finally(false)) && more == (!stopping && !idle)
    {
      more := false;
      raised := Preempt();
      if raised { return; }
      ghost var s := At();
      more := !stopping && !idle;
      pc := if more then Choose else Finally(false);
      ReachLoop(cfg, s, At());
    }

    /** The timeout for the next turn, at one reading of the clock. */
    method ChooseTimeout() returns (raised: bool)
      requires Valid() && pc == Choose
      modifies this
      ensures Valid() && h.waits == old(h).waits && idle == old(idle)
      ensures raised ==> pc == Unwinding(None)
      ensures !raised ==> pc == Begin && old(now) <= now
                          && timeout == ServeTimeout(old(refused), cfg.idleTimeout, now)
    {
      raised := Preempt();
      if raised { return; }
      ghost var s := At();
      timeout := ServeTimeout(refused, cfg.idleTimeout, now);
      pc := Begin;
      ReachLoop(cfg, s, At());
    }

    method NextTurn() returns (more: bool, raised: bool)
      requires Valid() && pc == Test
      modifies this
      ensures Valid() && h.waits == old(h).waits
      ensures raised ==> pc == Unwinding(None)
      ensures !raised ==> pc == if more then Begin else Finally(false)
      ensures !raised && more ==> !idle
      ensures !raised && !more ==> idle || stopping
    {
      more, raised := TestLoop();
      if raised || !more { return; }
      raised := ChooseTimeout();
    }

    /** `serve`, followed for at most the given number of turns of its loop. Whatever the outcome,
        the object is in a state that a run of the step relation reaches. */
    method Serve(turns: nat) returns (outcome: Outcome)
      requires Valid() && pc == Test
      modifies this
      ensures Valid() && Inv(cfg, At())
      ensures outcome == StillServing ==> pc == Test && h.waits == old(h).waits + turns
      ensures h.waits <= old(h).waits + turns
      ensures outcome == Returned ==> pc == Done(false) && (stopping || idle) && alarm.None?
      ensures outcome == Interrupted ==> pc == Done(true) && stopping && alarm.None?
      ensures idle ==> cfg.idleTimeout.Some? && refused == []
    {
      var more, raised, left := true, false, turns;
      while more && left > 0
        invariant Valid() && !raised && pc == (if more then Test else Finally(false))
        invariant more ==> h.waits + left == old(h).waits + turns
        invariant h.waits <= old(h).waits + turns
        invariant 0 <= left <= turns
      {
        more, raised := NextTurn();
        if raised { break; }
        if more {
          raised := HandleRequest();
          if raised { break; }
        }
        left := left - 1;
      }
      outcome := if raised then Interrupted else if more then StillServing else Returned;
      if outcome != StillServing {
        FinishServe(raised);
      }
      ReachInv(cfg, At());
    }

    /** The way out of the loop. */
    method FinishServe(raised: bool)
      requires Valid() && pc == if raised then Unwinding(None) else Finally(false)
      modifies this
      ensures Valid() && pc == Done(raised) && alarm.None?
      ensures h.waits == old(h).waits && idle == old(idle) && refused == old(refused)
      ensures if raised then stopping else stopping == old(stopping)
    {
      if raised {
        Unwind();
      }
      DisarmTimer(raised);
    }

    /** The `finally` clause. */
    method DisarmTimer(raised: bool)
      requires Valid() && pc == Finally(raised)
      modifies `alarm, `pc
      ensures Valid() && pc == Done(raised) && alarm.None?
    {
      ghost var s := At();
      alarm := None;
      pc := Done(raised);
      ReachRequest(cfg, s, At());
    }

    /** A KeyboardInterrupt leaves the loop for its `finally` clause; a further signal on the way does
        not change that. */
    method Unwind()
      requires Valid() && pc == Unwinding(None)
      modifies this
      ensures Valid() && pc == Finally(true) && stopping
      ensures h.waits == old(h).waits && idle == old(idle) && refused == old(refused)
    {
      var again := Preempt();
      ghost var s := At();
      ReachStopInv(cfg, s);
      pc := Finally(true);
      ReachRequest(cfg, s, At());
    }
  }
}
