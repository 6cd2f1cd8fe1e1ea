/** The serve loop of `_Server` as a step relation: the program counter of the loop together with
    the standard library's `handle_request`, the fields of `_Server`, the clock and the interval
    timer. Signals and the passage of time may come between any two steps.

    A label fixes everything the environment decides in a step, so that a step is a partial
    function of the state and its label. */
module ServeProtocol {
  import opened Prelude
  import opened RefusedQueue

  const STOP_GRACE: int := 5_000_000

  /** What `main` leaves in the two attributes it sets before calling `serve`. */
  datatype Config = Config(idleTimeout: Option<int>, allowedPeerUid: Option<nat>)

  /** Where `_reap` returns to: `get_request` goes on to accept, `handle_timeout` to the loop test. */
  datatype After = ToAccept | ToTest

  datatype PC =
    | Test                                          // while not _stopping and not _idle
    | Choose                                        // timeout = _serve_timeout()
    | Begin                                         // handle_request: deadline = time() + timeout
    | Select(until: Option<int>)                    // blocked in select, None for ever
    | Expired                                       // handle_timeout
    | ReapStart(after: After)                       // _reap: now = monotonic()
    | Reaping(cutoff: int, i: nat, after: After)    // _reap: before looking at entry i
    | Accept                                        // accept on the listening socket
    | Verify(c: Conn)                               // verify_request
    | Refusing(c: Conn)                             // _refuse: the 403, best effort
    | Evicting(c: Conn)                             // _refuse: the eviction loop
    | ShutRefused(c: Conn)                          // shutdown_request after a refusal
    | Admit(c: Conn)                                // process_request, _in_request still false
    | Serving(c: Conn)                              // the handler runs
    | Closing(c: Conn)                              // shutdown_request after the handler
    | Leaving(c: Conn)                              // process_request: _in_request = False
    | Left(c: Conn)                                 // process_request is over, its caller not yet back
    | Failed(c: Conn)                               // the handler's Exception has left process_request
    | Unwinding(pending: Option<Conn>)              // KeyboardInterrupt on its way up
    | Finally(raised: bool)
    | Done(raised: bool)

  /** A delivery to `_stop`: the grace timer's SIGALRM, or any signal sent from outside. */
  datatype Signal = External | Alarm

  datatype Label =
    | Tick(dt: nat)
    | Deliver(sig: Signal)
    | Ready                // select reports a pending connection
    | Expire               // the wait is over: its deadline has passed
    | Accepts(c: Conn)
    | AcceptError
    | Finish               // the handler returns
    | Fail                 // the handler raises an Exception
    | Advance              // the next program step, when it has only one outcome

  datatype Close = Close(conn: Conn, at: int)

  /** What has happened so far. It decides nothing, except that an accepted socket is a new one. */
  datatype History = History(
    accepted: seq<Conn>,       // connections accepted, in order
    refusals: seq<Entry>,      // entries appended to _refused, in order
    closes: seq<Close>,        // calls of _close, in order
    processed: seq<Conn>,      // connections handed to the request handler
    shut: seq<Conn>,           // connections closed by shutdown_request
    waits: nat,                // waits started
    waitFrom: int,             // when the last wait started, with which timeout,
    waitFor: Option<int>,
    acceptedAtWait: nat,       // and how many connections had been accepted then
    idleAt: Option<int>,       // when _idle was set
    lastReap: Option<int>,     // the clock reading of the last completed _reap
    firstStop: Option<int>,    // when _stop first ran
    externals: nat)            // signals delivered from outside

  datatype State = State(
    pc: PC, now: int,
    refused: seq<Entry>, idle: bool, stopping: bool, inRequest: bool, timeout: Option<int>,
    alarm: Option<int>,
    h: History)

  const NO_HISTORY := History([], [], [], [], [], 0, 0, None, 0, None, None, None, 0)

  function Initial(now: int): State {
    State(Test, now, [], false, false, false, None, None, NO_HISTORY)
  }

  /** The access check of `verify_request`. */
  predicate Allowed(cfg: Config, c: Conn) {
    cfg.allowedPeerUid.None? || c.peer == cfg.allowedPeerUid
  }

  // ---------------------------------------------------------------------------------------------
  // Steps

  /** The `finally` clause of `serve` is atomic, and after it no handler runs. */
  predicate Interruptible(pc: PC) {
    !pc.Finally? && !pc.Done?
  }

  predicate CloseDue(s: State)
    requires s.pc.Reaping?
  {
    s.pc.i < |s.refused| && s.refused[s.pc.i].deadline <= s.pc.cutoff
  }

  predicate Enabled(s: State, l: Label) {
    match l
    case Tick(_) => true
    case Deliver(sig) =>
      Interruptible(s.pc) && (sig == Alarm ==> s.alarm.Some? && s.alarm.value <= s.now)
    case Ready => s.pc.Select?
    case Expire => s.pc.Select? && s.pc.until.Some? && s.pc.until.value < s.now
    case Accepts(c) => s.pc == Accept && forall i :: 0 <= i < |s.h.accepted| ==> s.h.accepted[i].id != c.id
    case AcceptError => s.pc == Accept
    case Finish => s.pc.Serving?
    case Fail => s.pc.Serving?
    case Advance => !s.pc.Select? && s.pc != Accept && !s.pc.Serving? && !s.pc.Done?
  }

  /** Where a KeyboardInterrupt raised at `pc` goes: the bare `except` of the standard library
      catches it once `process_request` has been entered, and shuts the connection down. */
  function Unwound(pc: PC): PC {
    if pc.Admit? || pc.Serving? || pc.Closing? || pc.Leaving? || pc.Left? then Unwinding(Some(pc.c))
    else Unwinding(None)
  }

  /** `_stop`. */
  function Stop(s: State, sig: Signal): State {
    var h := s.h.(firstStop := if s.h.firstStop.None? then Some(s.now) else s.h.firstStop,
                  externals := if sig == External then s.h.externals + 1 else s.h.externals);
    var alarm := if sig == Alarm then None else s.alarm;
    if s.stopping || !s.inRequest then
      s.(stopping := true, inRequest := false, alarm := alarm, pc := Unwound(s.pc), h := h)
    else
      s.(stopping := true, alarm := Some(s.now + STOP_GRACE), h := h)
  }

  /** `shutdown_request`: a connection still held in `_refused` is left for `_reap`. */
  function ShutDown(s: State, c: Conn): State {
    if Holds(s.refused, c) then s else s.(h := s.h.(shut := s.h.shut + [c]))
  }

  function CloseEntry(s: State, e: Entry): State {
    s.(h := s.h.(closes := s.h.closes + [Close(e.conn, s.now)]))
  }

  /** The loop of `serve`, down to the wait inside `handle_request`. */
  function LoopStep(cfg: Config, s: State): State {
    match s.pc
    case Test => s.(pc := if !s.stopping && !s.idle then Choose else Finally(false))
    case Choose => s.(timeout := ServeTimeout(s.refused, cfg.idleTimeout, s.now), pc := Begin)
    case Begin =>
      s.(pc := Select(if s.timeout.None? then None else Some(s.now + s.timeout.value)),
      h := s.h.(waits := s.h.waits + 1, waitFrom := s.now, waitFor := s.timeout,
      acceptedAtWait := |s.h.accepted|))
    case Expired =>
      if s.refused != [] then s.(pc := ReapStart(ToTest))
      else s.(idle := true, pc := Test, h := s.h.(idleAt := Some(s.now)))
    case _ => s
  }

  /** `_reap`. */
  function ReapStep(s: State): State {
    match s.pc
    case ReapStart(after) => s.(pc := Reaping(s.now, 0, after))
    case Reaping(cutoff, i, after) =>
      if i < |s.refused| then
        (if CloseDue(s) then CloseEntry(s, s.refused[i]) else s).(pc := Reaping(cutoff, i + 1, after))
      else
        s.(refused := Unexpired(s.refused, cutoff), h := s.h.(lastReap := Some(cutoff)),
        pc := if after == ToAccept then Accept else Test)
    case _ => s
  }

  /** `verify_request`, `_refuse` and the `shutdown_request` that follows a refusal. */
  function RefuseStep(cfg: Config, s: State): State {
    match s.pc
    case Verify(c) => s.(pc := if Allowed(cfg, c) then Admit(c) else Refusing(c))
    case Refusing(c) =>
      var e := Entry(c, s.now + REFUSE_LINGER);
      s.(refused := s.refused + [e], h := s.h.(refusals := s.h.refusals + [e]), pc := Evicting(c))
    case Evicting(c) =>
      if |s.refused| > REFUSE_MAX then CloseEntry(s, s.refused[0]).(refused := s.refused[1..])
      else s.(pc := ShutRefused(c))
    case ShutRefused(c) => ShutDown(s, c).(pc := Test)
    case _ => s
  }

  /** `process_request`, and the ways out of it and of `serve`. */
  function RequestStep(s: State): State {
    match s.pc
    case Admit(c) => s.(inRequest := true, h := s.h.(processed := s.h.processed + [c]), pc := Serving(c))
    case Closing(c) => ShutDown(s, c).(pc := Leaving(c))
    case Leaving(c) => s.(inRequest := false, pc := Left(c))
    case Left(_) => s.(pc := Test)
    case Failed(c) => ShutDown(s, c).(pc := Test)
    case Unwinding(c) =>
      if c.None? then s.(pc := Finally(true)) else ShutDown(s, c.value).(pc := Unwinding(None))
    case Finally(raised) => s.(alarm := None, pc := Done(raised))
    case _ => s
  }

  predicate LoopCode(pc: PC) {
    pc == Test || pc == Choose || pc == Begin || pc == Expired
  }

  predicate ReapCode(pc: PC) {
    pc.ReapStart? || pc.Reaping?
  }

  predicate RefuseCode(pc: PC) {
    pc.Verify? || pc.Refusing? || pc.Evicting? || pc.ShutRefused?
  }

  function Advanced(cfg: Config, s: State): State {
    if LoopCode(s.pc) then LoopStep(cfg, s)
    else if ReapCode(s.pc) then ReapStep(s)
    else if RefuseCode(s.pc) then RefuseStep(cfg, s)
    else RequestStep(s)
  }

  function Apply(cfg: Config, s: State, l: Label): State
    requires Enabled(s, l)
  {
    match l
    case Tick(dt) => s.(now := s.now + dt)
    case Deliver(sig) => Stop(s, sig)
    case Ready => s.(pc := ReapStart(ToAccept))
    case Expire => s.(pc := Expired)
    case Accepts(c) => s.(pc := Verify(c), h := s.h.(accepted := s.h.accepted + [c]))
    case AcceptError => s.(pc := Test)
    case Finish => s.(pc := Closing(s.pc.c))
    case Fail => s.(inRequest := false, pc := Failed(s.pc.c))
    case Advance => Advanced(cfg, s)
  }

  // ---------------------------------------------------------------------------------------------
  // Runs

  datatype Run = Run(states: seq<State>, labels: seq<Label>)

  ghost predicate IsStep(cfg: Config, s: State, l: Label, s': State) {
    Enabled(s, l) && s' == Apply(cfg, s, l)
  }

  /** A run of the server from the moment `serve` has installed its handlers. */
  ghost predicate IsRun(cfg: Config, r: Run) {
    && |r.states| == |r.labels| + 1
    && r.states[0] == Initial(r.states[0].now)
    && forall i :: 0 <= i < |r.labels| ==> IsStep(cfg, r.states[i], r.labels[i], r.states[i + 1])
  }

  ghost function Last(r: Run): State
    requires r.states != []
  {
    r.states[|r.states| - 1]
  }

  ghost function Extend(cfg: Config, r: Run, l: Label): Run
    requires r.states != [] && Enabled(Last(r), l)
  {
    Run(r.states + [Apply(cfg, Last(r), l)], r.labels + [l])
  }

  lemma StepOf(cfg: Config, r: Run, i: nat)
    requires IsRun(cfg, r) && i < |r.labels|
    ensures IsStep(cfg, r.states[i], r.labels[i], r.states[i + 1])
  {
  }

  lemma ExtendIsRun(cfg: Config, r: Run, l: Label)
    requires IsRun(cfg, r) && Enabled(Last(r), l)
    ensures IsRun(cfg, Extend(cfg, r, l))
    ensures Last(Extend(cfg, r, l)) == Apply(cfg, Last(r), l)
  {
    var r' := Extend(cfg, r, l);
    forall i | 0 <= i < |r'.labels|
      ensures IsStep(cfg, r'.states[i], r'.labels[i], r'.states[i + 1])
    {
      if i < |r.labels| {
        assert IsStep(cfg, r.states[i], r.labels[i], r.states[i + 1]);
      }
    }
  }
}
