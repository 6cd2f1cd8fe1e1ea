/** What every step of the serve loop keeps. The invariant comes in four parts: the stop protocol,
    the wait and its timeout, the queue of refused connections against the history of refusals,
    and the ledger of accepted connections. */
module ServeInvariants {
  import opened Prelude
  import opened RefusedQueue
  import opened ServeProtocol

  /** A KeyboardInterrupt is on its way up, or has left `serve`. */
  predicate Raised(pc: PC) {
    pc.Unwinding? || pc == Finally(true) || pc == Done(true)
  }

  // ---------------------------------------------------------------------------------------------
  // The stop protocol

  /** The program points the loop can be at once a stop signal has been seen. */
  predicate WindingDown(pc: PC) {
    || pc.Serving? || pc.Closing? || pc.Leaving? || pc.Left? || pc.Failed?
    || pc == Test || pc.Unwinding? || pc.Finally? || pc.Done?
  }

  /** A request is being served, as far as `_stop` is concerned. */
  predicate InFlight(pc: PC) {
    pc.Serving? || pc.Closing? || pc.Leaving?
  }

  ghost predicate StopInv(s: State) {
    && (s.inRequest <==> InFlight(s.pc))
    && (s.stopping ==> WindingDown(s.pc))
    && (Raised(s.pc) ==> s.stopping)
    && ((s.pc.Finally? || s.pc.Done?) ==> s.stopping || s.idle)
    && (s.stopping <==> s.h.firstStop.Some?)
    && (s.stopping ==> s.h.firstStop.value <= s.now && 1 <= s.h.externals)
    && (s.alarm.Some? ==> s.stopping && s.alarm.value == s.h.firstStop.value + STOP_GRACE)
    && (s.stopping && s.inRequest ==> s.alarm.Some?)
    && (s.pc.Done? ==> s.alarm.None?)
  }

  // ---------------------------------------------------------------------------------------------
  // The wait

  ghost predicate WaitInv(cfg: Config, s: State) {
    && (s.pc == Begin && s.refused == [] ==> s.timeout == cfg.idleTimeout)
    && (s.pc.Select? ==>
          && s.pc.until == (if s.h.waitFor.None? then None else Some(s.h.waitFrom + s.h.waitFor.value))
          && (s.refused == [] ==> s.h.waitFor == cfg.idleTimeout)
          && s.h.acceptedAtWait == |s.h.accepted|)
    && (s.pc == Expired ==>
          && s.h.waitFor.Some? && s.h.waitFrom + s.h.waitFor.value < s.now
          && (s.refused == [] ==> s.h.waitFor == cfg.idleTimeout)
          && s.h.acceptedAtWait == |s.h.accepted|)
    && (s.idle ==>
          && (s.pc == Test || s.pc.Unwinding? || s.pc.Finally? || s.pc.Done?)
          && s.refused == []
          && s.h.idleAt.Some? && s.h.idleAt.value <= s.now
          && s.h.waitFor == cfg.idleTimeout && cfg.idleTimeout.Some?
          && s.h.waitFrom + cfg.idleTimeout.value < s.h.idleAt.value
          && s.h.acceptedAtWait == |s.h.accepted|)
  }

  // ---------------------------------------------------------------------------------------------
  // The refused queue

  /** How far the current operation on the queue has come. */
  datatype Phase =
    | Whole                                // no operation under way
    | Evict(c: Conn)                       // _refuse has appended c
    | Newest(c: Conn)                      // c has been refused and is about to be shut down
    | Reap(cutoff: int, i: nat)            // _reap has looked at i entries
    | Broken                               // an operation may have been cut short by a signal

  /** The part of a state that the queue of refused connections depends on. */
  datatype Queue = Queue(phase: Phase, now: int, refused: seq<Entry>,
                         refusals: seq<Entry>, closes: seq<Close>, lastReap: Option<int>)

  function PhaseAt(pc: PC): Phase {
    if pc.Evicting? then Evict(pc.c)
    else if pc.ShutRefused? then Newest(pc.c)
    else if pc.Reaping? then Reap(pc.cutoff, pc.i)
    else if Raised(pc) then Broken
    else Whole
  }

  function QueueOf(s: State): Queue {
    Queue(PhaseAt(s.pc), s.now, s.refused, s.h.refusals, s.h.closes, s.h.lastReap)
  }

  ghost predicate HoldsUpTo(q: Queue, cap: nat) {
    HeldExactly(q.refused, q.refusals, q.lastReap, cap)
  }

  ghost predicate QueueShape(q: Queue) {
    match q.phase
    case Evict(c) => HoldsUpTo(q, REFUSE_MAX) || HoldsUpTo(q, REFUSE_MAX + 1)
    case Broken => HoldsUpTo(q, REFUSE_MAX) || HoldsUpTo(q, REFUSE_MAX + 1)
    case _ => HoldsUpTo(q, REFUSE_MAX)
  }

  ghost predicate NewestHeld(q: Queue) {
    q.phase.Evict? || q.phase.Newest? ==> q.refused != [] && q.refused[|q.refused| - 1].conn == q.phase.c
  }

  /** Refused connections are closed in the order they were refused, and those not yet closed are
      the ones held; only the closing loop of `_reap` runs ahead of the queue. */
  ghost predicate ClosesShape(q: Queue) {
    var gone := |q.refusals| - |q.refused|;
    match q.phase
    case Reap(cutoff, i) => i <= |q.refused| && |q.closes| == gone + Min(i, ExpiredCount(q.refused, cutoff))
    case Broken => gone <= |q.closes|
    case _ => |q.closes| == gone
  }

  ghost predicate Clocked(q: Queue) {
    && Sorted(q.refusals)
    && (forall k :: 0 <= k < |q.refusals| ==> q.refusals[k].deadline <= q.now + REFUSE_LINGER)
    && (q.lastReap.Some? ==> q.lastReap.value <= q.now)
    && (q.phase.Reap? ==> q.phase.cutoff <= q.now && (q.lastReap.Some? ==> q.lastReap.value <= q.phase.cutoff))
  }

  /** The k-th close is of the k-th refusal, and comes early only when the cap forces it. */
  ghost predicate ClosesInOrder(q: Queue) {
    && |q.closes| <= |q.refusals|
    && forall k :: 0 <= k < |q.closes| ==>
                     && q.closes[k].conn == q.refusals[k].conn
                     && q.closes[k].at <= q.now
                     && (q.refusals[k].deadline <= q.closes[k].at || k + REFUSE_MAX < |q.refusals|)
  }

  ghost predicate QueueOk(q: Queue) {
    && |q.refused| <= |q.refusals|
    && Clocked(q) && QueueShape(q) && NewestHeld(q) && ClosesShape(q) && ClosesInOrder(q)
  }

  ghost predicate QueueInv(s: State) {
    QueueOk(QueueOf(s))
  }

  lemma RefusedIsSuffix(q: Queue)
    requires QueueOk(q)
    ensures q.refused == q.refusals[|q.refusals| - |q.refused|..]
    ensures Sorted(q.refused)
    ensures |q.refused| <= REFUSE_MAX + 1
    ensures !q.phase.Evict? && !q.phase.Broken? ==> |q.refused| <= REFUSE_MAX
  {
    assert q.phase.Evict? || q.phase.Broken? || HoldsUpTo(q, REFUSE_MAX);
    if q.refused != [] {
      var head := q.refusals[|q.refusals| - |q.refused|];
      assert Live(head, q.lastReap);
    }
  }

  lemma TickKeepsQueue(q: Queue, dt: nat)
    requires QueueOk(q)
    ensures QueueOk(q.(now := q.now + dt))
  {
  }

  lemma BreakKeepsQueue(q: Queue)
    requires QueueOk(q)
    ensures QueueOk(q.(phase := Broken))
  {
  }

  lemma RefuseKeepsQueue(q: Queue, c: Conn)
    requires QueueOk(q) && q.phase == Whole
    ensures var e := Entry(c, q.now + REFUSE_LINGER);
            QueueOk(q.(phase := Evict(c), refused := q.refused + [e], refusals := q.refusals + [e]))
  {
    var e := Entry(c, q.now + REFUSE_LINGER);
    HeldAfterAppend(q.refused, q.refusals, q.lastReap, e, q.refused + [e], q.refusals + [e]);
  }

  lemma EvictionKeepsQueue(q: Queue)
    requires QueueOk(q) && q.phase.Evict? && REFUSE_MAX < |q.refused|
    ensures QueueOk(q.(refused := q.refused[1..], closes := q.closes + [Close(q.refused[0].conn, q.now)]))
  {
    RefusedIsSuffix(q);
    var gone := |q.refusals| - |q.refused|;
    assert q.refused[0] == q.refusals[gone];
    assert Live(q.refusals[gone], q.lastReap) || !Live(q.refusals[gone], q.lastReap);
    HeldAfterEviction(q.refused, q.refusals, q.lastReap);
  }

  lemma EvictionEnds(q: Queue)
    requires QueueOk(q) && q.phase.Evict? && |q.refused| <= REFUSE_MAX
    ensures QueueOk(q.(phase := Newest(q.phase.c)))
  {
    if HoldsUpTo(q, REFUSE_MAX + 1) {
      HeldAfterEviction(q.refused, q.refusals, q.lastReap);
    }
  }

  /** The k-th refusal is the one the closing loop looks at when it has looked at i entries. */
  lemma DueEntry(q: Queue)
    requires QueueOk(q) && q.phase.Reap? && q.phase.i < |q.refused|
    ensures var e, k := q.refused[q.phase.i], |q.refusals| - |q.refused| + q.phase.i;
            && e == q.refusals[k]
            && (e.deadline <= q.phase.cutoff <==> q.phase.i < ExpiredCount(q.refused, q.phase.cutoff))
            && (e.deadline <= q.phase.cutoff ==> |q.closes| == k && q.phase.cutoff <= q.now)
  {
    RefusedIsSuffix(q);
    ExpiredIsPrefix(q.refused, q.phase.cutoff);
  }

  lemma CloseKeepsQueue(q: Queue)
    requires QueueOk(q) && q.phase.Reap? && q.phase.i < |q.refused|
    ensures var e, i := q.refused[q.phase.i], q.phase.i;
            var closes := if e.deadline <= q.phase.cutoff then q.closes + [Close(e.conn, q.now)] else q.closes;
            QueueOk(q.(phase := Reap(q.phase.cutoff, i + 1), closes := closes))
  {
    DueEntry(q);
  }

  lemma ReapKeepsQueue(q: Queue)
    requires QueueOk(q) && q.phase.Reap? && q.phase.i == |q.refused|
    ensures QueueOk(q.(phase := Whole, refused := Unexpired(q.refused, q.phase.cutoff),
                    lastReap := Some(q.phase.cutoff)))
  {
    RefusedIsSuffix(q);
    ExpiredIsPrefix(q.refused, q.phase.cutoff);
    HeldAfterReap(q.refused, q.refusals, q.lastReap, q.phase.cutoff);
  }

  /** The moves that leave the entries alone. */
  ghost predicate QueueStays(q: Queue, q': Queue) {
    || q' == q
    || (q' == q.(now := q'.now) && q.now <= q'.now)
    || q' == q.(phase := Broken)
    || (q.phase == Whole && q' == q.(phase := Reap(q.now, 0)))
    || (q.phase.Newest? && q' == q.(phase := Whole))
  }

  /** What a step of the serve loop may do to the queue. */
  ghost predicate QueueMove(q: Queue, q': Queue) {
    || QueueStays(q, q')
    || (exists c :: QueueRefuses(q, q', c))
    || QueueEvicts(q, q')
    || QueueReaps(q, q')
  }

  ghost predicate QueueRefuses(q: Queue, q': Queue, c: Conn) {
    var e := Entry(c, q.now + REFUSE_LINGER);
    q.phase == Whole && q' == q.(phase := Evict(c), refused := q.refused + [e], refusals := q.refusals + [e])
  }

  ghost predicate QueueEvicts(q: Queue, q': Queue) {
    && q.phase.Evict?
    && if REFUSE_MAX < |q.refused|
       then q' == q.(refused := q.refused[1..], closes := q.closes + [Close(q.refused[0].conn, q.now)])
       else q' == q.(phase := Newest(q.phase.c))
  }

  ghost predicate QueueReaps(q: Queue, q': Queue) {
    && q.phase.Reap?
    && if q.phase.i < |q.refused| then
         var e := q.refused[q.phase.i];
         var closes := if e.deadline <= q.phase.cutoff then q.closes + [Close(e.conn, q.now)] else q.closes;
         q' == q.(phase := Reap(q.phase.cutoff, q.phase.i + 1), closes := closes)
       else
         q' == q.(phase := Whole, refused := Unexpired(q.refused, q.phase.cutoff), lastReap := Some(q.phase.cutoff))
  }

  lemma EvictingKeepsQueue(q: Queue, q': Queue)
    requires QueueOk(q) && QueueEvicts(q, q')
    ensures QueueOk(q')
  {
    if REFUSE_MAX < |q.refused| {
      EvictionKeepsQueue(q);
    } else {
      EvictionEnds(q);
    }
  }

  lemma ReapingKeepsQueue(q: Queue, q': Queue)
    requires QueueOk(q) && QueueReaps(q, q')
    ensures QueueOk(q')
  {
    if q.phase.i < |q.refused| {
      CloseKeepsQueue(q);
    } else {
      ReapKeepsQueue(q);
    }
  }

  lemma StayingKeepsQueue(q: Queue, q': Queue)
    requires QueueOk(q) && QueueStays(q, q')
    ensures QueueOk(q')
  {
    if q' == q.(phase := Broken) {
      BreakKeepsQueue(q);
    } else if q.phase != q'.phase {
      PhaseKeepsQueue(q, q');
    } else {
      TickKeepsQueue(q, q'.now - q.now);
    }
  }

  lemma MoveKeepsQueue(q: Queue, q': Queue)
    requires QueueOk(q) && QueueMove(q, q')
    ensures QueueOk(q')
  {
    if QueueEvicts(q, q') {
      EvictingKeepsQueue(q, q');
    } else if QueueReaps(q, q') {
      ReapingKeepsQueue(q, q');
    } else if c :| QueueRefuses(q, q', c) {
      RefuseKeepsQueue(q, c);
    } else {
      StayingKeepsQueue(q, q');
    }
  }

  lemma PhaseKeepsQueue(q: Queue, q': Queue)
    requires QueueOk(q)
    requires (q.phase == Whole && q' == q.(phase := Reap(q.now, 0))) || (q.phase.Newest? && q' == q.(phase := Whole))
    ensures QueueOk(q')
  {
  }

  // ---------------------------------------------------------------------------------------------
  // The ledger of accepted connections

  ghost function Permitted(cfg: Config, cs: seq<Conn>): seq<Conn> {
    if cs == [] then []
    else
      var c := cs[|cs| - 1];
      Permitted(cfg, cs[..|cs| - 1]) + if Allowed(cfg, c) then [c] else []
  }

  ghost function Rejected(cfg: Config, cs: seq<Conn>): seq<Conn> {
    if cs == [] then []
    else
      var c := cs[|cs| - 1];
      Rejected(cfg, cs[..|cs| - 1]) + if Allowed(cfg, c) then [] else [c]
  }

  lemma LedgerAppend(cfg: Config, cs: seq<Conn>, c: Conn)
    ensures Permitted(cfg, cs + [c]) == Permitted(cfg, cs) + if Allowed(cfg, c) then [c] else []
    ensures Rejected(cfg, cs + [c]) == Rejected(cfg, cs) + if Allowed(cfg, c) then [] else [c]
  {
    assert (cs + [c])[..|cs|] == cs;
  }

  lemma {:induction false} LedgerMembers(cfg: Config, cs: seq<Conn>)
    ensures forall c :: c in Permitted(cfg, cs) <==> c in cs && Allowed(cfg, c)
    ensures forall c :: c in Rejected(cfg, cs) <==> c in cs && !Allowed(cfg, c)
  {
    if cs != [] {
      var init, c := cs[..|cs| - 1], cs[|cs| - 1];
      LedgerMembers(cfg, init);
      assert cs == init + [c];
    }
  }

  lemma {:induction false} LedgerSum(cfg: Config, cs: seq<Conn>)
    ensures multiset(cs) == multiset(Permitted(cfg, cs)) + multiset(Rejected(cfg, cs))
  {
    if cs != [] {
      var init, c := cs[..|cs| - 1], cs[|cs| - 1];
      LedgerSum(cfg, init);
      OneMore(init, c);
      assert cs == init + [c];
      if Allowed(cfg, c) {
        OneMore(Permitted(cfg, init), c);
      } else {
        OneMore(Rejected(cfg, init), c);
      }
    }
  }

  lemma OneMore(cs: seq<Conn>, c: Conn)
    ensures multiset(cs + [c]) == multiset(cs) + multiset{c}
    ensures cs + [] == cs
  {
  }

  /** What has become of the connection accepted last. */
  datatype Stage =
    | Filed                // handed to the handler and shut down, or refused
    | Pending(c: Conn)     // accepted, neither handed on nor refused yet
    | InHand(c: Conn)      // handed to the handler, not shut down yet
    | Lost                 // possibly dropped by a signal

  /** The part of a state that accounts for accepted connections. */
  datatype Ledger = Ledger(stage: Stage, accepted: seq<Conn>, processed: seq<Conn>,
                           turnedAway: seq<Conn>, shut: seq<Conn>)

  function StageAt(pc: PC): Stage {
    if pc.Verify? || pc.Refusing? || pc.Admit? then Pending(pc.c)
    else if pc.Serving? || pc.Closing? || pc.Failed? then InHand(pc.c)
    else if Raised(pc) then Lost
    else Filed
  }

  ghost function LedgerOf(s: State): Ledger {
    Ledger(StageAt(s.pc), s.h.accepted, s.h.processed, Conns(s.h.refusals), s.h.shut)
  }

  ghost function Earlier(cs: seq<Conn>): seq<Conn> {
    if cs == [] then [] else cs[..|cs| - 1]
  }

  ghost predicate FiledAs(cfg: Config, g: Ledger, cs: seq<Conn>) {
    g.processed == Permitted(cfg, cs) && g.turnedAway == Rejected(cfg, cs)
  }

  ghost predicate DistinctIds(cs: seq<Conn>) {
    forall i, j :: 0 <= i < j < |cs| ==> cs[i].id != cs[j].id
  }

  ghost predicate LedgerOk(cfg: Config, g: Ledger) {
    && DistinctIds(g.accepted)
    && match g.stage
       case Filed => FiledAs(cfg, g, g.accepted) && g.processed == g.shut
       case Pending(c) =>
         g.accepted == Earlier(g.accepted) + [c] && FiledAs(cfg, g, Earlier(g.accepted)) && g.processed == g.shut
       case InHand(c) => FiledAs(cfg, g, g.accepted) && g.processed == g.shut + [c]
       case Lost => FiledAs(cfg, g, g.accepted) || FiledAs(cfg, g, Earlier(g.accepted))
  }

  ghost predicate LedgerInv(cfg: Config, s: State) {
    LedgerOk(cfg, LedgerOf(s)) && GateInv(cfg, s.pc)
  }

  /** Only a permitted connection is let through, and only another one is refused. */
  ghost predicate GateInv(cfg: Config, pc: PC) {
    && (pc.Admit? ==> Allowed(cfg, pc.c))
    && (pc.Refusing? ==> !Allowed(cfg, pc.c))
  }

  lemma InHandNotTurnedAway(cfg: Config, g: Ledger)
    requires LedgerOk(cfg, g) && g.stage.InHand?
    ensures g.stage.c !in g.turnedAway
  {
    LedgerMembers(cfg, g.accepted);
    assert g.processed[|g.shut|] == g.stage.c;
  }

  /** A connection handed to the handler is never in the refused queue. */
  lemma ProcessedNotHeld(cfg: Config, s: State)
    requires LedgerInv(cfg, s) && QueueInv(s) && StageAt(s.pc).InHand?
    ensures !Holds(s.refused, s.pc.c)
  {
    InHandNotTurnedAway(cfg, LedgerOf(s));
    RefusedWereTurnedAway(QueueOf(s));
  }

  lemma RefusedWereTurnedAway(q: Queue)
    requires QueueOk(q)
    ensures forall i :: 0 <= i < |q.refused| ==> q.refused[i].conn in Conns(q.refusals)
  {
    RefusedIsSuffix(q);
    forall i | 0 <= i < |q.refused|
      ensures q.refused[i].conn in Conns(q.refusals)
    {
      assert Conns(q.refusals)[|q.refusals| - |q.refused| + i] == q.refused[i].conn;
    }
  }

  /** What a step of the serve loop may do to the ledger. */
  ghost predicate LedgerMove(cfg: Config, g: Ledger, g': Ledger) {
    || g' == g
    || g' == g.(stage := Lost, shut := g'.shut)
    || (g.stage == Filed && exists c :: LedgerAccepts(g, g', c))
    || (g.stage.Pending? && if Allowed(cfg, g.stage.c)
                            then g' == g.(stage := InHand(g.stage.c), processed := g.processed + [g.stage.c])
                            else g' == g.(stage := Filed, turnedAway := g.turnedAway + [g.stage.c]))
    || (g.stage.InHand? && g' == g.(stage := Filed, shut := g.shut + [g.stage.c]))
  }

  ghost predicate LedgerAccepts(g: Ledger, g': Ledger, c: Conn) {
    && (forall i :: 0 <= i < |g.accepted| ==> g.accepted[i].id != c.id)
    && g' == g.(stage := Pending(c), accepted := g.accepted + [c])
  }

  lemma MoveKeepsLedger(cfg: Config, g: Ledger, g': Ledger)
    requires LedgerOk(cfg, g) && LedgerMove(cfg, g, g')
    ensures LedgerOk(cfg, g')
  {
    if g.stage.Pending? {
      LedgerAppend(cfg, Earlier(g.accepted), g.stage.c);
    } else if g.stage == Filed && g'.stage.Pending? {
      assert Earlier(g'.accepted) == g.accepted;
    }
  }

  /** The newest refusal survives its own eviction loop. */
  lemma NewestIsHeld(s: State)
    requires QueueInv(s)
    ensures s.pc.ShutRefused? ==> Holds(s.refused, s.pc.c)
  {
    if s.pc.ShutRefused? {
      assert s.refused[|s.refused| - 1].conn == s.pc.c by { assert NewestHeld(QueueOf(s)); }
    }
  }

  // ---------------------------------------------------------------------------------------------
  // Every reachable state

  ghost predicate Inv(cfg: Config, s: State) {
    StopInv(s) && WaitInv(cfg, s) && QueueInv(s) && LedgerInv(cfg, s)
  }

  /** What a step has to find, apart from the queue and the ledger, and to leave behind. */
  ghost predicate Steady(cfg: Config, s: State) {
    StopInv(s) && WaitInv(cfg, s) && GateInv(cfg, s.pc)
  }

  ghost predicate BooksMove(cfg: Config, s: State, s': State) {
    QueueMove(QueueOf(s), QueueOf(s')) && LedgerMove(cfg, LedgerOf(s), LedgerOf(s'))
  }

  /** Neither the queue nor the ledger has changed. */
  ghost predicate SameBooks(s: State, s': State) {
    QueueOf(s') == QueueOf(s) && LedgerOf(s') == LedgerOf(s)
  }

  lemma SameIsMove(cfg: Config, s: State, s': State)
    requires SameBooks(s, s')
    ensures BooksMove(cfg, s, s')
  {
  }

  // The loop

  lemma TestKeeps(cfg: Config, s: State)
    requires Steady(cfg, s) && (s.pc == Test || s.pc == Choose)
    ensures Steady(cfg, LoopStep(cfg, s)) && SameBooks(s, LoopStep(cfg, s))
  {
  }

  lemma BeginKeeps(cfg: Config, s: State)
    requires Steady(cfg, s) && s.pc == Begin
    ensures Steady(cfg, LoopStep(cfg, s)) && SameBooks(s, LoopStep(cfg, s))
  {
  }

  lemma ExpiredKeeps(cfg: Config, s: State)
    requires Steady(cfg, s) && s.pc == Expired
    ensures Steady(cfg, LoopStep(cfg, s)) && SameBooks(s, LoopStep(cfg, s))
  {
  }

  lemma LoopStepKeeps(cfg: Config, s: State, s': State)
    requires Steady(cfg, s) && LoopCode(s.pc) && s' == LoopStep(cfg, s)
    ensures Steady(cfg, s') && BooksMove(cfg, s, s')
  {
    if s.pc == Begin {
      BeginKeeps(cfg, s);
    } else if s.pc == Expired {
      ExpiredKeeps(cfg, s);
    } else {
      TestKeeps(cfg, s);
    }
    SameIsMove(cfg, s, s');
  }

  // `_reap`

  lemma ReapStartMoves(s: State)
    requires s.pc.ReapStart?
    ensures QueueMove(QueueOf(s), QueueOf(ReapStep(s))) && LedgerOf(ReapStep(s)) == LedgerOf(s)
  {
  }

  lemma CloseMoves(s: State)
    requires s.pc.Reaping? && s.pc.i < |s.refused|
    ensures QueueReaps(QueueOf(s), QueueOf(ReapStep(s))) && LedgerOf(ReapStep(s)) == LedgerOf(s)
  {
  }

  lemma ReapEndMoves(s: State)
    requires s.pc.Reaping? && |s.refused| <= s.pc.i
    ensures QueueReaps(QueueOf(s), QueueOf(ReapStep(s))) && LedgerOf(ReapStep(s)) == LedgerOf(s)
  {
  }

  lemma ReapStepMoves(cfg: Config, s: State, s': State)
    requires ReapCode(s.pc) && s' == ReapStep(s)
    ensures BooksMove(cfg, s, s')
  {
    if s.pc.ReapStart? {
      ReapStartMoves(s);
    } else if s.pc.i < |s.refused| {
      CloseMoves(s);
    } else {
      ReapEndMoves(s);
    }
  }

  lemma ReapStepKeeps(cfg: Config, s: State)
    requires Steady(cfg, s) && ReapCode(s.pc)
    ensures Steady(cfg, ReapStep(s))
  {
  }

  // `verify_request` and `_refuse`

  lemma VerifyMoves(cfg: Config, s: State)
    requires s.pc.Verify?
    ensures SameBooks(s, RefuseStep(cfg, s))
  {
  }

  lemma RefusingMoves(cfg: Config, s: State, s': State)
    requires s.pc.Refusing? && !Allowed(cfg, s.pc.c) && s' == RefuseStep(cfg, s)
    ensures QueueRefuses(QueueOf(s), QueueOf(s'), s.pc.c) && LedgerMove(cfg, LedgerOf(s), LedgerOf(s'))
  {
    assert Conns(s'.h.refusals) == Conns(s.h.refusals) + [s.pc.c];
  }

  lemma EvictingMoves(cfg: Config, s: State, s': State)
    requires s.pc.Evicting? && s' == RefuseStep(cfg, s)
    ensures QueueEvicts(QueueOf(s), QueueOf(s')) && LedgerOf(s') == LedgerOf(s)
  {
  }

  lemma ShutRefusedMoves(cfg: Config, s: State, s': State)
    requires s.pc.ShutRefused? && Holds(s.refused, s.pc.c) && s' == RefuseStep(cfg, s)
    ensures QueueMove(QueueOf(s), QueueOf(s')) && LedgerOf(s') == LedgerOf(s)
  {
  }

  lemma RefuseStepMoves(cfg: Config, s: State, s': State)
    requires RefuseCode(s.pc) && GateInv(cfg, s.pc) && s' == RefuseStep(cfg, s)
    requires s.pc.ShutRefused? ==> Holds(s.refused, s.pc.c)
    ensures BooksMove(cfg, s, s')
  {
    if s.pc.Verify? {
      VerifyMoves(cfg, s);
      SameIsMove(cfg, s, s');
    } else if s.pc.Refusing? {
      RefusingMoves(cfg, s, s');
    } else if s.pc.Evicting? {
      EvictingMoves(cfg, s, s');
    } else {
      ShutRefusedMoves(cfg, s, s');
    }
  }

  lemma RefuseStepKeeps(cfg: Config, s: State)
    requires Steady(cfg, s) && RefuseCode(s.pc)
    ensures Steady(cfg, RefuseStep(cfg, s))
  {
  }

  // Requests, and the ways out

  lemma AdmitKeeps(cfg: Config, s: State, s': State)
    requires Steady(cfg, s) && s.pc.Admit? && s' == RequestStep(s)
    ensures Steady(cfg, s') && QueueOf(s') == QueueOf(s) && LedgerMove(cfg, LedgerOf(s), LedgerOf(s'))
  {
  }

  lemma ShutKeeps(cfg: Config, s: State, s': State)
    requires Steady(cfg, s) && (s.pc.Closing? || s.pc.Failed?) && !Holds(s.refused, s.pc.c) && s' == RequestStep(s)
    ensures Steady(cfg, s') && QueueOf(s') == QueueOf(s) && LedgerMove(cfg, LedgerOf(s), LedgerOf(s'))
  {
  }

  lemma LeaveKeeps(cfg: Config, s: State, s': State)
    requires Steady(cfg, s) && (s.pc.Leaving? || s.pc.Left?) && s' == RequestStep(s)
    ensures Steady(cfg, s') && SameBooks(s, s')
  {
  }

  lemma ShutUnwindingKeeps(cfg: Config, s: State, s': State)
    requires Steady(cfg, s) && s.pc.Unwinding? && s.pc.pending.Some? && s' == RequestStep(s)
    ensures Steady(cfg, s') && QueueOf(s') == QueueOf(s) && LedgerMove(cfg, LedgerOf(s), LedgerOf(s'))
  {
  }

  lemma UnwindKeeps(cfg: Config, s: State, s': State)
    requires Steady(cfg, s) && (s.pc == Unwinding(None) || s.pc.Finally?) && s' == RequestStep(s)
    ensures Steady(cfg, s') && SameBooks(s, s')
  {
  }

  lemma RequestStepKeeps(cfg: Config, s: State, s': State)
    requires Steady(cfg, s) && Enabled(s, Advance) && s' == RequestStep(s)
    requires !LoopCode(s.pc) && !ReapCode(s.pc) && !RefuseCode(s.pc)
    requires StageAt(s.pc).InHand? ==> !Holds(s.refused, s.pc.c)
    ensures Steady(cfg, s') && BooksMove(cfg, s, s')
  {
    if s.pc.Admit? {
      AdmitKeeps(cfg, s, s');
    } else if s.pc.Closing? || s.pc.Failed? {
      ShutKeeps(cfg, s, s');
    } else if s.pc.Leaving? || s.pc.Left? {
      LeaveKeeps(cfg, s, s');
      SameIsMove(cfg, s, s');
    } else if s.pc.Unwinding? && s.pc.pending.Some? {
      ShutUnwindingKeeps(cfg, s, s');
    } else {
      UnwindKeeps(cfg, s, s');
      SameIsMove(cfg, s, s');
    }
  }

  // Signals, time and the network

  lemma DeliveryKeeps(cfg: Config, s: State, sig: Signal, s': State)
    requires Steady(cfg, s) && Enabled(s, Deliver(sig)) && s' == Stop(s, sig)
    ensures Steady(cfg, s') && BooksMove(cfg, s, s')
  {
  }

  lemma TickKeeps(cfg: Config, s: State, dt: nat)
    requires Steady(cfg, s)
    ensures var s' := s.(now := s.now + dt);
            Steady(cfg, s') && BooksMove(cfg, s, s')
  {
  }

  lemma WaitEndKeeps(cfg: Config, s: State, l: Label, s': State)
    requires Steady(cfg, s) && (l == Ready || l == Expire) && IsStep(cfg, s, l, s')
    ensures Steady(cfg, s') && SameBooks(s, s')
  {
  }

  lemma AcceptKeeps(cfg: Config, s: State, l: Label, s': State)
    requires Steady(cfg, s) && l.Accepts? && IsStep(cfg, s, l, s')
    ensures Steady(cfg, s') && BooksMove(cfg, s, s')
  {
    assert LedgerAccepts(LedgerOf(s), LedgerOf(s'), l.c);
  }

  lemma HandlerEndKeeps(cfg: Config, s: State, l: Label, s': State)
    requires Steady(cfg, s) && (l == AcceptError || l == Finish || l == Fail) && IsStep(cfg, s, l, s')
    ensures Steady(cfg, s') && SameBooks(s, s')
  {
  }

  lemma EnvironmentKeeps(cfg: Config, s: State, l: Label, s': State)
    requires Steady(cfg, s) && !l.Advance? && IsStep(cfg, s, l, s')
    ensures Steady(cfg, s') && BooksMove(cfg, s, s')
  {
    if l.Deliver? {
      DeliveryKeeps(cfg, s, l.sig, s');
    } else if l.Tick? {
      TickKeeps(cfg, s, l.dt);
    } else if l.Accepts? {
      AcceptKeeps(cfg, s, l, s');
    } else if l == Ready || l == Expire {
      WaitEndKeeps(cfg, s, l, s');
      SameIsMove(cfg, s, s');
    } else {
      HandlerEndKeeps(cfg, s, l, s');
      SameIsMove(cfg, s, s');
    }
  }

  /** One step, seen by each part of the invariant. */
  lemma StepKeeps(cfg: Config, s: State, l: Label, s': State)
    requires Steady(cfg, s) && IsStep(cfg, s, l, s')
    requires s.pc.ShutRefused? ==> Holds(s.refused, s.pc.c)
    requires StageAt(s.pc).InHand? ==> !Holds(s.refused, s.pc.c)
    ensures Steady(cfg, s') && BooksMove(cfg, s, s')
  {
    if !l.Advance? {
      EnvironmentKeeps(cfg, s, l, s');
    } else if LoopCode(s.pc) {
      LoopStepKeeps(cfg, s, s');
    } else if ReapCode(s.pc) {
      ReapStepKeeps(cfg, s);
      ReapStepMoves(cfg, s, s');
    } else if RefuseCode(s.pc) {
      RefuseStepKeeps(cfg, s);
      RefuseStepMoves(cfg, s, s');
    } else {
      RequestStepKeeps(cfg, s, s');
    }
  }

  /** The two connections that `shutdown_request` asks about are where they ought to be. */
  lemma ShutdownsAgree(cfg: Config, s: State)
    requires QueueInv(s) && LedgerInv(cfg, s)
    ensures s.pc.ShutRefused? ==> Holds(s.refused, s.pc.c)
    ensures StageAt(s.pc).InHand? ==> !Holds(s.refused, s.pc.c)
  {
    NewestIsHeld(s);
    if StageAt(s.pc).InHand? {
      ProcessedNotHeld(cfg, s);
    }
  }

  lemma BooksKept(cfg: Config, s: State, s': State)
    requires QueueInv(s) && LedgerInv(cfg, s) && BooksMove(cfg, s, s') && GateInv(cfg, s'.pc)
    ensures QueueInv(s') && LedgerInv(cfg, s')
  {
    MoveKeepsQueue(QueueOf(s), QueueOf(s'));
    MoveKeepsLedger(cfg, LedgerOf(s), LedgerOf(s'));
  }

  lemma InvKept(cfg: Config, s: State, l: Label, s': State)
    requires Inv(cfg, s) && IsStep(cfg, s, l, s')
    ensures Inv(cfg, s')
  {
    ShutdownsAgree(cfg, s);
    StepKeeps(cfg, s, l, s');
    BooksKept(cfg, s, s');
  }

  lemma InitialInv(cfg: Config, now: int)
    ensures Inv(cfg, Initial(now))
  {
    assert Conns([]) == [];
  }

  lemma {:induction false} ReachableInv(cfg: Config, r: Run, i: nat)
    requires IsRun(cfg, r) && i < |r.states|
    ensures Inv(cfg, r.states[i])
  {
    if i > 0 {
      ReachableInv(cfg, r, i - 1);
      StepOf(cfg, r, i - 1);
      InvKept(cfg, r.states[i - 1], r.labels[i - 1], r.states[i]);
    } else {
      InitialInv(cfg, r.states[0].now);
    }
  }

  lemma ReachableStopInv(cfg: Config, r: Run, i: nat)
    requires IsRun(cfg, r) && i < |r.states|
    ensures StopInv(r.states[i])
  {
    ReachableInv(cfg, r, i);
  }

  lemma ReachableQueueOk(cfg: Config, r: Run, i: nat)
    requires IsRun(cfg, r) && i < |r.states|
    ensures QueueOk(QueueOf(r.states[i]))
  {
    ReachableInv(cfg, r, i);
  }

  lemma ReachableLedgerOk(cfg: Config, r: Run, i: nat)
    requires IsRun(cfg, r) && i < |r.states|
    ensures LedgerOk(cfg, LedgerOf(r.states[i]))
  {
    ReachableInv(cfg, r, i);
  }
}
