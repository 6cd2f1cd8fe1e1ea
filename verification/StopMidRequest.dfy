/** A stop signal while a response is being sent: what the run of the serve loop and the writing of
    the response mean together for the client, which is what t/scripts/stop_midrequest.py is about. */
module StopMidRequest {
  import opened Prelude
  import opened ServeProtocol
  import opened ServeInvariants
  import opened ServeTheorems
  import opened Framing
  import opened Responses

  /** The handler's last step: it returns, fails, or is unwound. */
  ghost predicate HandlerEnds(r: Run, e: nat)
    requires |r.states| == |r.labels| + 1
  {
    e < |r.labels| && r.states[e].pc.Serving? && !r.states[e + 1].pc.Serving?
  }

  /** How `_send` went, with `n` of `length` bytes written, and how the handler ended after it. A
      handler whose response is out, or whose client is gone, may end in any way; a KeyboardInterrupt
      in the middle of a write comes from a delivered signal, and any other failure is passed on. */
  predicate Ends(l: Label, failure: Option<Failure>, n: nat, length: nat) {
    match failure
    case None => n == length
    case Some(BrokenPipe) => n < length
    case Some(Interrupted) => n < length && l.Deliver?
    case Some(_) => n < length && l == Fail
  }

  /** The grace period that began with the first stop signal is over. */
  predicate GraceOver(s: State) {
    s.h.firstStop.Some? && s.h.firstStop.value + STOP_GRACE <= s.now
  }

  /** With at most one signal from outside, a response is interrupted only by the timer, when the
      grace period is over. */
  lemma InterruptedOnlyByTimer(cfg: Config, r: Run, e: nat)
    requires IsRun(cfg, r) && HandlerEnds(r, e) && r.labels[e].Deliver?
    requires ExternalSignals(r.labels[..e + 1]) <= 1
    ensures r.labels[e] == Deliver(Alarm) && GraceOver(r.states[e])
  {
    var s := r.states[e];
    ReachableStopInv(cfg, r, e);
    StepOf(cfg, r, e);
    SignalRaisesUnlessServing(cfg, r, e);
    ExternalsCounted(cfg, r, e);
    assert r.labels[..e + 1][..e] == r.labels[..e];
  }

  function CheckReceived(pieces: seq<string>, complete: string -> bool): Option<Result<string, ReadError>> {
    var raw := Received(Arrivals(pieces));
    if raw.None? then None else Some(Check(raw.value, complete))
  }

  lemma CheckOfPieces(pieces: seq<string>, raw: string, complete: string -> bool)
    requires Concat(pieces) == raw && forall i :: 0 <= i < |pieces| ==> pieces[i] != ""
    ensures CheckReceived(pieces, complete) == Some(Check(raw, complete))
  {
    PiecesDoNotMatter(pieces);
  }

  /** The client's verdict on any part of a 200 response with a complete body. */
  lemma ClientVerdict(status: string, base: seq<Header>, data: string, extra: seq<Header>,
                      n: nat, pieces: seq<string>, complete: string -> bool)
    requires Clean(status) && Contains(status, "200") && GoodHeaders(base) && GoodHeaders(extra)
    requires NamesNoLength(base) && NamesNoLength(extra) && complete(data)
    requires n <= |Frame(status, SendHeaders(base, data, extra), data)|
    requires Concat(pieces) == Frame(status, SendHeaders(base, data, extra), data)[..n]
    requires forall i :: 0 <= i < |pieces| ==> pieces[i] != ""
    ensures var c, whole := CheckReceived(pieces, complete), |Frame(status, SendHeaders(base, data, extra), data)|;
            c.Some? && (c.value.Ok? <==> n == whole) && (c.value.Ok? ==> c.value.value == data)
  {
    CheckOfPieces(pieces, Frame(status, SendHeaders(base, data, extra), data)[..n], complete);
    CheckAcceptsOnlyWhole(status, base, data, extra, n, complete);
  }

  /** The point of the stop protocol: if at most one signal is sent from outside, and the handler ends
      before the grace period is over or with its response out, a client that keeps reading accepts
      the response and has its whole body, wherever in the request the signal came and however the
      network cut up what was sent. What is not accepted was interrupted by the timer. */
  lemma SignalledClientReadsWhole(cfg: Config, r: Run, e: nat, failure: Option<Failure>,
                                  status: string, base: seq<Header>, data: string, extra: seq<Header>,
                                  n: nat, pieces: seq<string>, complete: string -> bool)
    requires IsRun(cfg, r) && HandlerEnds(r, e) && ExternalSignals(r.labels[..e + 1]) <= 1
    requires Clean(status) && Contains(status, "200") && GoodHeaders(base) && GoodHeaders(extra)
    requires NamesNoLength(base) && NamesNoLength(extra) && complete(data)
    requires failure.None? || failure.value == Interrupted
    requires Ends(r.labels[e], failure, n, |Frame(status, SendHeaders(base, data, extra), data)|)
    requires Concat(pieces) == Frame(status, SendHeaders(base, data, extra), data)[..n]
    requires forall i :: 0 <= i < |pieces| ==> pieces[i] != ""
    ensures failure.None? || !GraceOver(r.states[e]) ==> CheckReceived(pieces, complete) == Some(Ok(data))
    ensures CheckReceived(pieces, complete) == Some(Ok(data)) || r.labels[e] == Deliver(Alarm)
  {
    if failure.Some? {
      InterruptedOnlyByTimer(cfg, r, e);
    }
    ClientVerdict(status, base, data, extra, n, pieces, complete);
  }
}
