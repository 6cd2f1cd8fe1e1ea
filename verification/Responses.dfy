/** The two writers of responses, `Handler._send` and `_forbidden_response`, and a client that
    receives what they wrote in pieces. */
module Responses {
  import opened Prelude
  import opened Digits
  import opened Framing

  const SERVER_NAME := "flux-rest-server"
  const FORBIDDEN := "HTTP/1.0 403 Forbidden"

  const JSON := Header("Content-Type", "application/json")
  const SERVER := Header("Server", SERVER_NAME)
  const CLOSE := Header("Connection", "close")

  /** The header fields of `_send`, after those that `send_response` starts with. */
  function SendHeaders(base: seq<Header>, data: string, extra: seq<Header>): seq<Header> {
    base + [JSON, Header("Content-Length", Decimal(|data|))] + extra
  }

  /** The answer of `_forbidden_response`, for any body built into it: type and length stand between two
      headers of its own. */
  function Refusal(body: string): string {
    Frame(FORBIDDEN, SendHeaders([SERVER], body, [CLOSE]), body)
  }

  predicate NamesNoLength(hs: seq<Header>) {
    forall i :: 0 <= i < |hs| ==> Lower(hs[i].name) != "content-length"
  }

  // ---------------------------------------------------------------------------------------------
  // Declared lengths

  lemma {:induction false} StripKeeps(s: string)
    requires AllDigits(s)
    ensures StripRight(StripLeft(" " + s)) == s
  {
    assert (" " + s)[1..] == s;
    assert s != [] ==> !IsSpace(s[0]) && !IsSpace(s[|s| - 1]);
    assert StripLeft(s) == s;
    assert StripRight(s) == s;
  }

  lemma DecimalReadsBack(n: nat)
    ensures ReadInt(" " + Decimal(n)) == Some(n)
  {
    StripKeeps(Decimal(n));
    ValueOfDecimal(n);
    assert IsDigit(Decimal(n)[0]);
  }

  lemma {:induction false} LengthUnchanged(a: seq<Header>, b: seq<Header>)
    requires NamesNoLength(b)
    ensures LengthOfHeaders(a + b) == LengthOfHeaders(a)
  {
    if b == [] {
      assert a + b == a;
    } else {
      var n := |b| - 1;
      assert (a + b)[..|a + b| - 1] == a + b[..n];
      LengthUnchanged(a, b[..n]);
    }
  }

  /** However it is surrounded, a single Content-Length header declares the length it was given. */
  lemma LengthDeclared(before: seq<Header>, n: nat, after: seq<Header>)
    requires NamesNoLength(before) && NamesNoLength(after)
    ensures LengthOfHeaders(before + [Header("Content-Length", Decimal(n))] + after) == Ok(Some(n))
  {
    var h := Header("Content-Length", Decimal(n));
    LengthUnchanged([], before);
    assert [] + before == before;
    var hs := before + [h];
    assert hs[..|hs| - 1] == before;
    LowerContentLength();
    DecimalReadsBack(n);
    LengthUnchanged(hs, after);
  }

  lemma LowerContentLength()
    ensures Lower("Content-Length") == "content-length"
  {
    var t := Lower("Content-Length");
    forall i | 0 <= i < |t|
      ensures t[i] == "content-length"[i]
    {
      assert t[i] == LowerChar("Content-Length"[i]);
    }
  }

  // ---------------------------------------------------------------------------------------------
  // What is printed can be read, and nothing less

  lemma DecimalIsClean(n: nat)
    ensures Clean(Decimal(n))
  {
  }

  lemma FixedHeadersGood()
    ensures GoodHeader(SERVER) && GoodHeader(JSON) && GoodHeader(CLOSE)
  {
  }

  lemma FixedNamesOther()
    ensures NamesNoLength([SERVER]) && NamesNoLength([JSON]) && NamesNoLength([CLOSE])
  {
    assert Lower("Server")[0] == 's' && Lower("Content-Type")[8] == 't' && Lower("Connection")[3] == 'n';
  }

  lemma LengthHeaderGood(n: nat)
    ensures GoodHeader(Header("Content-Length", Decimal(n)))
  {
    DecimalIsClean(n);
  }

  /** A response with the right declared length is accepted whole, and no proper prefix of it is. */
  lemma WholeOrRejected(status: string, hs: seq<Header>, body: string, n: nat)
    requires Clean(status) && status != "" && GoodHeaders(hs)
    requires LengthOfHeaders(hs) == Ok(Some(|body|))
    requires n <= |Frame(status, hs, body)|
    ensures var r := ReadFrame(Frame(status, hs, body)[..n]);
            && (r.Ok? <==> n == |Frame(status, hs, body)|)
            && (r.Ok? ==> r.value == Message(status, body))
  {
    var raw := Frame(status, hs, body);
    if n == |raw| {
      assert raw[..n] == raw;
      ReadsBack(status, hs, body);
    } else {
      EveryPrefixRejected(status, hs, body, n);
    }
  }

  lemma SendHeadersGood(base: seq<Header>, data: string, extra: seq<Header>)
    requires GoodHeaders(base) && GoodHeaders(extra)
    ensures GoodHeaders(SendHeaders(base, data, extra))
  {
    var hs := SendHeaders(base, data, extra);
    FixedHeadersGood();
    LengthHeaderGood(|data|);
    forall i | 0 <= i < |hs|
      ensures GoodHeader(hs[i])
    {
      if i >= |base| + 2 {
        assert hs[i] == extra[i - |base| - 2];
      }
    }
  }

  lemma SendHeadersLength(base: seq<Header>, data: string, extra: seq<Header>)
    requires NamesNoLength(base) && NamesNoLength(extra)
    ensures LengthOfHeaders(SendHeaders(base, data, extra)) == Ok(Some(|data|))
  {
    var length := Header("Content-Length", Decimal(|data|));
    assert SendHeaders(base, data, extra) == (base + [JSON]) + [length] + extra;
    FixedNamesOther();
    assert Lower(JSON.name) != "content-length" by {
      assert Lower([JSON][0].name) != "content-length";
    }
    LengthDeclared(base + [JSON], |data|, extra);
  }

  /** What `_send` prints, with extra headers that name no length, is accepted whole and only whole. */
  lemma SentReadsBack(status: string, base: seq<Header>, data: string, extra: seq<Header>, n: nat)
    requires Clean(status) && status != "" && GoodHeaders(base) && GoodHeaders(extra)
    requires NamesNoLength(base) && NamesNoLength(extra)
    requires n <= |Frame(status, SendHeaders(base, data, extra), data)|
    ensures var whole := Frame(status, SendHeaders(base, data, extra), data);
            && (ReadFrame(whole[..n]).Ok? <==> n == |whole|)
            && (ReadFrame(whole[..n]).Ok? ==> ReadFrame(whole[..n]).value == Message(status, data))
  {
    SendHeadersGood(base, data, extra);
    SendHeadersLength(base, data, extra);
    WholeOrRejected(status, SendHeaders(base, data, extra), data, n);
  }

  lemma TypeLine()
    ensures HeaderLine(JSON) == "Content-Type: application/json"
  {
    assert "Content-Type" + ": " == "Content-Type: ";
  }

  lemma LengthLine(n: nat)
    ensures HeaderLine(Header("Content-Length", Decimal(n))) == "Content-Length: " + Decimal(n)
  {
    assert "Content-Length" + ": " == "Content-Length: ";
  }

  lemma ServerAndCloseLines()
    ensures HeaderLines([SERVER]) == ["Server: flux-rest-server"]
    ensures HeaderLines([CLOSE]) == ["Connection: close"]
  {
    OneHeaderLine(SERVER);
    OneHeaderLine(CLOSE);
    assert HeaderLine(SERVER) == "Server: flux-rest-server" by {
      assert "Server" + ": " == "Server: ";
    }
    assert HeaderLine(CLOSE) == "Connection: close" by {
      assert "Connection" + ": " == "Connection: ";
    }
  }

  /** The lines of the two headers that every response has. */
  lemma OwnLines(n: nat)
    ensures HeaderLines([JSON, Header("Content-Length", Decimal(n))])
         == ["Content-Type: application/json", "Content-Length: " + Decimal(n)]
  {
    var length := Header("Content-Length", Decimal(n));
    TypeLine();
    LengthLine(n);
    OneHeaderLine(JSON);
    OneHeaderLine(length);
    HeaderLinesAppend([JSON], [length]);
    assert [JSON] + [length] == [JSON, length];
  }

  /** All headers of a response arrive: those that `send_response` starts with, the type and the length
      of the body, and those the caller gave, in this order and one line each. */
  lemma SentHeadersArrive(status: string, base: seq<Header>, data: string, extra: seq<Header>)
    requires Clean(status) && status != "" && GoodHeaders(base) && GoodHeaders(extra)
    ensures HeadLines(Frame(status, SendHeaders(base, data, extra), data))
         == HeaderLines(base)
            + ["Content-Type: application/json", "Content-Length: " + Decimal(|data|)]
            + HeaderLines(extra)
  {
    SendHeadersGood(base, data, extra);
    HeadersArrive(status, SendHeaders(base, data, extra), data);
    OwnLines(|data|);
    var own := [JSON, Header("Content-Length", Decimal(|data|))];
    HeaderLinesAppend(base, own);
    HeaderLinesAppend(base + own, extra);
  }

  /** The 403 sent before a request has been read is a well-formed response, and no proper prefix of
      it is, whatever body is built into it. */
  lemma ForbiddenReadsBack(body: string, n: nat)
    requires n <= |Refusal(body)|
    ensures var r := ReadFrame(Refusal(body)[..n]);
            && (r.Ok? <==> n == |Refusal(body)|)
            && (r.Ok? ==> r.value == Message("HTTP/1.0 403 Forbidden", body))
  {
    FixedHeadersGood();
    FixedNamesOther();
    SentReadsBack(FORBIDDEN, [SERVER], body, [CLOSE], n);
  }

  /** The header lines of the early 403. */
  lemma RefusalHeadersArrive(body: string)
    ensures HeadLines(Refusal(body))
         == ["Server: flux-rest-server"]
            + ["Content-Type: application/json", "Content-Length: " + Decimal(|body|)]
            + ["Connection: close"]
  {
    ForbiddenIsClean();
    SentHeadersArrive(FORBIDDEN, [SERVER], body, [CLOSE]);
    ServerAndCloseLines();
  }

  lemma ForbiddenIsClean()
    ensures Clean(FORBIDDEN) && FORBIDDEN != "" && GoodHeaders([SERVER]) && GoodHeaders([CLOSE])
  {
    FixedHeadersGood();
  }

  /** The client of the test takes the early 403 for what it is, a response with another status. */
  lemma RefusalIsBadStatus(body: string, complete: string -> bool)
    ensures Check(Refusal(body), complete) == Err(BadStatus)
  {
    FixedHeadersGood();
    SendHeadersGood([SERVER], body, [CLOSE]);
    assert '2' !in FORBIDDEN;
    forall i | 0 <= i <= |FORBIDDEN|
      ensures !OccursAt(FORBIDDEN, "200", i)
    {
      assert i + 3 <= |FORBIDDEN| ==> FORBIDDEN[i..i + 3][0] == FORBIDDEN[i];
    }
    BadStatusRejected(FORBIDDEN, SendHeaders([SERVER], body, [CLOSE]), body, complete);
  }

  // ---------------------------------------------------------------------------------------------
  // Writing

  /** Why a write came to nothing. `_send` passes over a broken pipe and nothing else; Interrupted is
      the KeyboardInterrupt that `_stop` raises. */
  datatype Failure = BrokenPipe | Reset | TimedOutWriting | Interrupted

  /** The request handler's output side. Any write may fail on the way. */
  class Handler {
    var headersBuffer: string
    var wfile: string

    constructor ()
      ensures headersBuffer == "" && wfile == ""
    {
      headersBuffer, wfile := "", "";
    }

    method SendHeader(h: Header)
      modifies `headersBuffer
      ensures headersBuffer == old(headersBuffer) + (HeaderLine(h) + CRLF)
    {
      headersBuffer := headersBuffer + (h.name + ": " + h.value + CRLF);
    }

    /** A write that fails has put out some proper part of the data. */
    method Write(data: string) returns (failure: Option<Failure>)
      modifies `wfile
      ensures failure.None? ==> wfile == old(wfile) + data
      ensures failure.Some? ==> old(wfile) <= wfile < old(wfile) + data
    {
      var accepted: nat :| true;
      if accepted < |data| {
        failure := *;
        if failure.None? {
          failure := Some(BrokenPipe);
        }
        wfile := wfile + data[..accepted];
      } else {
        failure := None;
        wfile := wfile + data;
      }
    }

    /** The part of `_send` up to `end_headers`, which leaves the head to be flushed. */
    method BuildHead(status: string, base: seq<Header>, length: nat, extra: seq<Header>)
      requires headersBuffer == ""
      modifies `headersBuffer
      ensures headersBuffer
           == status + CRLF + Fields(base + [JSON, Header("Content-Length", Decimal(length))] + extra) + CRLF
    {
      var own := [JSON, Header("Content-Length", Decimal(length))];
      headersBuffer := headersBuffer + (status + CRLF);
      assert headersBuffer == status + CRLF;
      SendAll(base);
      SendAll(own);
      SendAll(extra);
      headersBuffer := headersBuffer + CRLF;
      FieldsInTurn(status + CRLF, base, own, extra);
    }

    /** One `send_header` after the other, as the loop of `_send` does for the extra headers. */
    method SendAll(hs: seq<Header>)
      modifies `headersBuffer
      ensures headersBuffer == old(headersBuffer) + Fields(hs)
    {
      ghost var start := headersBuffer;
      var i := 0;
      assert start + Fields(hs[..0]) == start;
      while i < |hs|
        invariant 0 <= i <= |hs|
        invariant headersBuffer == start + Fields(hs[..i])
      {
        SendHeader(hs[i]);
        NextField(start, hs, i);
        i := i + 1;
      }
      assert hs[..|hs|] == hs;
    }

    /** `_send`: the response goes out whole, or a write fails and a proper prefix of it has gone out.
        A broken pipe is passed over, every other failure is passed on. */
    method Send(status: string, base: seq<Header>, data: string, extra: seq<Header>)
      returns (failure: Option<Failure>, raised: bool)
      requires headersBuffer == ""
      modifies this
      ensures var whole := Frame(status, SendHeaders(base, data, extra), data);
              && (failure.None? ==> wfile == old(wfile) + whole && headersBuffer == "")
              && (failure.Some? ==> old(wfile) <= wfile < old(wfile) + whole)
      ensures raised <==> failure.Some? && failure.value != BrokenPipe
    {
      BuildHead(status, base, |data|, extra);
      ghost var head := headersBuffer;
      failure := Write(headersBuffer);
      if failure.None? {
        headersBuffer := "";
        failure := Write(data);
      }
      Assoc(old(wfile), head, data);
      raised := failure.Some? && failure.value != BrokenPipe;
    }
  }

  lemma NextField(start: string, hs: seq<Header>, i: nat)
    requires i < |hs|
    ensures start + Fields(hs[..i]) + (HeaderLine(hs[i]) + CRLF) == start + Fields(hs[..i + 1])
  {
    var next := hs[..i + 1];
    assert next[..|next| - 1] == hs[..i];
    Assoc(start, Fields(hs[..i]), HeaderLine(hs[i]) + CRLF);
  }

  lemma {:induction false} FieldsAppend(a: seq<Header>, b: seq<Header>)
    ensures Fields(a + b) == Fields(a) + Fields(b)
  {
    if b == [] {
      assert a + b == a;
    } else {
      var n := |b| - 1;
      var last := HeaderLine(b[n]) + CRLF;
      assert (a + b)[..|a + b| - 1] == a + b[..n];
      FieldsAppend(a, b[..n]);
      Assoc(Fields(a), Fields(b[..n]), last);
    }
  }

  lemma FieldsAfter(start: string, a: seq<Header>, b: seq<Header>)
    ensures start + Fields(a) + Fields(b) == start + Fields(a + b)
  {
    FieldsAppend(a, b);
    Assoc(start, Fields(a), Fields(b));
  }

  lemma FieldsInTurn(start: string, a: seq<Header>, b: seq<Header>, c: seq<Header>)
    ensures start + Fields(a) + Fields(b) + Fields(c) == start + Fields(a + b + c)
  {
    FieldsAfter(start, a, b);
    FieldsAfter(start, a + b, c);
  }

  // ---------------------------------------------------------------------------------------------
  // Receiving

  /** What one `recv` yields: some bytes, none at the end of the stream, or nothing in time. */
  datatype Recv = Data(bytes: string) | Silence

  /** All bytes up to the end of the stream. A stream that goes silent first is an error. */
  function Received(recvs: seq<Recv>): Option<string> {
    if recvs == [] || recvs[0].Silence? then None
    else if recvs[0].bytes == "" then Some("")
    else
      var rest := Received(recvs[1..]);
      if rest.None? then None else Some(recvs[0].bytes + rest.value)
  }

  function Concat(pieces: seq<string>): string {
    if pieces == [] then "" else pieces[0] + Concat(pieces[1..])
  }

  lemma {:induction false} ConcatSnoc(pieces: seq<string>, piece: string)
    ensures Concat(pieces + [piece]) == Concat(pieces) + piece
  {
    if pieces == [] {
      assert [] + [piece] == [piece];
      assert [piece][1..] == [];
    } else {
      assert (pieces + [piece])[1..] == pieces[1..] + [piece];
      ConcatSnoc(pieces[1..], piece);
    }
  }

  /** `read_all`; `recvs` is what the calls of `recv` yield, and after that nothing. */
  method ReadAll(recvs: seq<Recv>) returns (raw: Result<string, ReadError>)
    ensures raw == if Received(recvs).Some? then Ok(Received(recvs).value) else Err(TimedOut)
  {
    var chunks: seq<string> := [];
    var i := 0;
    while i < |recvs|
      invariant 0 <= i <= |recvs|
      invariant Received(recvs).None? <==> Received(recvs[i..]).None?
      invariant Received(recvs).Some? ==> Received(recvs).value == Concat(chunks) + Received(recvs[i..]).value
    {
      var r := recvs[i];
      ghost var before, rest := Concat(chunks), Received(recvs[i + 1..]);
      assert recvs[i..][1..] == recvs[i + 1..];
      if r.Silence? {
        return Err(TimedOut);
      }
      if r.bytes == "" {
        assert before + "" == before;
        return Ok(Concat(chunks));
      }
      ConcatSnoc(chunks, r.bytes);
      chunks := chunks + [r.bytes];
      if rest.Some? {
        Assoc(before, r.bytes, rest.value);
      }
      i := i + 1;
    }
    return Err(TimedOut);
  }

  function Arrivals(pieces: seq<string>): seq<Recv> {
    if pieces == [] then [Data("")] else [Data(pieces[0])] + Arrivals(pieces[1..])
  }

  /** It does not matter into which pieces the network cuts what was sent. */
  lemma {:induction false} PiecesDoNotMatter(pieces: seq<string>)
    requires forall i :: 0 <= i < |pieces| ==> pieces[i] != ""
    ensures Received(Arrivals(pieces)) == Some(Concat(pieces))
  {
    if pieces != [] {
      PiecesDoNotMatter(pieces[1..]);
      assert Arrivals(pieces)[1..] == Arrivals(pieces[1..]);
    }
  }

  /** A stream that goes silent before it ends is a time-out, whatever has arrived by then. */
  lemma {:induction false} SilenceTimesOut(pieces: seq<string>, more: seq<Recv>)
    requires forall i :: 0 <= i < |pieces| ==> pieces[i] != ""
    ensures Received(Map((p: string) => Data(p), pieces) + ([Silence] + more)) == None
  {
    var recvs := Map((p: string) => Data(p), pieces) + ([Silence] + more);
    if pieces == [] {
      assert recvs == [Silence] + more;
    } else {
      SilenceTimesOut(pieces[1..], more);
      assert recvs[1..] == Map((p: string) => Data(p), pieces[1..]) + ([Silence] + more);
    }
  }

  lemma ReadPieces(pieces: seq<string>, whole: string, n: nat, message: Message)
    requires n <= |whole| && Concat(pieces) == whole[..n]
    requires forall i :: 0 <= i < |pieces| ==> pieces[i] != ""
    requires ReadFrame(whole[..n]).Ok? <==> n == |whole|
    requires ReadFrame(whole[..n]).Ok? ==> ReadFrame(whole[..n]).value == message
    ensures var got := Received(Arrivals(pieces));
            && got.Some?
            && (ReadFrame(got.value).Ok? <==> got.value == whole)
            && (ReadFrame(got.value).Ok? ==> ReadFrame(got.value).value == message)
  {
    PiecesDoNotMatter(pieces);
    assert whole[..|whole|] == whole;
  }

  /** From end to end: whatever part of a response goes out before the connection ends, and however
      it is cut up on the way, the client takes it for a response exactly when it is the whole, and
      then has its status and body. */
  lemma ClientIsNeverMisled(status: string, base: seq<Header>, data: string, extra: seq<Header>,
                            n: nat, pieces: seq<string>)
    requires Clean(status) && status != "" && GoodHeaders(base) && GoodHeaders(extra)
    requires NamesNoLength(base) && NamesNoLength(extra)
    requires n <= |Frame(status, SendHeaders(base, data, extra), data)|
    requires Concat(pieces) == Frame(status, SendHeaders(base, data, extra), data)[..n]
    requires forall i :: 0 <= i < |pieces| ==> pieces[i] != ""
    ensures var whole, got := Frame(status, SendHeaders(base, data, extra), data), Received(Arrivals(pieces));
            && got.Some?
            && (ReadFrame(got.value).Ok? <==> got.value == whole)
            && (ReadFrame(got.value).Ok? ==> ReadFrame(got.value).value == Message(status, data))
  {
    SentReadsBack(status, base, data, extra, n);
    ReadPieces(pieces, Frame(status, SendHeaders(base, data, extra), data), n, Message(status, data));
  }

  /** The same for the client of a refused connection: of the 403 it reads all or nothing. */
  lemma RefusedClientIsNeverMisled(body: string, n: nat, pieces: seq<string>)
    requires n <= |Refusal(body)| && Concat(pieces) == Refusal(body)[..n]
    requires forall i :: 0 <= i < |pieces| ==> pieces[i] != ""
    ensures var got := Received(Arrivals(pieces));
            && got.Some?
            && (ReadFrame(got.value).Ok? <==> got.value == Refusal(body))
            && (ReadFrame(got.value).Ok? ==> ReadFrame(got.value).value == Message(FORBIDDEN, body))
  {
    ForbiddenReadsBack(body, n);
    ReadPieces(pieces, Refusal(body), n, Message(FORBIDDEN, body));
  }

  /** `check` accepts a whole 200 response with a complete body, and no part of any response. */
  lemma CheckAcceptsOnlyWhole(status: string, base: seq<Header>, data: string, extra: seq<Header>,
                              n: nat, complete: string -> bool)
    requires Clean(status) && status != "" && GoodHeaders(base) && GoodHeaders(extra)
    requires NamesNoLength(base) && NamesNoLength(extra)
    requires n <= |Frame(status, SendHeaders(base, data, extra), data)|
    ensures var whole := Frame(status, SendHeaders(base, data, extra), data);
            var c := Check(whole[..n], complete);
            && (c.Ok? <==> n == |whole| && Contains(status, "200") && complete(data))
            && (c.Ok? ==> c.value == data)
  {
    SentReadsBack(status, base, data, extra, n);
    CheckOfRead(Frame(status, SendHeaders(base, data, extra), data)[..n], complete);
  }

  /** `check` accepts what can be read with a good status and a complete body. */
  lemma CheckOfRead(raw: string, complete: string -> bool)
    ensures var c, m := Check(raw, complete), ReadFrame(raw);
            && (c.Ok? <==> m.Ok? && Contains(m.value.status, "200") && complete(m.value.body))
            && (c.Ok? ==> c.value == m.value.body)
  {
  }
}
