/** Submitting a job and asking for it: the Location header goes out with the response, a client finds
    it among the headers, and its value leads back to the job. */
module Submission {
  import opened Prelude
  import opened Framing
  import opened Responses
  import Digits
  import JobPath

  /** The value of the first header line with that name, in any case of letters and without white space
      around it. */
  function HeaderValue(lines: seq<string>, name: string): Option<string> {
    if lines == [] then None
    else
      var n := FindColon(lines[0]);
      if n < |lines[0]| && Lower(lines[0][..n]) == name then Some(StripRight(StripLeft(lines[0][n + 1..])))
      else HeaderValue(lines[1..], name)
  }

  predicate NoneNamed(hs: seq<Header>, name: string) {
    forall i :: 0 <= i < |hs| ==> Lower(hs[i].name) != name
  }

  lemma {:induction false} ValueAfter(hs: seq<Header>, lines: seq<string>, name: string)
    requires GoodHeaders(hs) && NoneNamed(hs, name)
    ensures HeaderValue(HeaderLines(hs) + lines, name) == HeaderValue(lines, name)
  {
    if hs == [] {
      assert HeaderLines(hs) + lines == lines;
    } else {
      HeaderLineReadsBack(hs[0]);
      assert (HeaderLines(hs) + lines)[0] == HeaderLine(hs[0]);
      assert (HeaderLines(hs) + lines)[1..] == HeaderLines(hs[1..]) + lines;
      ValueAfter(hs[1..], lines, name);
    }
  }

  lemma ValueOfFirst(h: Header, lines: seq<string>)
    requires GoodHeader(h) && h.value != "" && !IsSpace(h.value[0]) && !IsSpace(h.value[|h.value| - 1])
    ensures HeaderValue([HeaderLine(h)] + lines, Lower(h.name)) == Some(h.value)
  {
    HeaderLineReadsBack(h);
    StripLeftSkips(" ", h.value);
    StripRightSkips(h.value, "");
    assert h.value + "" == h.value;
  }

  lemma LocationNames()
    ensures Lower("Location") == "location"
    ensures Lower("Content-Type") != "location" && Lower("Content-Length") != "location"
  {
    assert |Lower("Content-Type")| == 12 && |Lower("Content-Length")| == 14;
    var t := Lower("Location");
    forall i | 0 <= i < |t|
      ensures t[i] == "location"[i]
    {
      assert t[i] == LowerChar("Location"[i]);
    }
  }

  lemma OwnNotLocation(n: nat)
    ensures var own := [JSON, Header("Content-Length", Digits.Decimal(n))];
            GoodHeaders(own) && NoneNamed(own, "location")
  {
    FixedHeadersGood();
    LengthHeaderGood(n);
    LocationNames();
  }

  lemma LocationIsStripped(id: nat)
    ensures var v := JobPath.Location(id);
            v != "" && !IsSpace(v[0]) && !IsSpace(v[|v| - 1])
  {
    var v := JobPath.Location(id);
    JobPath.PrintedIsPlain(JobPath.Plain, id);
    var text := JobPath.Printed(JobPath.Plain, id);
    assert v[|v| - 1] == text[|text| - 1];
    assert JobPath.Unreserved(text[|text| - 1]);
    assert v[0] == JobPath.JOBS_PREFIX[0];
  }

  /** The Location sent with the response to a submission can be read out of it, and read as a path, with
      or without a query, it is that of the job submitted. */
  lemma SubmittedJobIsFound(id: nat, status: string, base: seq<Header>, data: string, query: string)
    requires id < 0x1_0000_0000_0000_0000 && (query == "" || query[0] == '?')
    requires Clean(status) && status != "" && GoodHeaders(base) && NoneNamed(base, "location")
    ensures var location := Header("Location", JobPath.Location(id));
            var raw := Frame(status, SendHeaders(base, data, [location]), data);
            var value := HeaderValue(HeadLines(raw), "location");
            && value.Some?
            && JobPath.ParseJobPath(JobPath.BeforeQuery(value.value + query), JobPath.ReadId) == JobPath.Job(id)
  {
    var location := Header("Location", JobPath.Location(id));
    JobPath.LocationIsGoodHeader(id);
    SentLocation(location, status, base, data);
    LocationIsStripped(id);
    LocationNames();
    ValueOfFirst(location, []);
    JobPath.LocationRoundTrip(id, query);
  }

  lemma SentLocation(location: Header, status: string, base: seq<Header>, data: string)
    requires GoodHeader(location)
    requires Clean(status) && status != "" && GoodHeaders(base) && NoneNamed(base, "location")
    ensures HeaderValue(HeadLines(Frame(status, SendHeaders(base, data, [location]), data)), "location")
         == HeaderValue([HeaderLine(location)] + [], "location")
  {
    var own := [JSON, Header("Content-Length", Digits.Decimal(|data|))];
    SendHeadersGood(base, data, [location]);
    HeadersArrive(status, SendHeaders(base, data, [location]), data);
    OwnNotLocation(|data|);
    HeaderLinesAppend(base, own);
    HeaderLinesAppend(base + own, [location]);
    OneHeaderLine(location);
    assert NoneNamed(base + own, "location");
    ValueAfter(base + own, [HeaderLine(location)] + [], "location");
    assert [HeaderLine(location)] + [] == [HeaderLine(location)];
  }
}
