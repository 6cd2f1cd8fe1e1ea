/** Response framing: what the server writes and how a client takes it apart again. A byte string
    is modelled as a `string`, one character a byte. */
module Framing {
  import opened Prelude
  import opened Digits

  datatype Header = Header(name: string, value: string)

  const CRLF := "\r\n"
  const BLANK := "\r\n\r\n"

  /** No CR and no LF. */
  predicate Clean(s: string) {
    forall i :: 0 <= i < |s| ==> s[i] != '\r' && s[i] != '\n'
  }

  predicate GoodHeader(h: Header) {
    Clean(h.name) && Clean(h.value) && ':' !in h.name
  }

  predicate GoodHeaders(hs: seq<Header>) {
    forall i :: 0 <= i < |hs| ==> GoodHeader(hs[i])
  }

  function HeaderLine(h: Header): string {
    h.name + ": " + h.value
  }

  /** Header fields as they are printed one after the other. */
  function Fields(hs: seq<Header>): string {
    if hs == [] then "" else Fields(hs[..|hs| - 1]) + (HeaderLine(hs[|hs| - 1]) + CRLF)
  }

  /** A whole response. */
  function Frame(status: string, hs: seq<Header>, body: string): string {
    status + CRLF + Fields(hs) + CRLF + body
  }

  // ---------------------------------------------------------------------------------------------
  // The reader

  datatype ReadError = NoBlankLine | BadStatus | BadLength | NoLength | TruncatedBody | NotComplete | TimedOut

  predicate BlankAt(s: string, i: nat) {
    i + 4 <= |s| && s[i] == '\r' && s[i + 1] == '\n' && s[i + 2] == '\r' && s[i + 3] == '\n'
  }

  function FindBlank(s: string, from: nat): (p: Option<nat>)
    requires from <= |s|
    ensures p.Some? ==> from <= p.value && BlankAt(s, p.value)
    ensures forall k :: from <= k < (if p.Some? then p.value else |s|) ==> !BlankAt(s, k)
    decreases |s| - from
  {
    if BlankAt(s, from) then Some(from) else if from == |s| then None else FindBlank(s, from + 1)
  }

  predicate CrlfAt(s: string, i: nat) {
    i + 2 <= |s| && s[i] == '\r' && s[i + 1] == '\n'
  }

  function FindCrlf(s: string, from: nat): (p: Option<nat>)
    requires from <= |s|
    ensures p.Some? ==> from <= p.value && CrlfAt(s, p.value)
    ensures forall k :: from <= k < (if p.Some? then p.value else |s|) ==> !CrlfAt(s, k)
    decreases |s| - from
  {
    if CrlfAt(s, from) then Some(from) else if from == |s| then None else FindCrlf(s, from + 1)
  }

  /** split(b"\r\n") */
  function SplitLines(s: string): (lines: seq<string>)
    ensures lines != []
    decreases |s|
  {
    var p := FindCrlf(s, 0);
    if p.None? then [s] else [s[..p.value]] + SplitLines(s[p.value + 2..])
  }

  function FindColon(s: string): (n: nat)
    ensures n <= |s|
    ensures forall k :: 0 <= k < n ==> s[k] != ':'
    ensures n < |s| ==> s[n] == ':'
  {
    if s == [] || s[0] == ':' then 0
    else
      var n := FindColon(s[1..]);
      assert forall k :: 0 < k < 1 + n ==> s[k] == s[1..][k - 1];
      1 + n
  }

  function LowerChar(c: char): char {
    if 'A' <= c <= 'Z' then c - 'A' + 'a' else c
  }

  function Lower(s: string): (t: string)
    ensures |t| == |s|
  {
    seq(|s|, i requires 0 <= i < |s| => LowerChar(s[i]))
  }

  /** A name is the given one in any case of letters. */
  lemma LowerExactly(s: string, name: string)
    requires forall i :: 0 <= i < |name| ==> !('A' <= name[i] <= 'Z')
    ensures Lower(s) == name <==>
              |s| == |name|
              && forall i :: 0 <= i < |s| ==>
                   s[i] == name[i] || ('a' <= name[i] <= 'z' && s[i] as int == name[i] as int - 32)
  {
    if Lower(s) == name {
      forall i | 0 <= i < |s|
        ensures s[i] == name[i] || ('a' <= name[i] <= 'z' && s[i] as int == name[i] as int - 32)
      {
        assert Lower(s)[i] == LowerChar(s[i]);
      }
    }
  }

  predicate IsSpace(c: char) {
    c == ' ' || ('\t' <= c <= '\r')
  }

  /** White space of a byte string: blank, tab, line feed, vertical tab, form feed, carriage return. */
  lemma SpaceCharacters(c: char)
    ensures IsSpace(c) <==>
              c == ' ' || c == '\t' || c == '\n' || c == '\U{0B}' || c == '\U{0C}' || c == '\r'
  {
  }

  function StripLeft(s: string): string {
    if s != [] && IsSpace(s[0]) then StripLeft(s[1..]) else s
  }

  function StripRight(s: string): string {
    if s != [] && IsSpace(s[|s| - 1]) then StripRight(s[..|s| - 1]) else s
  }

  /** int(value): surrounding white space, a sign, and digits. None is a ValueError. */
  function ReadInt(s: string): Option<int> {
    var t := StripRight(StripLeft(s));
    var signed := t != [] && (t[0] == '+' || t[0] == '-');
    var digits := if signed then t[1..] else t;
    if digits == [] || !AllDigits(digits) then None
    else if signed && t[0] == '-' then Some(-(Value(digits) as int))
    else Some(Value(digits))
  }

  predicate AllSpace(s: string) {
    forall i :: 0 <= i < |s| ==> IsSpace(s[i])
  }

  /** White space, a sign or none, digits, white space. */
  predicate IntText(s: string, before: string, sign: string, digits: string, after: string) {
    && s == before + (sign + digits + after) && AllSpace(before) && AllSpace(after)
    && (sign == "" || sign == "+" || sign == "-") && digits != "" && AllDigits(digits)
  }

  lemma {:induction false} StripLeftSkips(before: string, t: string)
    requires AllSpace(before) && (t == "" || !IsSpace(t[0]))
    ensures StripLeft(before + t) == t
  {
    if before == "" {
      assert before + t == t;
    } else {
      assert (before + t)[1..] == before[1..] + t;
      StripLeftSkips(before[1..], t);
    }
  }

  lemma {:induction false} StripRightSkips(t: string, after: string)
    requires AllSpace(after) && (t == "" || !IsSpace(t[|t| - 1]))
    ensures StripRight(t + after) == t
  {
    if after == "" {
      assert t + after == t;
    } else {
      assert (t + after)[..|t + after| - 1] == t + after[..|after| - 1];
      StripRightSkips(t, after[..|after| - 1]);
    }
  }

  lemma {:induction false} StrippedLeft(s: string) returns (before: string)
    ensures AllSpace(before) && s == before + StripLeft(s)
  {
    if s != "" && IsSpace(s[0]) {
      before := StrippedLeft(s[1..]);
      before := [s[0]] + before;
    } else {
      before := "";
    }
  }

  lemma {:induction false} StrippedRight(s: string) returns (after: string)
    ensures AllSpace(after) && s == StripRight(s) + after
  {
    if s != "" && IsSpace(s[|s| - 1]) {
      after := StrippedRight(s[..|s| - 1]);
      after := after + [s[|s| - 1]];
    } else {
      after := "";
    }
  }

  /** Such a text is read as the value of its digits with its sign. */
  lemma ReadIntOf(s: string, before: string, sign: string, digits: string, after: string)
    requires IntText(s, before, sign, digits, after)
    ensures ReadInt(s) == Some(if sign == "-" then -(Value(digits) as int) else Value(digits))
  {
    var core := sign + digits;
    assert core[|core| - 1] == digits[|digits| - 1];
    assert core[0] == if sign == "" then digits[0] else sign[0];
    StripLeftSkips(before, core + after);
    StripRightSkips(core, after);
    assert sign != "" ==> core[1..] == digits;
    assert sign == "" ==> core == digits;
  }

  lemma IntRecognised(s: string) returns (before: string, sign: string, digits: string, after: string)
    requires ReadInt(s).Some?
    ensures IntText(s, before, sign, digits, after)
  {
    before := StrippedLeft(s);
    after := StrippedRight(StripLeft(s));
    var t := StripRight(StripLeft(s));
    var signed := t[0] == '+' || t[0] == '-';
    sign, digits := if signed then [t[0]] else "", if signed then t[1..] else t;
    assert t == sign + digits;
  }

  /** A number is read from exactly the texts of that form. */
  lemma ReadIntExactly(s: string)
    ensures ReadInt(s).Some? <==> exists before, sign, digits, after :: IntText(s, before, sign, digits, after)
  {
    if ReadInt(s).Some? {
      var before, sign, digits, after := IntRecognised(s);
    }
    if before, sign, digits, after :| IntText(s, before, sign, digits, after) {
      ReadIntOf(s, before, sign, digits, after);
    }
  }

  /** One turn of the loop over header lines: the length found so far, and the next line. */
  function OnHeaderLine(found: Option<int>, line: string): (r: Result<Option<int>, ReadError>)
    ensures r.Err? ==> r.error == BadLength
  {
    var colon := FindColon(line);
    if Lower(line[..colon]) != "content-length" then Ok(found)
    else
      var n := ReadInt(if colon < |line| then line[colon + 1..] else "");
      if n.None? then Err(BadLength) else Ok(n)
  }

  /** The length the header lines declare: the last Content-Length counts, and every one of them
      has to be a number. */
  function DeclaredLength(lines: seq<string>): (r: Result<Option<int>, ReadError>)
    ensures r.Err? ==> r.error == BadLength
  {
    if lines == [] then Ok(None)
    else
      var before := DeclaredLength(lines[..|lines| - 1]);
      if before.Err? then before else OnHeaderLine(before.value, lines[|lines| - 1])
  }

  datatype Message = Message(status: string, body: string)

  /** A head and a body go together if the declared length is the length of the body. */
  function Assess(lines: seq<string>, body: string): Result<Message, ReadError>
    requires lines != []
  {
    var length := DeclaredLength(lines[1..]);
    if length.Err? then Err(length.error) else Fitted(lines[0], length.value, body)
  }

  function Fitted(status: string, length: Option<int>, body: string): Result<Message, ReadError> {
    if length.None? then Err(NoLength)
    else if length.value != |body| then Err(TruncatedBody)
    else Ok(Message(status, body))
  }

  /** The part of `check` that takes a response apart: status line, declared length, body. */
  function ReadFrame(raw: string): Result<Message, ReadError> {
    var p := FindBlank(raw, 0);
    if p.None? then Err(NoBlankLine)
    else Assess(SplitLines(raw[..p.value]), raw[p.value + 4..])
  }

  predicate OccursAt(s: string, t: string, i: nat) {
    i + |t| <= |s| && s[i..i + |t|] == t
  }

  predicate Contains(s: string, t: string) {
    exists i :: 0 <= i <= |s| && OccursAt(s, t, i)
  }

  /** A string contains another exactly when it consists of something, the other, and something. */
  lemma ContainsExactly(s: string, t: string)
    ensures Contains(s, t) <==> exists before, after :: Surrounded(s, before, t, after)
  {
    if i :| 0 <= i <= |s| && OccursAt(s, t, i) {
      assert Surrounded(s, s[..i], t, s[i + |t|..]);
    }
    if before, after :| Surrounded(s, before, t, after) {
      assert OccursAt(s, t, |before|);
    }
  }

  predicate Surrounded(s: string, before: string, t: string, after: string) {
    s == before + (t + after)
  }

  /** `check` in full. `complete` stands for the look into the JSON body. */
  function Check(raw: string, complete: string -> bool): Result<string, ReadError> {
    var p := FindBlank(raw, 0);
    if p.Some? && !Contains(SplitLines(raw[..p.value])[0], "200") then Err(BadStatus)
    else
      var m := ReadFrame(raw);
      if m.Err? then Err(m.error)
      else if !complete(m.value.body) then Err(NotComplete)
      else Ok(m.value.body)
  }

  /** The loop over header lines in `check`. */
  method FindLength(lines: seq<string>) returns (length: Result<Option<int>, ReadError>)
    ensures length == DeclaredLength(lines)
  {
    var found: Option<int> := None;
    var i := 0;
    assert lines[..0] == [];
    while i < |lines|
      invariant 0 <= i <= |lines|
      invariant DeclaredLength(lines[..i]) == Ok(found)
    {
      var line := lines[i];
      assert lines[..i + 1][..i] == lines[..i];
      var next := OnHeaderLine(found, line);
      if next.Err? {
        ErrorPersists(lines, i + 1);
        return next;
      }
      found := next.value;
      i := i + 1;
    }
    assert lines[..|lines|] == lines;
    length := Ok(found);
  }

  /** `check`, step by step. */
  method CheckResponse(raw: string, complete: string -> bool) returns (r: Result<string, ReadError>)
    ensures r == Check(raw, complete)
  {
    var p := FindBlank(raw, 0);
    if p.None? {
      return Err(NoBlankLine);
    }
    var lines, body := SplitLines(raw[..p.value]), raw[p.value + 4..];
    if !Contains(lines[0], "200") {
      return Err(BadStatus);
    }
    var length := FindLength(lines[1..]);
    if length.Err? {
      return Err(length.error);
    }
    if length.value.None? {
      return Err(NoLength);
    }
    if length.value.value != |body| {
      return Err(TruncatedBody);
    }
    r := if complete(body) then Ok(body) else Err(NotComplete);
  }

  lemma {:induction false} ErrorPersists(lines: seq<string>, n: nat)
    requires n <= |lines| && DeclaredLength(lines[..n]).Err?
    ensures DeclaredLength(lines) == DeclaredLength(lines[..n])
  {
    if n < |lines| {
      var init := lines[..|lines| - 1];
      assert init[..n] == lines[..n];
      ErrorPersists(init, n);
    } else {
      assert lines[..n] == lines;
    }
  }

  // ---------------------------------------------------------------------------------------------
  // Lines in and lines out

  /** Lines with CRLF between them. */
  function Join(lines: seq<string>): string
    requires lines != []
  {
    if |lines| == 1 then lines[0] else lines[0] + CRLF + Join(lines[1..])
  }

  function HeaderLines(hs: seq<Header>): (lines: seq<string>)
    ensures |lines| == |hs|
    ensures forall i :: 0 <= i < |hs| ==> lines[i] == HeaderLine(hs[i])
  {
    seq(|hs|, i requires 0 <= i < |hs| => HeaderLine(hs[i]))
  }

  lemma HeaderLinesAppend(a: seq<Header>, b: seq<Header>)
    ensures HeaderLines(a + b) == HeaderLines(a) + HeaderLines(b)
  {
  }

  lemma OneHeaderLine(h: Header)
    ensures HeaderLines([h]) == [HeaderLine(h)]
  {
  }

  ghost predicate CleanLines(lines: seq<string>) {
    forall i :: 0 <= i < |lines| ==> Clean(lines[i]) && lines[i] != []
  }

  lemma {:induction false} JoinSnoc(lines: seq<string>, line: string)
    requires lines != []
    ensures Join(lines + [line]) == Join(lines) + CRLF + line
  {
    if |lines| > 1 {
      assert (lines + [line])[1..] == lines[1..] + [line];
      JoinSnoc(lines[1..], line);
    }
  }

  /** A response, seen as its head, the blank line, and the body. */
  lemma FrameIsHeadAndBody(status: string, hs: seq<Header>, body: string)
    ensures Frame(status, hs, body) == Join([status] + HeaderLines(hs)) + BLANK + body
  {
    HeadOfFrame(status, hs);
    Assoc(Join([status] + HeaderLines(hs)), CRLF, CRLF);
    assert CRLF + CRLF == BLANK;
  }

  lemma {:induction false} HeadOfFrame(status: string, hs: seq<Header>)
    ensures status + CRLF + Fields(hs) == Join([status] + HeaderLines(hs)) + CRLF
  {
    if hs == [] {
      assert [status] + HeaderLines(hs) == [status];
      assert status + CRLF + "" == status + CRLF;
    } else {
      var n := |hs| - 1;
      var init, line := [status] + HeaderLines(hs[..n]), HeaderLine(hs[n]);
      HeadOfFrame(status, hs[..n]);
      assert [status] + HeaderLines(hs) == init + [line];
      JoinSnoc(init, line);
      Assoc(status + CRLF, Fields(hs[..n]), line + CRLF);
      Assoc(Join(init) + CRLF, line, CRLF);
    }
  }

  /** No blank line starts inside the head. */
  lemma {:induction false} NoBlankInHead(lines: seq<string>, rest: string, i: nat)
    requires lines != [] && CleanLines(lines) && i < |Join(lines)|
    ensures !BlankAt(Join(lines) + rest, i)
  {
    var t := Join(lines) + rest;
    var l := lines[0];
    if i < |l| {
      assert t[i] == l[i];
    } else if |lines| > 1 {
      var tail := Join(lines[1..]);
      assert t == l + CRLF + (tail + rest);
      assert tail[0] == lines[1][0];
      if i == |l| {
        assert t[i + 2] == tail[0];
      } else if i == |l| + 1 {
        assert t[i] == '\n';
      } else {
        var j := i - |l| - 2;
        NoBlankInHead(lines[1..], rest, j);
        assert t[i..] == (tail + rest)[j..];
      }
    }
  }

  lemma {:induction false} SplitOfJoin(lines: seq<string>)
    requires lines != [] && CleanLines(lines)
    ensures SplitLines(Join(lines)) == lines
  {
    var s, l := Join(lines), lines[0];
    forall k | 0 <= k < |l|
      ensures !CrlfAt(s, k)
    {
      assert s[k] == l[k];
    }
    if |lines| == 1 {
      assert FindCrlf(s, 0).None?;
    } else {
      assert CrlfAt(s, |l|);
      assert FindCrlf(s, 0) == Some(|l|);
      assert s[..|l|] == l && s[|l| + 2..] == Join(lines[1..]);
      SplitOfJoin(lines[1..]);
      assert [l] + lines[1..] == lines;
    }
  }

  lemma GoodLines(status: string, hs: seq<Header>)
    requires Clean(status) && status != "" && GoodHeaders(hs)
    ensures CleanLines([status] + HeaderLines(hs))
  {
    var lines := [status] + HeaderLines(hs);
    forall i | 0 <= i < |lines|
      ensures Clean(lines[i]) && lines[i] != []
    {
      if i > 0 {
        var h := hs[i - 1];
        assert lines[i] == HeaderLine(h) && GoodHeader(h);
      }
    }
  }

  /** The value of the last header of that name, as the reader takes it. */
  function LengthOfHeaders(hs: seq<Header>): (r: Result<Option<int>, ReadError>)
    ensures r.Err? ==> r.error == BadLength
  {
    if hs == [] then Ok(None)
    else
      var before := LengthOfHeaders(hs[..|hs| - 1]);
      var h := hs[|hs| - 1];
      if before.Err? || Lower(h.name) != "content-length" then before
      else
        var n := ReadInt(" " + h.value);
        if n.None? then Err(BadLength) else Ok(n)
  }

  predicate IsLength(h: Header) {
    Lower(h.name) == "content-length"
  }

  /** Header `i` declares the length, and no later one does. */
  predicate LastLength(hs: seq<Header>, i: nat) {
    i < |hs| && IsLength(hs[i]) && forall j :: i < j < |hs| ==> !IsLength(hs[j])
  }

  lemma {:induction false} NoLengthExactly(hs: seq<Header>)
    ensures LengthOfHeaders(hs) == Ok(None) <==> forall i :: 0 <= i < |hs| ==> !IsLength(hs[i])
  {
    if hs != [] {
      NoLengthExactly(hs[..|hs| - 1]);
    }
  }

  lemma {:induction false} BadLengthExactly(hs: seq<Header>)
    ensures LengthOfHeaders(hs).Err? <==>
              exists i :: 0 <= i < |hs| && IsLength(hs[i]) && ReadInt(" " + hs[i].value).None?
  {
    if hs != [] {
      var k := |hs| - 1;
      BadLengthExactly(hs[..k]);
      assert forall i :: 0 <= i < k ==> hs[..k][i] == hs[i];
    }
  }

  lemma {:induction false} LastLengthCounts(hs: seq<Header>, i: nat)
    requires LastLength(hs, i) && LengthOfHeaders(hs).Ok?
    ensures LengthOfHeaders(hs) == Ok(ReadInt(" " + hs[i].value)) && ReadInt(" " + hs[i].value).Some?
  {
    var k := |hs| - 1;
    if i < k {
      LastLengthCounts(hs[..k], i);
    }
  }

  /** The declared length: none if no header names it, an error if one that does is no number, and
      otherwise the last one. */
  lemma LengthExactly(hs: seq<Header>)
    ensures LengthOfHeaders(hs) == Ok(None) <==> forall i :: 0 <= i < |hs| ==> !IsLength(hs[i])
    ensures LengthOfHeaders(hs).Err? <==>
              exists i :: 0 <= i < |hs| && IsLength(hs[i]) && ReadInt(" " + hs[i].value).None?
    ensures forall i: nat :: LastLength(hs, i) && LengthOfHeaders(hs).Ok? ==>
                               LengthOfHeaders(hs) == Ok(ReadInt(" " + hs[i].value))
  {
    NoLengthExactly(hs);
    BadLengthExactly(hs);
    forall i: nat | LastLength(hs, i) && LengthOfHeaders(hs).Ok?
      ensures LengthOfHeaders(hs) == Ok(ReadInt(" " + hs[i].value))
    {
      LastLengthCounts(hs, i);
    }
  }

  lemma HeaderLineReadsBack(h: Header)
    requires GoodHeader(h)
    ensures var line := HeaderLine(h);
            FindColon(line) == |h.name| < |line| && line[..|h.name|] == h.name && line[|h.name| + 1..] == " " + h.value
  {
    var line := HeaderLine(h);
    assert line[|h.name|] == ':';
    assert forall k :: 0 <= k < |h.name| ==> line[k] == h.name[k];
  }

  lemma {:induction false} LengthSurvivesPrinting(hs: seq<Header>)
    requires GoodHeaders(hs)
    ensures DeclaredLength(HeaderLines(hs)) == LengthOfHeaders(hs)
  {
    if hs != [] {
      var n := |hs| - 1;
      LengthSurvivesPrinting(hs[..n]);
      assert HeaderLines(hs)[..n] == HeaderLines(hs[..n]);
      HeaderLineReadsBack(hs[n]);
    }
  }

  /** In a head with a blank line after it, the blank line is the first one; in any part that lacks
      some of it there is none. */
  lemma BlankFound(lines: seq<string>, body: string, n: nat)
    requires lines != [] && CleanLines(lines) && n <= |Join(lines)| + 4 + |body|
    ensures var head := Join(lines);
            FindBlank((head + (BLANK + body))[..n], 0) == if |head| + 4 <= n then Some(|head|) else None
  {
    var head, rest := Join(lines), BLANK + body;
    var t := (head + rest)[..n];
    forall k | 0 <= k < |t| && (k < |head| || n < |head| + 4)
      ensures !BlankAt(t, k)
    {
      if k < |head| {
        NoBlankInHead(lines, rest, k);
        assert t[k..] == (head + rest)[k..n];
      }
    }
    if |head| + 4 <= n {
      assert forall j :: 0 <= j < 4 ==> t[|head| + j] == BLANK[j];
      assert BlankAt(t, |head|);
    }
  }

  /** Where the reader finds the end of the head, in any prefix of a response. */
  lemma HeadFound(status: string, hs: seq<Header>, body: string, n: nat)
    requires Clean(status) && status != "" && GoodHeaders(hs)
    requires n <= |Frame(status, hs, body)|
    ensures var head, t := Join([status] + HeaderLines(hs)), Frame(status, hs, body)[..n];
            && |Frame(status, hs, body)| == |head| + 4 + |body|
            && FindBlank(t, 0) == (if |head| + 4 <= n then Some(|head|) else None)
            && (|head| + 4 <= n ==> t[..|head|] == head && t[|head| + 4..] == body[..n - |head| - 4])
  {
    var head := Join([status] + HeaderLines(hs));
    FrameIsHeadAndBody(status, hs, body);
    Assoc(head, BLANK, body);
    GoodLines(status, hs);
    BlankFound([status] + HeaderLines(hs), body, n);
    if |head| + 4 <= n {
      BodyAfterHead(head, body, n);
    }
  }

  lemma BodyAfterHead(head: string, body: string, n: nat)
    requires |head| + 4 <= n <= |head| + 4 + |body|
    ensures var t := (head + (BLANK + body))[..n];
            t[..|head|] == head && t[|head| + 4..] == body[..n - |head| - 4]
  {
  }

  /** The head, taken apart, gives the status line and the header lines back. */
  lemma HeadReadsBack(status: string, hs: seq<Header>)
    requires Clean(status) && status != "" && GoodHeaders(hs)
    ensures var lines := SplitLines(Join([status] + HeaderLines(hs)));
            lines[0] == status && DeclaredLength(lines[1..]) == LengthOfHeaders(hs)
  {
    var lines := [status] + HeaderLines(hs);
    GoodLines(status, hs);
    SplitOfJoin(lines);
    LengthSurvivesPrinting(hs);
    assert lines[1..] == HeaderLines(hs);
  }

  /** The header lines of a response, in the order they came in. */
  function HeadLines(raw: string): seq<string> {
    var p := FindBlank(raw, 0);
    if p.None? then [] else SplitLines(raw[..p.value])[1..]
  }

  /** Every header printed arrives, one line each and in order, and nothing else does. */
  lemma HeadersArrive(status: string, hs: seq<Header>, body: string)
    requires Clean(status) && status != "" && GoodHeaders(hs)
    ensures HeadLines(Frame(status, hs, body)) == HeaderLines(hs)
  {
    var raw := Frame(status, hs, body);
    HeadFound(status, hs, body, |raw|);
    assert raw[..|raw|] == raw;
    GoodLines(status, hs);
    SplitOfJoin([status] + HeaderLines(hs));
    assert ([status] + HeaderLines(hs))[1..] == HeaderLines(hs);
  }

  /** A response whose status line has not the code is refused for that, whatever follows. */
  lemma BadStatusRejected(status: string, hs: seq<Header>, body: string, complete: string -> bool)
    requires Clean(status) && status != "" && GoodHeaders(hs) && !Contains(status, "200")
    ensures Check(Frame(status, hs, body), complete) == Err(BadStatus)
  {
    var raw := Frame(status, hs, body);
    HeadFound(status, hs, body, |raw|);
    assert raw[..|raw|] == raw;
    HeadReadsBack(status, hs);
  }

  /** What the reader makes of a printed head followed by some body. */
  function Outcome(status: string, hs: seq<Header>, body: string): Result<Message, ReadError> {
    var length := LengthOfHeaders(hs);
    if length.Err? then Err(length.error) else Fitted(status, length.value, body)
  }

  lemma PrintedHeadAssessed(status: string, hs: seq<Header>, body: string)
    requires Clean(status) && status != "" && GoodHeaders(hs)
    ensures Assess(SplitLines(Join([status] + HeaderLines(hs))), body) == Outcome(status, hs, body)
  {
    HeadReadsBack(status, hs);
  }

  /** The reader on any prefix of a response: it waits for the blank line, and from there on goes by
      the last Content-Length and the part of the body it has. */
  lemma ReadsPrefix(status: string, hs: seq<Header>, body: string, n: nat)
    requires Clean(status) && status != "" && GoodHeaders(hs)
    requires n <= |Frame(status, hs, body)|
    ensures var end := |Frame(status, hs, body)| - |body|;
            && 0 <= end
            && ReadFrame(Frame(status, hs, body)[..n])
            == if n < end then Err(NoBlankLine) else Outcome(status, hs, body[..n - end])
  {
    HeadFound(status, hs, body, n);
    var end := |Frame(status, hs, body)| - |body|;
    if end <= n {
      AssessedAt(Frame(status, hs, body)[..n], Join([status] + HeaderLines(hs)), status, hs, body[..n - end]);
    }
  }

  lemma AssessedAt(raw: string, head: string, status: string, hs: seq<Header>, body: string)
    requires Clean(status) && status != "" && GoodHeaders(hs) && head == Join([status] + HeaderLines(hs))
    requires FindBlank(raw, 0) == Some(|head|) && raw[..|head|] == head && raw[|head| + 4..] == body
    ensures ReadFrame(raw) == Outcome(status, hs, body)
  {
    ReadFrameOf(raw, head, body);
    PrintedHeadAssessed(status, hs, body);
  }

  lemma ReadFrameOf(raw: string, head: string, body: string)
    requires FindBlank(raw, 0) == Some(|head|) && raw[..|head|] == head && raw[|head| + 4..] == body
    ensures ReadFrame(raw) == Assess(SplitLines(head), body)
  {
  }

  /** Reading back what was printed: for every status line, headers and body without CR or LF in the
      head, the reader splits at the right blank line, and gives back status and body exactly when
      the last Content-Length is the length of the body. */
  lemma ReadsBack(status: string, hs: seq<Header>, body: string)
    requires Clean(status) && status != "" && GoodHeaders(hs)
    ensures var r := ReadFrame(Frame(status, hs, body));
            && (r.Ok? <==> LengthOfHeaders(hs) == Ok(Some(|body|)))
            && (r.Ok? ==> r.value == Message(status, body))
            && (r.Err? ==> r.error != NoBlankLine)
  {
    ReadsWhole(status, hs, body, Frame(status, hs, body));
    OutcomeByLength(status, hs, body);
  }

  lemma OutcomeByLength(status: string, hs: seq<Header>, body: string)
    ensures var r := Outcome(status, hs, body);
            && (r.Ok? <==> LengthOfHeaders(hs) == Ok(Some(|body|)))
            && (r.Ok? ==> r.value == Message(status, body))
            && (r.Err? ==> r.error != NoBlankLine)
  {
  }

  lemma ReadsWhole(status: string, hs: seq<Header>, body: string, raw: string)
    requires Clean(status) && status != "" && GoodHeaders(hs)
    requires raw == Frame(status, hs, body)
    ensures ReadFrame(raw) == Outcome(status, hs, body)
  {
    ReadsPrefix(status, hs, body, |raw|);
    assert raw[..|raw|] == raw;
    assert body[..|body|] == body;
  }

  /** No truncated response is accepted: the reader rejects every proper prefix. */
  lemma EveryPrefixRejected(status: string, hs: seq<Header>, body: string, n: nat)
    requires Clean(status) && status != "" && GoodHeaders(hs)
    requires LengthOfHeaders(hs) == Ok(Some(|body|))
    requires n < |Frame(status, hs, body)|
    ensures var r := ReadFrame(Frame(status, hs, body)[..n]);
            var end := |Frame(status, hs, body)| - |body|;
            r == Err(if n < end then NoBlankLine else TruncatedBody)
  {
    ReadsPrefix(status, hs, body, n);
  }
}
