/** The URL of a job: the Location printed when it is submitted, and the path parser that reads it.
    Job ids are printed in F58 (Flux RFC 19), base 58 after a prefix; the id segment of a path may be
    percent-encoded UTF-8 (section 2.1 of RFC 3986). */
module JobPath {
  import opened Prelude
  import Digits
  import Framing
  import Utf8

  const JOBS_PREFIX := "/api/v1/jobs/"
  const ID_LIMIT: nat := 0x1_0000_0000_0000_0000

  // ---------------------------------------------------------------------------------------------
  // Base 58

  /** The digits 1-9, then A-Z without I and O, then a-z without l. */
  function Digit(d: nat): char
    requires d < 58
  {
    if d < 9 then '1' + d as char
    else if d < 17 then 'A' + (d - 9) as char
    else if d < 22 then 'J' + (d - 17) as char
    else if d < 33 then 'P' + (d - 22) as char
    else if d < 44 then 'a' + (d - 33) as char
    else 'm' + (d - 44) as char
  }

  function DigitValue(c: char): (d: Option<nat>)
    ensures d.Some? ==> d.value < 58 && Digit(d.value) == c
  {
    if '1' <= c <= '9' then Some((c - '1') as nat)
    else if 'A' <= c <= 'H' then Some(9 + (c - 'A') as nat)
    else if 'J' <= c <= 'N' then Some(17 + (c - 'J') as nat)
    else if 'P' <= c <= 'Z' then Some(22 + (c - 'P') as nat)
    else if 'a' <= c <= 'k' then Some(33 + (c - 'a') as nat)
    else if 'm' <= c <= 'z' then Some(44 + (c - 'm') as nat)
    else None
  }

  lemma DigitRoundTrip(d: nat)
    requires d < 58
    ensures DigitValue(Digit(d)) == Some(d)
  {
  }

  /** The alphabet, in the order of the values. */
  const ALPHABET :=
    "123456789" + ("ABCDEFGH" + ("JKLMN" + ("PQRSTUVWXYZ" + ("abcdefghijk" + "mnopqrstuvwxyz"))))

  lemma AlphabetInOrder(d: nat)
    requires d < 58
    ensures |ALPHABET| == 58 && Digit(d) == ALPHABET[d]
  {
    if d < 9 {
      assert Digit(d) == "123456789"[d];
    } else if d < 17 {
      assert Digit(d) == "ABCDEFGH"[d - 9];
    } else if d < 22 {
      assert Digit(d) == "JKLMN"[d - 17];
    } else if d < 33 {
      assert Digit(d) == "PQRSTUVWXYZ"[d - 22];
    } else if d < 44 {
      assert Digit(d) == "abcdefghijk"[d - 33];
    } else {
      assert Digit(d) == "mnopqrstuvwxyz"[d - 44];
    }
  }

  lemma AlphabetAscends(d: nat, e: nat)
    requires d < e < 58
    ensures Digit(d) < Digit(e)
  {
  }

  /** A character is a digit if and only if it is a figure or a letter, but not 0, I, O or l; and its
      value is its place in the alphabet. */
  lemma AlphabetExactly(c: char)
    ensures DigitValue(c).Some? <==>
              '1' <= c <= '9' || ('A' <= c <= 'Z' && c != 'I' && c != 'O') || ('a' <= c <= 'z' && c != 'l')
    ensures DigitValue(c).Some? ==>
              DigitValue(c).value < 58 == |ALPHABET| && ALPHABET[DigitValue(c).value] == c
  {
    if DigitValue(c).Some? {
      AlphabetInOrder(DigitValue(c).value);
    }
  }

  function Encode(n: nat): (s: string)
    ensures s != ""
  {
    if n < 58 then [Digit(n)] else Encode(n / 58) + [Digit(n % 58)]
  }

  function Decode(s: string): Option<nat> {
    if s == "" then Some(0)
    else
      var high, low := Decode(s[..|s| - 1]), DigitValue(s[|s| - 1]);
      if high.None? || low.None? then None else Some(high.value * 58 + low.value)
  }

  lemma {:induction false} DecodeOfEncode(n: nat)
    ensures Decode(Encode(n)) == Some(n)
  {
    if n < 58 {
      DigitRoundTrip(n);
      assert Encode(n)[..0] == "";
    } else {
      DecodeOfEncode(n / 58);
      DigitRoundTrip(n % 58);
      assert Encode(n)[..|Encode(n)| - 1] == Encode(n / 58);
    }
  }

  lemma {:induction false} DecodePositive(s: string)
    requires s != "" && s[0] != '1' && Decode(s).Some?
    ensures 0 < Decode(s).value
  {
    if |s| == 1 {
      assert s[..0] == "";
    } else {
      DecodePositive(s[..|s| - 1]);
    }
  }

  /** A numeral is the printed form of its value exactly when it has no superfluous leading digit. */
  lemma {:induction false} EncodeOfDecode(s: string)
    requires s != "" && Decode(s).Some?
    ensures Encode(Decode(s).value) == s <==> s[0] != '1' || s == "1"
  {
    var init, n := s[..|s| - 1], Decode(s).value;
    if |s| == 1 {
      assert init == "";
      assert Encode(n) == [s[0]];
    } else if s[0] == '1' {
      EncodedStart(n);
    } else {
      DecodePositive(init);
      EncodeOfDecode(init);
      var h, d := Decode(init).value, DigitValue(s[|s| - 1]).value;
      assert n / 58 == h && n % 58 == d;
      assert s == init + [s[|s| - 1]];
    }
  }

  lemma {:induction false} EncodedStart(n: nat)
    ensures Encode(n)[0] == '1' <==> n == 0
    ensures n == 0 ==> Encode(n) == "1"
  {
    if n >= 58 {
      EncodedStart(n / 58);
    }
  }

  /** The forms of a job id that the repository prints or is given. */
  datatype Form = Plain | Fancy | Dec

  /** `jobid.f58plain`, `str(jobid)` and the number itself. */
  function Printed(form: Form, id: nat): string {
    match form
    case Plain => "f" + Encode(id)
    case Fancy => "\U{0192}" + Encode(id)
    case Dec => Digits.Decimal(id)
  }

  /** Reading a job id in any of these forms; an id has 64 bits. */
  function ReadId(s: string): Option<nat> {
    var n := if s != "" && Digits.AllDigits(s) then Some(Digits.Value(s))
             else if |s| >= 2 && (s[0] == 'f' || s[0] == '\U{0192}') then Decode(s[1..])
             else None;
    if n.Some? && n.value < ID_LIMIT then n else None
  }

  /** Whatever the form it is printed in, an id of 64 bits is read back, and no larger number is. */
  lemma PrintedIdReadsBack(form: Form, id: nat)
    ensures ReadId(Printed(form, id)) == if id < 0x1_0000_0000_0000_0000 then Some(id) else None
  {
    if form == Dec {
      Digits.ValueOfDecimal(id);
    } else {
      DecodeOfEncode(id);
      var text := Printed(form, id);
      assert text[1..] == Encode(id) && !Digits.IsDigit(text[0]);
    }
  }

  // ---------------------------------------------------------------------------------------------
  // Percent encoding

  function HexValue(c: char): (v: Option<nat>)
    ensures v.Some? ==> v.value < 16
  {
    if '0' <= c <= '9' then Some((c - '0') as nat)
    else if 'A' <= c <= 'F' then Some(10 + (c - 'A') as nat)
    else if 'a' <= c <= 'f' then Some(10 + (c - 'a') as nat)
    else None
  }

  function HexDigit(v: nat): char
    requires v < 16
  {
    if v < 10 then '0' + v as char else 'A' + (v - 10) as char
  }

  predicate EscapeAt0(s: string) {
    |s| >= 3 && s[0] == '%' && HexValue(s[1]).Some? && HexValue(s[2]).Some?
  }

  predicate Ascii(s: string) {
    forall i :: 0 <= i < |s| ==> s[i] as int < 0x80
  }

  /** One pass over the escapes from left to right; a '%' that starts no escape stays. */
  function UnquoteToBytes(s: string): seq<Utf8.Byte>
    requires Ascii(s)
  {
    if s == "" then []
    else if EscapeAt0(s) then [HexValue(s[1]).value * 16 + HexValue(s[2]).value] + UnquoteToBytes(s[3..])
    else [s[0] as int] + UnquoteToBytes(s[1..])
  }

  function AsciiRun(s: string): (n: nat)
    ensures n <= |s| && Ascii(s[..n])
    ensures n < |s| ==> 0x80 <= s[n] as int
  {
    if s == "" || 0x80 <= s[0] as int then 0
    else
      var n := AsciiRun(s[1..]);
      assert forall i :: 0 < i < 1 + n ==> s[i] == s[1..][..n][i - 1];
      1 + n
  }

  /** `urllib.parse.unquote`: each run of ASCII characters is unquoted to bytes, and these are decoded
      as UTF-8 with replacement. Other characters stay as they are. */
  function Unquote(s: string): string
    decreases |s|
  {
    if s == "" then ""
    else
      var n := AsciiRun(s);
      if n == 0 then [s[0]] + Unquote(s[1..])
      else Utf8.Decode(UnquoteToBytes(s[..n])) + Unquote(s[n..])
  }

  /** The unreserved characters of RFC 3986, section 2.3. */
  predicate Unreserved(c: char) {
    'a' <= c <= 'z' || 'A' <= c <= 'Z' || '0' <= c <= '9' || c == '-' || c == '.' || c == '_' || c == '~'
  }

  /** Letters, figures and four marks; the smallest and largest of each range, and what stands next to
      them. */
  lemma UnreservedExactly()
    ensures forall c :: c in "AZaz09-._~" ==> Unreserved(c)
    ensures forall c :: c in "@[`{/:,^}%?" ==> !Unreserved(c)
  {
  }

  predicate PlainByte(b: Utf8.Byte) {
    b < 0x80 && Unreserved(b as char)
  }

  function QuoteByte(b: Utf8.Byte): string {
    if PlainByte(b) then [b as char] else ['%', HexDigit(b / 16), HexDigit(b % 16)]
  }

  function QuoteBytes(s: seq<Utf8.Byte>): string {
    if s == [] then "" else QuoteByte(s[0]) + QuoteBytes(s[1..])
  }

  /** Percent-encoding of a text, as a client does it. */
  function Quote(text: string): string {
    QuoteBytes(Utf8.Encode(text))
  }

  lemma HexRoundTrip(v: nat)
    requires v < 16
    ensures HexValue(HexDigit(v)) == Some(v)
  {
  }

  /** The hexadecimal digits of an escape, in either case. */
  lemma HexDigits(c: char, v: nat)
    ensures HexValue(c) == Some(v) <==>
              v < 16 && (c == "0123456789ABCDEF"[v] || c == "0123456789abcdef"[v])
  {
  }

  lemma {:induction false} PlainToBytes(s: string)
    requires Ascii(s) && '%' !in s
    ensures |UnquoteToBytes(s)| == |s|
    ensures forall i :: 0 <= i < |s| ==> UnquoteToBytes(s)[i] == s[i] as int
  {
    if s != "" {
      assert s[0] in s;
      forall c | c in s[1..]
        ensures c in s
      {
      }
      PlainToBytes(s[1..]);
    }
  }

  /** An escape stands for one byte, and a '%' that two hexadecimal digits do not follow for itself. */
  lemma EscapeOrPercent(a: char, b: char, rest: string)
    requires Ascii([a, b] + rest)
    ensures Ascii(['%', a, b] + rest) && Ascii(rest)
    ensures var s := ['%', a, b] + rest;
            UnquoteToBytes(s) == if HexValue(a).Some? && HexValue(b).Some?
                                 then [HexValue(a).value * 16 + HexValue(b).value] + UnquoteToBytes(rest)
                                 else [0x25] + UnquoteToBytes([a, b] + rest)
  {
    var s := ['%', a, b] + rest;
    forall i | 0 <= i < |rest|
      ensures rest[i] as int < 0x80
    {
      assert rest[i] == ([a, b] + rest)[i + 2];
    }
    assert s[1..] == [a, b] + rest && s[3..] == rest;
    assert forall i :: 0 < i < |s| ==> s[i] == ([a, b] + rest)[i - 1];
  }

  predicate Quoted(s: string) {
    forall i :: 0 <= i < |s| ==> Unreserved(s[i]) || s[i] == '%'
  }

  lemma {:induction false} QuotedIsPlain(s: seq<Utf8.Byte>)
    ensures Quoted(QuoteBytes(s))
  {
    if s != [] {
      QuotedIsPlain(s[1..]);
    }
  }

  lemma ByteReadsBack(b: Utf8.Byte, rest: string)
    requires Ascii(rest)
    ensures Ascii(QuoteByte(b) + rest) && UnquoteToBytes(QuoteByte(b) + rest) == [b] + UnquoteToBytes(rest)
  {
    var q := QuoteByte(b) + rest;
    if PlainByte(b) {
      assert q[0] == b as char && q[1..] == rest;
    } else {
      HexRoundTrip(b / 16);
      HexRoundTrip(b % 16);
      assert q[3..] == rest;
    }
  }

  lemma {:induction false} BytesReadBack(s: seq<Utf8.Byte>)
    ensures Ascii(QuoteBytes(s)) && UnquoteToBytes(QuoteBytes(s)) == s
  {
    if s != [] {
      BytesReadBack(s[1..]);
      ByteReadsBack(s[0], QuoteBytes(s[1..]));
      assert [s[0]] + s[1..] == s;
    }
  }

  /** Bytes in an encoded path come out of `unquote` as the text they decode to. */
  lemma UnquoteOfQuote(s: seq<Utf8.Byte>)
    ensures Unquote(QuoteBytes(s)) == Utf8.Decode(s)
  {
    BytesReadBack(s);
    var q := QuoteBytes(s);
    assert AsciiRun(q) == |q|;
    assert q[..|q|] == q && q[|q|..] == "";
  }

  lemma {:induction false} AsciiBytes(s: string)
    requires Ascii(s)
    ensures var b := seq(|s|, i requires 0 <= i < |s| => s[i] as int as Utf8.Byte);
            Utf8.Decode(b) == s
    decreases |s|
  {
    if s != "" {
      var b := seq(|s|, i requires 0 <= i < |s| => s[i] as int as Utf8.Byte);
      AsciiBytes(s[1..]);
      assert b[1..] == seq(|s| - 1, i requires 0 <= i < |s| - 1 => s[1..][i] as int as Utf8.Byte);
      assert [s[0]] + s[1..] == s;
    }
  }

  lemma AsciiRunUnchanged(s: string)
    requires Ascii(s) && '%' !in s
    ensures Utf8.Decode(UnquoteToBytes(s)) == s
  {
    PlainToBytes(s);
    AsciiBytes(s);
    assert UnquoteToBytes(s) == seq(|s|, i requires 0 <= i < |s| => s[i] as int as Utf8.Byte);
  }

  /** Nothing but an escape is ever changed, in particular no character that is not ASCII. */
  lemma {:induction false} NoEscapeNoChange(s: string)
    requires '%' !in s
    ensures Unquote(s) == s
    decreases |s|
  {
    if s != "" {
      var n := AsciiRun(s);
      var m := if n == 0 then 1 else n;
      assert s == s[..m] + s[m..];
      assert '%' !in s[..m] && '%' !in s[m..];
      NoEscapeNoChange(s[m..]);
      if n > 0 {
        AsciiRunUnchanged(s[..n]);
      }
    }
  }

  lemma {:induction false} QuoteAppend(a: seq<Utf8.Byte>, b: seq<Utf8.Byte>)
    ensures QuoteBytes(a + b) == QuoteBytes(a) + QuoteBytes(b)
  {
    if a == [] {
      assert a + b == b;
    } else {
      assert (a + b)[1..] == a[1..] + b;
      QuoteAppend(a[1..], b);
    }
  }

  // ---------------------------------------------------------------------------------------------
  // Paths

  datatype Parsed = NoMatch | Malformed | Job(id: nat)

  /** The decoded id segment of a path, None if the path has not the shape of a job's. */
  function IdText(path: string): Option<string> {
    if !(JOBS_PREFIX <= path) then None
    else
      var text := Unquote(path[|JOBS_PREFIX|..]);
      if text == "" || '/' in text then None else Some(text)
  }

  /** `_parse_job_path`, with the decoder of job ids as a parameter. */
  function ParseJobPath(path: string, decode: string -> Option<nat>): Parsed {
    var text := IdText(path);
    if text.None? then NoMatch
    else
      var id := decode(text.value);
      if id.None? then Malformed else Job(id.value)
  }

  function TextOrNone(text: string): Option<string> {
    if text == "" || '/' in text then None else Some(text)
  }

  /** Any bytes at all, percent-encoded into a path, reach the decoder as the text they decode to, with
      U+FFFD for what is no character; nothing is lost exactly when they are well-formed UTF-8. */
  lemma BytesReachDecoder(s: seq<Utf8.Byte>)
    ensures IdText(JOBS_PREFIX + QuoteBytes(s)) == TextOrNone(Utf8.Decode(s))
    ensures Utf8.Encode(Utf8.Decode(s)) == s <==> Utf8.WellFormed(s)
  {
    assert (JOBS_PREFIX + QuoteBytes(s))[|JOBS_PREFIX|..] == QuoteBytes(s);
    UnquoteOfQuote(s);
    Utf8.EncodeOfDecode(s);
  }

  lemma TextReaches(text: string)
    ensures IdText(JOBS_PREFIX + Quote(text)) == TextOrNone(text)
  {
    BytesReachDecoder(Utf8.Encode(text));
    Utf8.DecodeOfEncode(text);
  }

  lemma QuoteIsText(text: string)
    requires text != ""
    ensures Quote(text) != "" && '/' !in Quote(text)
  {
    QuotedIsPlain(Utf8.Encode(text));
  }

  /** The id segment is decoded exactly once: every text but the empty one and those with a '/'
      reaches the decoder as it was before it was encoded into a path, no other text ever does, and
      one that was encoded twice still arrives encoded. */
  lemma TextReachesDecoder(text: string)
    ensures IdText(JOBS_PREFIX + Quote(text)) == Some(text) <==> text != "" && '/' !in text
    ensures (exists path :: IdText(path) == Some(text)) <==> text != "" && '/' !in text
    ensures text != "" ==> IdText(JOBS_PREFIX + Quote(Quote(text))) == Some(Quote(text))
  {
    TextReaches(text);
    if text != "" {
      QuoteIsText(text);
      TextReaches(Quote(text));
    }
  }

  /** A byte that is no part of a character reaches the decoder as U+FFFD, between the texts it stood
      between. */
  lemma InvalidByteReplaced(before: string, b: Utf8.Byte, after: string)
    requires 0x80 <= b && '/' !in before && '/' !in after
    ensures IdText(JOBS_PREFIX + (Quote(before) + (QuoteByte(b) + Quote(after))))
         == Some(before + ([Utf8.REPLACEMENT] + after))
  {
    var tail := [b] + Utf8.Encode(after);
    Utf8.StrayByteReplaced(before, b, after);
    BytesReachDecoder(Utf8.Encode(before) + tail);
    QuoteAppend(Utf8.Encode(before), tail);
    assert tail[1..] == Utf8.Encode(after);
  }

  /** Only a path that starts with the prefix, letter for letter, is a job's: the prefix is never
      percent-decoded. */
  lemma PrefixIsLiteral(path: string, decode: string -> Option<nat>)
    requires ParseJobPath(path, decode) != NoMatch
    ensures "/api/v1/jobs/" <= path
  {
  }

  /** `self.path.split("?", 1)[0]` */
  function BeforeQuery(s: string): string {
    if s == "" || s[0] == '?' then "" else [s[0]] + BeforeQuery(s[1..])
  }

  lemma {:induction false} BeforeQueryOf(path: string, query: string)
    requires '?' !in path && (query == "" || query[0] == '?')
    ensures BeforeQuery(path + query) == path
  {
    if path == "" {
      assert path + query == query;
    } else {
      assert path[0] in path;
      assert (path + query)[1..] == path[1..] + query;
      forall c | c in path[1..]
        ensures c in path
      {
      }
      BeforeQueryOf(path[1..], query);
    }
  }

  /** A text encoded into a path reaches the decoder through the query split as well. */
  lemma EncodedTextRoutes(text: string, query: string, decode: string -> Option<nat>)
    requires text != "" && '/' !in text
    requires query == "" || query[0] == '?'
    ensures ParseJobPath(BeforeQuery(JOBS_PREFIX + Quote(text) + query), decode)
         == if decode(text).None? then Malformed else Job(decode(text).value)
  {
    QuotedIsPlain(Utf8.Encode(text));
    BeforeQueryOf(JOBS_PREFIX + Quote(text), query);
    TextReachesDecoder(text);
  }

  /** The Location header `_jobs_submit` sends. */
  function Location(id: nat): string {
    JOBS_PREFIX + Printed(Plain, id)
  }

  predicate IsDigit58(c: char) {
    DigitValue(c).Some?
  }

  lemma {:induction false} EncodedDigits(n: nat)
    ensures forall i :: 0 <= i < |Encode(n)| ==> IsDigit58(Encode(n)[i])
  {
    if n < 58 {
      DigitRoundTrip(n);
    } else {
      EncodedDigits(n / 58);
      DigitRoundTrip(n % 58);
    }
  }

  predicate AllUnreserved(s: string) {
    forall i :: 0 <= i < |s| ==> Unreserved(s[i])
  }

  lemma DigitsUnreserved(n: nat)
    ensures AllUnreserved(Encode(n))
  {
    EncodedDigits(n);
    forall i | 0 <= i < |Encode(n)|
      ensures Unreserved(Encode(n)[i])
    {
      assert IsDigit58(Encode(n)[i]);
    }
  }

  /** What an id looks like in its three forms: an "f", plain or with a hook, and base 58 digits, as the
      tests expect it; or decimal digits. */
  lemma PrintedShape(id: nat)
    ensures var plain, fancy := Printed(Plain, id), Printed(Fancy, id);
            && |plain| >= 2 && plain[0] == 'f'
            && fancy == "\U{0192}" + plain[1..]
            && (forall i :: 0 < i < |plain| ==> IsDigit58(plain[i]))
            && (forall c :: c in Printed(Dec, id) ==> Digits.IsDigit(c))
  {
    EncodedDigits(id);
    var plain := Printed(Plain, id);
    assert plain[1..] == Encode(id);
    assert forall i :: 0 < i < |plain| ==> plain[i] == Encode(id)[i - 1];
  }

  /** Some Locations in full. */
  lemma LocationExamples()
    ensures Location(0) == "/api/v1/jobs/f1"
    ensures Location(9) == "/api/v1/jobs/fA"
    ensures Location(57) == "/api/v1/jobs/fz"
    ensures Location(58) == "/api/v1/jobs/f21"
  {
  }

  /** In every form but the fancy one an id is printed in unreserved characters only. */
  lemma PrintedIsPlain(form: Form, id: nat)
    ensures Printed(form, id) != "" && '/' !in Printed(form, id)
    ensures form == Fancy <==> !AllUnreserved(Printed(form, id))
  {
    DigitsUnreserved(id);
    var text := Printed(form, id);
    if form == Dec {
      assert forall i :: 0 <= i < |text| ==> Digits.IsDigit(text[i]);
    } else {
      assert forall i :: 0 < i < |text| ==> text[i] == Encode(id)[i - 1];
      assert text[0] == if form == Fancy then '\U{0192}' else 'f';
    }
  }

  /** An id encoded into a path in any of its forms leads back to the job, with or without a query. */
  lemma EveryFormRoutes(form: Form, id: nat, query: string)
    requires id < ID_LIMIT && (query == "" || query[0] == '?')
    ensures ParseJobPath(BeforeQuery(JOBS_PREFIX + Quote(Printed(form, id)) + query), ReadId) == Job(id)
  {
    PrintedIsPlain(form, id);
    PrintedIdReadsBack(form, id);
    EncodedTextRoutes(Printed(form, id), query, ReadId);
  }

  /** The Location of a submitted job leads back to it: for every 64-bit id, with or without a
      query. Encoding its id segment does not change it. */
  lemma LocationRoundTrip(id: nat, query: string)
    requires id < ID_LIMIT && (query == "" || query[0] == '?')
    ensures ParseJobPath(BeforeQuery(Location(id) + query), ReadId) == Job(id)
    ensures JOBS_PREFIX + Quote(Printed(Plain, id)) == Location(id)
  {
    PrintedIsPlain(Plain, id);
    QuoteOfPlain(Printed(Plain, id));
    EveryFormRoutes(Plain, id, query);
  }

  lemma QuotePlainChar(c: char, rest: string)
    requires Unreserved(c)
    ensures Quote([c] + rest) == [c] + Quote(rest)
  {
    var b, tail := c as int, Utf8.Encode(rest);
    assert ([c] + rest)[1..] == rest;
    assert Utf8.Encode([c] + rest) == [b] + tail;
    assert ([b] + tail)[1..] == tail;
  }

  lemma {:induction false} QuoteOfPlain(s: string)
    requires AllUnreserved(s)
    ensures Quote(s) == s
  {
    if s != "" {
      QuoteOfPlain(s[1..]);
      QuotePlainChar(s[0], s[1..]);
      assert [s[0]] + s[1..] == s;
    }
  }

  /** Different ids have different Locations. */
  lemma LocationsDiffer(a: nat, b: nat)
    requires Location(a) == Location(b)
    ensures a == b
  {
    assert Location(a)[|JOBS_PREFIX| + 1..] == Encode(a);
    assert Location(b)[|JOBS_PREFIX| + 1..] == Encode(b);
    DecodeOfEncode(a);
    DecodeOfEncode(b);
  }

  /** The Location is fit to be a header value, and its header declares no length. */
  lemma LocationIsGoodHeader(id: nat)
    ensures Framing.GoodHeader(Framing.Header("Location", Location(id)))
    ensures Framing.Lower("Location") != "content-length"
  {
    PrintedIsPlain(Plain, id);
    var value := Location(id);
    forall i | 0 <= i < |value|
      ensures value[i] != '\r' && value[i] != '\n'
    {
      if i >= |JOBS_PREFIX| {
        assert value[i] == Printed(Plain, id)[i - |JOBS_PREFIX|];
        assert Unreserved(value[i]);
      } else {
        assert value[i] == JOBS_PREFIX[i];
      }
    }
  }
}
