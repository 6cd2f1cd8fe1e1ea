/** UTF-8 (RFC 3629) as Python decodes it with `errors='replace'`: what begins like a character and
    is not one becomes a single U+FFFD, and decoding goes on with the byte that did not fit. */
module Utf8 {
  import opened Prelude

  type Byte = b: int | 0 <= b < 256

  const REPLACEMENT := '\U{FFFD}'

  /** How many bytes a character takes that starts with this one; none if no character does. */
  function Width(b: Byte): nat {
    if b < 0x80 then 1
    else if b < 0xC2 then 0
    else if b < 0xE0 then 2
    else if b < 0xF0 then 3
    else if b < 0xF5 then 4
    else 0
  }

  predicate IsTail(b: Byte) {
    0x80 <= b < 0xC0
  }

  /** The second byte also rules out overlong forms, surrogates, and what lies above U+10FFFF. */
  predicate SecondFits(b: Byte, c: Byte) {
    && IsTail(c)
    && (b == 0xE0 ==> 0xA0 <= c)
    && (b == 0xED ==> c < 0xA0)
    && (b == 0xF0 ==> 0x90 <= c)
    && (b == 0xF4 ==> c < 0x90)
  }

  /** How many bytes belong together at the start: a character, or as much as is there of one. */
  function Begun(s: seq<Byte>): (n: nat)
    requires s != []
    ensures 0 < n <= |s|
  {
    var w := Width(s[0]);
    if w < 2 || |s| < 2 || !SecondFits(s[0], s[1]) then 1
    else if w == 2 || |s| < 3 || !IsTail(s[2]) then 2
    else if w == 3 || |s| < 4 || !IsTail(s[3]) then 3
    else 4
  }

  predicate Complete(s: seq<Byte>)
    requires s != []
  {
    Begun(s) == Width(s[0])
  }

  /** The number that a continuation byte adds to. */
  function Push(n: nat, b: Byte): nat
    requires IsTail(b)
  {
    n * 0x40 + (b as int - 0x80)
  }

  function CodePoint(s: seq<Byte>): (n: nat)
    requires s != [] && Complete(s)
    ensures n < 0xD800 || 0xE000 <= n < 0x11_0000
  {
    match Width(s[0])
    case 1 => s[0]
    case 2 => Push(s[0] as int - 0xC0, s[1])
    case 3 => Push(Push(s[0] as int - 0xE0, s[1]), s[2])
    case _ => Push(Push(Push(s[0] as int - 0xF0, s[1]), s[2]), s[3])
  }

  function First(s: seq<Byte>): char
    requires s != []
  {
    if Complete(s) then CodePoint(s) as char else REPLACEMENT
  }

  /** `bytes.decode("utf-8", "replace")` */
  function Decode(s: seq<Byte>): string {
    if s == [] then "" else [First(s)] + Decode(s[Begun(s)..])
  }

  function Tail(n: nat): Byte {
    0x80 + n % 0x40
  }

  function EncodeChar(c: char): (s: seq<Byte>)
    ensures s != []
  {
    var n := c as int;
    if n < 0x80 then [n]
    else if n < 0x800 then [0xC0 + n / 0x40, Tail(n)]
    else if n < 0x1_0000 then [0xE0 + n / 0x40 / 0x40, Tail(n / 0x40), Tail(n)]
    else [0xF0 + n / 0x40 / 0x40 / 0x40, Tail(n / 0x40 / 0x40), Tail(n / 0x40), Tail(n)]
  }

  /** `str.encode("utf-8")` */
  function Encode(s: string): seq<Byte> {
    if s == "" then [] else EncodeChar(s[0]) + Encode(s[1..])
  }

  /** Made of whole characters. */
  predicate WellFormed(s: seq<Byte>) {
    s == [] || (Complete(s) && WellFormed(s[Begun(s)..]))
  }

  // ---------------------------------------------------------------------------------------------
  // One character

  lemma PushTail(n: nat)
    ensures IsTail(Tail(n)) && Push(n / 0x40, Tail(n)) == n
  {
  }

  lemma TailPush(n: nat, b: Byte)
    requires IsTail(b)
    ensures Push(n, b) / 0x40 == n && Tail(Push(n, b)) == b
  {
  }

  lemma CharReadsBack(c: char, rest: seq<Byte>)
    ensures var s := EncodeChar(c) + rest;
            Complete(s) && Begun(s) == |EncodeChar(c)| && CodePoint(s) == c as int
  {
    var n := c as int;
    PushTail(n);
    PushTail(n / 0x40);
    PushTail(n / 0x40 / 0x40);
  }

  lemma CompleteIsEncoded(s: seq<Byte>)
    requires s != [] && Complete(s)
    ensures EncodeChar(CodePoint(s) as char) == s[..Begun(s)]
  {
    var w := Width(s[0]);
    if w == 1 {
    } else if w == 2 {
      TailPush(s[0] as int - 0xC0, s[1]);
    } else if w == 3 {
      TailPush(s[0] as int - 0xE0, s[1]);
      TailPush(Push(s[0] as int - 0xE0, s[1]), s[2]);
    } else {
      TailPush(s[0] as int - 0xF0, s[1]);
      TailPush(Push(s[0] as int - 0xF0, s[1]), s[2]);
      TailPush(Push(Push(s[0] as int - 0xF0, s[1]), s[2]), s[3]);
    }
  }

  lemma DecodeFirst(c: char, rest: seq<Byte>)
    ensures Decode(EncodeChar(c) + rest) == [c] + Decode(rest)
  {
    var s := EncodeChar(c) + rest;
    CharReadsBack(c, rest);
    assert s[|EncodeChar(c)|..] == rest;
  }

  /** Characters of one to four bytes, as RFC 3629 lays them out. */
  lemma EncodingExamples()
    ensures EncodeChar('f') == [0x66]
    ensures EncodeChar('\U{00E9}') == [0xC3, 0xA9]
    ensures EncodeChar('\U{0192}') == [0xC6, 0x92]
    ensures EncodeChar('\U{20AC}') == [0xE2, 0x82, 0xAC]
    ensures EncodeChar('\U{1F600}') == [0xF0, 0x9F, 0x98, 0x80]
  {
  }

  /** Byte order is code point order: the encodings of two characters differ first at a byte that is
      less for the lesser one. */
  lemma OrderPreserved(c: char, d: char) returns (k: nat)
    requires c < d
    ensures k < |EncodeChar(c)| && k < |EncodeChar(d)|
    ensures EncodeChar(c)[..k] == EncodeChar(d)[..k] && EncodeChar(c)[k] < EncodeChar(d)[k]
  {
    var a, b := EncodeChar(c), EncodeChar(d);
    var m, n := c as int, d as int;
    k := 0;
    if |a| == |b| {
      if a[0] == b[0] {
        k := 1;
        if a[1] == b[1] && |a| > 2 {
          k := 2;
          if a[2] == b[2] && |a| > 3 {
            k := 3;
          }
        }
      }
    }
  }

  // ---------------------------------------------------------------------------------------------
  // Texts

  lemma {:induction false} DecodeAfter(text: string, rest: seq<Byte>)
    ensures Decode(Encode(text) + rest) == text + Decode(rest)
  {
    if text == "" {
      assert Encode(text) + rest == rest;
    } else {
      var tail := Encode(text[1..]);
      Assoc(EncodeChar(text[0]), tail, rest);
      DecodeFirst(text[0], tail + rest);
      DecodeAfter(text[1..], rest);
      Assoc([text[0]], text[1..], Decode(rest));
      assert [text[0]] + text[1..] == text;
    }
  }

  /** Decoding is the inverse of encoding, for every text. */
  lemma DecodeOfEncode(text: string)
    ensures Decode(Encode(text)) == text
  {
    DecodeAfter(text, []);
    assert Encode(text) + [] == Encode(text);
  }

  lemma {:induction false} StartsNoTail(text: string)
    ensures text != "" ==> Encode(text) != [] && !IsTail(Encode(text)[0])
  {
  }

  /** A stray byte between two texts is replaced, and costs nothing of either text. */
  lemma StrayByteReplaced(before: string, b: Byte, after: string)
    requires 0x80 <= b
    ensures Decode(Encode(before) + ([b] + Encode(after))) == before + ([REPLACEMENT] + after)
  {
    var s := [b] + Encode(after);
    DecodeAfter(before, s);
    StartsNoTail(after);
    assert after != "" ==> s[1] == Encode(after)[0];
    assert Begun(s) == 1 && s[1..] == Encode(after);
    DecodeOfEncode(after);
  }

  lemma BegunOfCut(c: char, n: nat, rest: seq<Byte>)
    requires 0 < n < |EncodeChar(c)| && (rest == [] || !IsTail(rest[0]))
    ensures var s := EncodeChar(c)[..n] + rest;
            Begun(s) == n && !Complete(s) && s[n..] == rest
  {
    var e, s := EncodeChar(c), EncodeChar(c)[..n] + rest;
    CharReadsBack(c, []);
    assert e + [] == e;
    assert s[0] == e[0];
    assert n > 1 ==> s[1] == e[1];
    assert n > 2 ==> s[2] == e[2];
    assert rest != [] ==> s[n] == rest[0];
  }

  /** A character cut short before another text is replaced by one U+FFFD, however much of it is there. */
  lemma CutCharReplacedOnce(c: char, n: nat, after: string)
    requires 0 < n < |EncodeChar(c)|
    ensures Decode(EncodeChar(c)[..n] + Encode(after)) == [REPLACEMENT] + after
  {
    StartsNoTail(after);
    assert after == "" ==> Encode(after) == [];
    BegunOfCut(c, n, Encode(after));
    DecodeOfEncode(after);
  }

  lemma ReplacementIsComplete(s: seq<Byte>)
    requires s != [] && EncodeChar(REPLACEMENT) <= s
    ensures Complete(s)
  {
  }

  lemma EncodeDecoded(s: seq<Byte>)
    requires s != []
    ensures Encode(Decode(s)) == EncodeChar(First(s)) + Encode(Decode(s[Begun(s)..]))
  {
    assert Decode(s)[1..] == Decode(s[Begun(s)..]);
  }

  lemma SameAfterSame(a: seq<Byte>, b: seq<Byte>, c: seq<Byte>)
    ensures a + b == a + c <==> b == c
  {
    assert (a + b)[|a|..] == b && (a + c)[|a|..] == c;
  }

  /** The first character is lost if it was none: what is put for it is one. */
  lemma FirstLost(s: seq<Byte>, rest: seq<Byte>)
    requires s != [] && EncodeChar(First(s)) + rest == s
    ensures Complete(s)
  {
    if !Complete(s) {
      ReplacementIsComplete(s);
    }
  }

  lemma FirstKept(s: seq<Byte>, rest: seq<Byte>)
    requires s != [] && Complete(s)
    ensures EncodeChar(First(s)) + rest == s <==> rest == s[Begun(s)..]
  {
    CompleteIsEncoded(s);
    SameAfterSame(s[..Begun(s)], rest, s[Begun(s)..]);
    assert s == s[..Begun(s)] + s[Begun(s)..];
  }

  /** Encoding gives the bytes back exactly when they were made of whole characters. */
  lemma {:induction false} EncodeOfDecode(s: seq<Byte>)
    ensures Encode(Decode(s)) == s <==> WellFormed(s)
    decreases |s|
  {
    if s != [] {
      var rest := s[Begun(s)..];
      EncodeDecoded(s);
      if Complete(s) {
        FirstKept(s, Encode(Decode(rest)));
        EncodeOfDecode(rest);
      } else if Encode(Decode(s)) == s {
        FirstLost(s, Encode(Decode(rest)));
      }
    }
  }
}
