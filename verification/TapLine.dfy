/** Reading one line of TAP: which kind of line it is, and for a result line its number and its
    directive. Regular expressions of the awk program are spelled out on characters. */
module TapLine {
  import opened Prelude
  import opened Digits

  datatype Directive = NoDirective | Todo | Skip

  datatype Line =
    | ResultLine(ok: bool, number: Option<nat>, directive: Directive)
    | PlanLine(planned: nat)
    | SkipPlanLine(reason: string)     // a plan of zero tests with an explanation
    | BailOutLine
    | OtherLine

  predicate IsBlank(c: char) {
    c == ' ' || c == '\t'
  }

  /** [a-zA-Z0-9_] */
  predicate IsWord(c: char) {
    'a' <= c <= 'z' || 'A' <= c <= 'Z' || IsDigit(c) || c == '_'
  }

  function TrimLeft(s: string): string {
    if s != [] && IsBlank(s[0]) then TrimLeft(s[1..]) else s
  }

  function TrimRight(s: string): string {
    if s != [] && IsBlank(s[|s| - 1]) then TrimRight(s[..|s| - 1]) else s
  }

  predicate AllBlank(s: string) {
    forall i :: 0 <= i < |s| ==> IsBlank(s[i])
  }

  /** The length of the run of digits a string starts with. */
  function DigitRun(s: string): (n: nat)
    ensures n <= |s| && AllDigits(s[..n])
    ensures n < |s| ==> !IsDigit(s[n])
  {
    if s != [] && IsDigit(s[0]) then
      assert forall i :: 0 < i <= DigitRun(s[1..]) ==> s[i] == s[1..][i - 1];
      1 + DigitRun(s[1..])
    else 0
  }

  // ---------------------------------------------------------------------------------------------
  // Directives

  function Upper(c: char): char {
    if 'a' <= c <= 'z' then c - 'a' + 'A' else c
  }

  /** The directive a string starts with, in any case of letters. */
  function Keyword(s: string): Directive {
    if |s| < 4 then NoDirective
    else
      var w := [Upper(s[0]), Upper(s[1]), Upper(s[2]), Upper(s[3])];
      if w == "TODO" then Todo else if w == "SKIP" then Skip else NoDirective
  }

  /** The text after the '#' at `h`, without leading blanks. */
  function After(s: string, h: nat): string
    requires h < |s|
  {
    TrimLeft(s[h + 1..])
  }

  /** '#' at `h` introduces a directive that runs to the end of the line. */
  predicate ClosingAt(s: string, h: nat)
    requires h < |s|
  {
    s[h] == '#' && Keyword(After(s, h)) != NoDirective && AllBlank(After(s, h)[4..])
  }

  /** '#' at `h` introduces a directive that some non-word character follows. */
  predicate InnerAt(s: string, h: nat)
    requires h < |s|
  {
    s[h] == '#' && Keyword(After(s, h)) != NoDirective && |After(s, h)| > 4 && !IsWord(After(s, h)[4])
  }

  function FirstClosing(s: string, from: nat): (h: Option<nat>)
    requires from <= |s|
    ensures h.Some? ==> from <= h.value < |s| && ClosingAt(s, h.value)
    ensures forall k :: from <= k < (if h.Some? then h.value else |s|) ==> !ClosingAt(s, k)
    decreases |s| - from
  {
    if from == |s| then None else if ClosingAt(s, from) then Some(from) else FirstClosing(s, from + 1)
  }

  function FirstInner(s: string, from: nat): (h: Option<nat>)
    requires from <= |s|
    ensures h.Some? ==> from <= h.value < |s| && InnerAt(s, h.value)
    ensures forall k :: from <= k < (if h.Some? then h.value else |s|) ==> !InnerAt(s, k)
    decreases |s| - from
  {
    if from == |s| then None else if InnerAt(s, from) then Some(from) else FirstInner(s, from + 1)
  }

  /** Where the '#' of the directive is: a directive that closes the line is looked for first. */
  function DirectiveMark(s: string): (h: Option<nat>)
    ensures h.Some? ==> h.value < |s| && s[h.value] == '#' && Keyword(After(s, h.value)) != NoDirective
  {
    var closing := FirstClosing(s, 0);
    if closing.Some? then closing else FirstInner(s, 0)
  }

  /** How many backslashes end right before position `i`. */
  function Backslashes(s: string, i: nat): nat
    requires i <= |s|
  {
    if i > 0 && s[i - 1] == '\\' then 1 + Backslashes(s, i - 1) else 0
  }

  /** The match takes in the blanks before the '#'; only when there are none is an escape possible. */
  predicate IsEscaped(s: string, h: nat)
    requires h < |s|
  {
    !(h > 0 && IsBlank(s[h - 1])) && Backslashes(s, h) % 2 == 1
  }

  /** The directive of a result line, from its text without surrounding blanks. */
  function DirectiveOf(s: string): Directive {
    var h := DirectiveMark(s);
    if h.None? || IsEscaped(s, h.value) then NoDirective else Keyword(After(s, h.value))
  }

  /** The counting loop of `setup_result_obj`. */
  method CountBackslashes(s: string, pos: nat) returns (count: nat)
    requires pos <= |s|
    ensures count == Backslashes(s, pos)
  {
    count := 0;
    var i := pos;
    while i > 0 && s[i - 1] == '\\'
      invariant 0 <= i <= pos
      invariant count + Backslashes(s, i) == Backslashes(s, pos)
    {
      count := count + 1;
      i := i - 1;
    }
  }

  /** `n` backslashes stand right before position `i`, and no more. */
  ghost predicate RunBefore(s: string, i: nat, n: nat)
    requires i <= |s|
  {
    n <= i && (forall k :: i - n <= k < i ==> s[k] == '\\') && (n < i ==> s[i - n - 1] != '\\')
  }

  /** `Backslashes` is the length of the maximal run before a position. */
  lemma {:induction false} BackslashesIsMaximalRun(s: string, i: nat, n: nat)
    requires i <= |s|
    ensures Backslashes(s, i) == n <==> RunBefore(s, i, n)
  {
    if i > 0 && s[i - 1] == '\\' {
      if n > 0 {
        BackslashesIsMaximalRun(s, i - 1, n - 1);
      }
    }
  }

  ghost function Run(c: char, n: nat): (s: string)
    ensures |s| == n && forall i :: 0 <= i < n ==> s[i] == c
  {
    seq(n, i => c)
  }

  lemma {:induction false} TrimLeftKeeps(s: string)
    ensures |TrimLeft(s)| <= |s| && TrimLeft(s) == s[|s| - |TrimLeft(s)|..]
    ensures forall i :: 0 <= i < |s| - |TrimLeft(s)| ==> IsBlank(s[i])
    ensures TrimLeft(s) != [] ==> !IsBlank(TrimLeft(s)[0])
  {
    if s != [] && IsBlank(s[0]) {
      TrimLeftKeeps(s[1..]);
      forall i | 0 <= i < |s| - |TrimLeft(s)|
        ensures IsBlank(s[i])
      {
        assert i > 0 ==> s[1..][i - 1] == s[i];
      }
    }
  }

  lemma TrimLeftTwice(s: string)
    ensures TrimLeft(TrimLeft(s)) == TrimLeft(s)
  {
    TrimLeftKeeps(s);
  }

  /** A '#' after the one at `h` keeps that one from closing the line. */
  lemma LaterMarkPreventsClosing(s: string, h: nat, k: nat)
    requires h < k < |s| && s[k] == '#'
    ensures !ClosingAt(s, h)
  {
    var rest := s[h + 1..];
    TrimLeftKeeps(rest);
    var after := TrimLeft(rest);
    var skipped := |rest| - |after|;
    assert rest[k - h - 1] == '#';
    if k - h - 1 >= skipped {
      var m := k - h - 1 - skipped;
      assert after[m] == '#';
      KeywordHasNoMark(after);
      if m >= 4 {
        assert after[4..][m - 4] == '#';
      }
    }
  }

  lemma KeywordHasNoMark(s: string)
    ensures Keyword(s) != NoDirective ==> forall i :: 0 <= i < 4 ==> s[i] != '#'
  {
    if Keyword(s) != NoDirective {
      var w := [Upper(s[0]), Upper(s[1]), Upper(s[2]), Upper(s[3])];
      assert w == "TODO" || w == "SKIP";
      forall i | 0 <= i < 4
        ensures s[i] != '#'
      {
        assert w[i] == Upper(s[i]);
      }
    }
  }

  /** Escaping, on every text: the directive at the mark is discarded exactly when an odd number of
      backslashes stands right before it. */
  lemma EscapedExactlyWhenOdd(s: string, h: nat, n: nat)
    requires DirectiveMark(s) == Some(h) && RunBefore(s, h, n)
    ensures DirectiveOf(s) == NoDirective <==> n % 2 == 1
    ensures n % 2 == 0 ==> DirectiveOf(s) == Keyword(After(s, h))
  {
    BackslashesIsMaximalRun(s, h, n);
    assert n > 0 ==> s[h - 1] == '\\';
  }

  lemma KeywordStartsWithLetter(s: string)
    ensures Keyword(s) != NoDirective ==> !IsBlank(s[0])
  {
    if Keyword(s) != NoDirective {
      var w := [Upper(s[0]), Upper(s[1]), Upper(s[2]), Upper(s[3])];
      assert w[0] == 'T' || w[0] == 'S';
    }
  }

  lemma {:induction false} TrimLeftSkips(blanks: string, t: string)
    requires AllBlank(blanks) && (t == "" || !IsBlank(t[0]))
    ensures TrimLeft(blanks + t) == t
  {
    if blanks == "" {
      assert blanks + t == t;
    } else {
      assert (blanks + t)[1..] == blanks[1..] + t;
      TrimLeftSkips(blanks[1..], t);
    }
  }

  /** The text of a directive as it is read: what stands after its '#', without leading blanks. */
  lemma AfterMark(a: string, blanks: string, word: string, tail: string)
    requires AllBlank(blanks) && |word| == 4 && Keyword(word) != NoDirective
    ensures var s := a + "#" + (blanks + (word + tail));
            After(s, |a|) == word + tail && Keyword(After(s, |a|)) == Keyword(word)
  {
    var s, text := a + "#" + (blanks + (word + tail)), word + tail;
    assert s[|a| + 1..] == blanks + text;
    KeywordStartsWithLetter(word);
    TrimLeftSkips(blanks, text);
  }

  /** How a directive may stand on its line: closing it, or followed by something that is not part
      of a word, with no other '#' on the line. */
  predicate WellPlaced(p: string, tail: string) {
    AllBlank(tail) || ('#' !in p && '#' !in tail && !IsWord(tail[0]))
  }

  lemma ClosingMark(a: string, blanks: string, word: string, tail: string)
    requires AllBlank(blanks) && |word| == 4 && Keyword(word) != NoDirective && AllBlank(tail)
    ensures DirectiveMark(a + "#" + (blanks + (word + tail))) == Some(|a|)
  {
    var s := a + "#" + (blanks + (word + tail));
    AfterMark(a, blanks, word, tail);
    assert (word + tail)[4..] == tail;
    assert s[|a|] == '#' && ClosingAt(s, |a|);
    forall k | 0 <= k < |a|
      ensures !ClosingAt(s, k)
    {
      LaterMarkPreventsClosing(s, k, |a|);
    }
  }

  lemma LoneMark(a: string, blanks: string, word: string, tail: string)
    requires AllBlank(blanks) && |word| == 4 && Keyword(word) != NoDirective
    requires '#' !in a && '#' !in tail && tail != "" && !IsWord(tail[0])
    ensures DirectiveMark(a + "#" + (blanks + (word + tail))) == Some(|a|)
  {
    var s, rest := a + "#" + (blanks + (word + tail)), blanks + (word + tail);
    AfterMark(a, blanks, word, tail);
    KeywordHasNoMark(word);
    assert '#' !in word && '#' !in blanks && '#' !in rest;
    forall k | 0 <= k < |s| && k != |a|
      ensures s[k] != '#'
    {
      assert k < |a| ==> s[k] == a[k];
      assert k > |a| ==> s[k] == rest[k - |a| - 1];
    }
    assert InnerAt(s, |a|);
  }

  /** A directive is read from its line whatever stands before it, with any blanks after the '#' and
      with or without a reason, exactly when the number of backslashes before the '#' is even. */
  lemma DirectiveReadsBack(p: string, n: nat, blanks: string, word: string, tail: string)
    requires |word| == 4 && Keyword(word) != NoDirective && AllBlank(blanks) && WellPlaced(p, tail)
    requires p != "" ==> p[|p| - 1] != '\\'
    ensures DirectiveOf(p + Run('\\', n) + "#" + (blanks + (word + tail)))
         == if n % 2 == 1 then NoDirective else Keyword(word)
  {
    var a := p + Run('\\', n);
    var s := a + "#" + (blanks + (word + tail));
    if AllBlank(tail) {
      ClosingMark(a, blanks, word, tail);
    } else {
      LoneMark(a, blanks, word, tail);
    }
    AfterMark(a, blanks, word, tail);
    EscapedExactlyWhenOdd(s, |a|, n);
  }

  /** The two directives, letter by letter, in any case. */
  lemma KeywordInAnyCase(s: string)
    ensures Keyword(s) == Todo <==>
              |s| >= 4 && s[0] in "tT" && s[1] in "oO" && s[2] in "dD" && s[3] in "oO"
    ensures Keyword(s) == Skip <==>
              |s| >= 4 && s[0] in "sS" && s[1] in "kK" && s[2] in "iI" && s[3] in "pP"
  {
    if |s| >= 4 {
      var w := [Upper(s[0]), Upper(s[1]), Upper(s[2]), Upper(s[3])];
      assert w == "TODO" <==> w[0] == 'T' && w[1] == 'O' && w[2] == 'D' && w[3] == 'O';
      assert w == "SKIP" <==> w[0] == 'S' && w[1] == 'K' && w[2] == 'I' && w[3] == 'P';
    }
  }

  lemma SmallLetters(c: char)
    ensures 'a' <= c <= 'z' <==> c in "abcdefghijklmnopqrstuvwxyz"
  {
    if 'a' <= c <= 'z' {
      assert "abcdefghijklmnopqrstuvwxyz"[(c - 'a') as int] == c;
    }
  }

  lemma CapitalLetters(c: char)
    ensures 'A' <= c <= 'Z' <==> c in "ABCDEFGHIJKLMNOPQRSTUVWXYZ"
  {
    if 'A' <= c <= 'Z' {
      assert "ABCDEFGHIJKLMNOPQRSTUVWXYZ"[(c - 'A') as int] == c;
    }
  }

  /** The characters that a directive, a number or "ok" must not run on into. */
  lemma WordCharacters(c: char)
    ensures IsWord(c) <==>
              || c in "abcdefghijklmnopqrstuvwxyz" || c in "ABCDEFGHIJKLMNOPQRSTUVWXYZ"
              || c in "0123456789" || c == '_'
  {
    SmallLetters(c);
    CapitalLetters(c);
    DigitsInOrder(c);
  }

  /** A lone '#' makes no directive when no keyword follows it, or one that runs on as a longer word. */
  lemma OtherCommentIsNoDirective(a: string, t: string)
    requires '#' !in a && '#' !in t
    requires Keyword(TrimLeft(t)) == NoDirective || (|TrimLeft(t)| > 4 && IsWord(TrimLeft(t)[4]))
    ensures DirectiveOf(a + "#" + t) == NoDirective
  {
    var s := a + "#" + t;
    assert s[|a| + 1..] == t;
    forall k | 0 <= k < |s| && k != |a|
      ensures s[k] != '#'
    {
      assert k < |a| ==> s[k] == a[k];
      assert k > |a| ==> s[k] == t[k - |a| - 1];
    }
    assert |TrimLeft(t)| > 4 ==> TrimLeft(t)[4..][0] == TrimLeft(t)[4];
  }

  // ---------------------------------------------------------------------------------------------
  // Kinds of line

  predicate StartsWith(s: string, prefix: string) {
    |prefix| <= |s| && s[..|prefix|] == prefix
  }

  /** The rest of a result line after "ok" or "not ok"; None for any other line. */
  function AfterOk(s: string): Option<string> {
    var rest := if StartsWith(s, "not ok") then Some(s[6..])
                else if StartsWith(s, "ok") then Some(s[2..])
                else None;
    if rest.Some? && (rest.value == [] || !IsWord(rest.value[0])) then rest else None
  }

  /** `setup_result_obj`, as far as the verdict goes: an explicit number, if the line has one that
      ends there or before a non-word character, and the directive. */
  function ParseResult(ok: bool, rest: string): Line {
    var s := TrimLeft(rest);
    var d := DigitRun(s);
    if d > 0 && (d == |s| || !IsWord(s[d])) then
      ResultLine(ok, Some(Value(s[..d])), DirectiveOf(TrimRight(TrimLeft(s[d..]))))
    else
      ResultLine(ok, None, DirectiveOf(TrimRight(s)))
  }

  predicate AllZero(s: string) {
    forall i :: 0 <= i < |s| ==> s[i] == '0'
  }

  /** The explanation of a plan of zero tests, from the text after its '#'. */
  function SkipReason(s: string): string {
    var t := TrimLeft(s);
    var u := if StartsWith(t, "SKIP") && |t| > 4 && (t[4] == ':' || IsBlank(t[4])) then TrimLeft(t[5..]) else t;
    TrimRight(u)
  }

  function Classify(s: string): Line {
    var rest := AfterOk(s);
    if rest.Some? then ParseResult(StartsWith(s, "ok"), rest.value)
    else if StartsWith(s, "1..") && DigitRun(s[3..]) > 0 then
      var d := DigitRun(s[3..]);
      var tail := s[3 + d..];
      if AllBlank(tail) then PlanLine(Value(s[3..][..d]))
      else if AllZero(s[3..][..d]) && StartsWith(TrimLeft(tail), "#") then
        SkipPlanLine(SkipReason(TrimLeft(tail)[1..]))
      else OtherLine
    else if StartsWith(TrimLeft(s), "Bail out!") then BailOutLine
    else OtherLine
  }

  /** What the last line of the input says as an exit status. */
  datatype ExitStatus = Status(code: nat) | NotAStatus

  function ReadStatus(s: string): ExitStatus {
    if s != [] && AllDigits(s) && AllZero(s) then Status(0)
    else if s != [] && AllDigits(s) && s[0] != '0' then Status(Value(s))
    else NotAStatus
  }

  // ---------------------------------------------------------------------------------------------
  // The kinds of line as a grammar

  /** "ok" or "not ok", alone or before a character that does not continue the word. */
  predicate ResultText(s: string, ok: bool, t: string) {
    s == (if ok then "ok" else "not ok") + t && (t == "" || !IsWord(t[0]))
  }

  /** "1..", digits, blanks. */
  predicate PlanText(s: string, digits: string, blanks: string) {
    s == "1.." + (digits + blanks) && digits != "" && AllDigits(digits) && AllBlank(blanks)
  }

  /** "1..", zeros, blanks, '#', anything. */
  predicate SkipPlanText(s: string, zeros: string, blanks: string, t: string) {
    s == "1.." + (zeros + (blanks + ("#" + t))) && zeros != "" && AllZero(zeros) && AllBlank(blanks)
  }

  /** Blanks, "Bail out!", anything. */
  predicate BailOutText(s: string, blanks: string, t: string) {
    s == blanks + ("Bail out!" + t) && AllBlank(blanks)
  }

  lemma ResultClassified(s: string, ok: bool, t: string)
    requires ResultText(s, ok, t)
    ensures Classify(s) == ParseResult(ok, t) && Classify(s).ResultLine?
  {
    ClassifyResult(ok, t);
  }

  /** What becomes of "1..", digits, and a rest that does not go on with a digit. */
  lemma PlanForms(digits: string, tail: string)
    requires digits != "" && AllDigits(digits) && (tail == "" || !IsDigit(tail[0]))
    ensures Classify("1.." + (digits + tail))
         == if AllBlank(tail) then PlanLine(Value(digits))
            else if AllZero(digits) && StartsWith(TrimLeft(tail), "#") then
              SkipPlanLine(SkipReason(TrimLeft(tail)[1..]))
            else OtherLine
  {
    var s, rest := "1.." + (digits + tail), digits + tail;
    assert s[0] == '1' && s[..3] == "1.." && s[3..] == rest;
    DigitRunAppend(digits, tail);
    assert rest[..|digits|] == digits && s[3 + |digits|..] == tail;
    NoBailOut(s);
  }

  lemma NoBailOut(s: string)
    requires s != "" && s[0] == '1'
    ensures AfterOk(s) == None && !StartsWith(TrimLeft(s), "Bail out!")
  {
  }

  lemma PlanClassified(s: string, digits: string, blanks: string)
    requires PlanText(s, digits, blanks)
    ensures Classify(s) == PlanLine(Value(digits))
  {
    PlanForms(digits, blanks);
  }

  lemma SkipPlanClassified(s: string, zeros: string, blanks: string, t: string)
    requires SkipPlanText(s, zeros, blanks, t)
    ensures Classify(s) == SkipPlanLine(SkipReason(t))
  {
    var mark := "#" + t;
    var tail := blanks + mark;
    assert AllDigits(zeros);
    assert tail[|blanks|] == '#' && tail[0] == if blanks == "" then '#' else blanks[0];
    PlanForms(zeros, tail);
    TrimLeftSkips(blanks, mark);
    assert mark[1..] == t;
  }

  lemma BailOutClassified(s: string, blanks: string, t: string)
    requires BailOutText(s, blanks, t)
    ensures Classify(s) == BailOutLine
  {
    var rest := "Bail out!" + t;
    TrimLeftSkips(blanks, rest);
    assert rest[..9] == "Bail out!";
    NotResultNorPlan(s);
  }

  lemma NotResultNorPlan(s: string)
    requires s != "" && (IsBlank(s[0]) || s[0] == 'B')
    ensures AfterOk(s) == None && !StartsWith(s, "1..")
  {
  }

  lemma {:induction false} BlanksTrimmed(s: string) returns (blanks: string)
    ensures AllBlank(blanks) && s == blanks + TrimLeft(s)
  {
    TrimLeftKeeps(s);
    blanks := s[..|s| - |TrimLeft(s)|];
  }

  lemma ResultRecognised(s: string) returns (ok: bool, t: string)
    requires Classify(s).ResultLine?
    ensures ResultText(s, ok, t)
  {
    ok, t := StartsWith(s, "ok"), AfterOk(s).value;
    assert StartsWith(s, "not ok") ==> s[0] == 'n' && s == "not ok" + s[6..];
    assert StartsWith(s, "ok") ==> s[0] == 'o' && s == "ok" + s[2..];
  }

  lemma PlanRecognised(s: string) returns (digits: string, blanks: string)
    requires Classify(s).PlanLine?
    ensures PlanText(s, digits, blanks)
  {
    var d := DigitRun(s[3..]);
    digits, blanks := s[3..][..d], s[3 + d..];
    assert s == s[..3] + (digits + blanks);
  }

  lemma SkipPlanRecognised(s: string) returns (zeros: string, blanks: string, t: string)
    requires Classify(s).SkipPlanLine?
    ensures SkipPlanText(s, zeros, blanks, t)
  {
    var d := DigitRun(s[3..]);
    var tail := s[3 + d..];
    zeros, t := s[3..][..d], TrimLeft(tail)[1..];
    blanks := BlanksTrimmed(tail);
    assert TrimLeft(tail) == "#" + t;
    assert s == s[..3] + (zeros + tail);
  }

  lemma BailOutRecognised(s: string) returns (blanks: string, t: string)
    requires Classify(s) == BailOutLine
    ensures BailOutText(s, blanks, t)
  {
    t := TrimLeft(s)[9..];
    blanks := BlanksTrimmed(s);
    assert TrimLeft(s) == "Bail out!" + t;
  }

  /** Every line is of the kind its text says, and of no kind exactly when it has none of the forms. */
  lemma ClassifiedByForm(s: string)
    ensures Classify(s).ResultLine? <==> exists ok, t :: ResultText(s, ok, t)
    ensures Classify(s).PlanLine? <==> exists digits, blanks :: PlanText(s, digits, blanks)
    ensures Classify(s).SkipPlanLine? <==> exists zeros, blanks, t :: SkipPlanText(s, zeros, blanks, t)
    ensures Classify(s) == BailOutLine <==> exists blanks, t :: BailOutText(s, blanks, t)
  {
    if ok, t :| ResultText(s, ok, t) {
      ResultClassified(s, ok, t);
    }
    if digits, blanks :| PlanText(s, digits, blanks) {
      PlanClassified(s, digits, blanks);
    }
    if zeros, blanks, t :| SkipPlanText(s, zeros, blanks, t) {
      SkipPlanClassified(s, zeros, blanks, t);
    }
    if blanks, t :| BailOutText(s, blanks, t) {
      BailOutClassified(s, blanks, t);
    }
    match Classify(s)
    case ResultLine(_, _, _) => var ok, t := ResultRecognised(s);
    case PlanLine(_) => var digits, blanks := PlanRecognised(s);
    case SkipPlanLine(_) => var zeros, blanks, t := SkipPlanRecognised(s);
    case BailOutLine => var blanks, t := BailOutRecognised(s);
    case OtherLine =>
  }

  lemma {:induction false} TrimRightBlank(s: string)
    requires AllBlank(s)
    ensures TrimRight(s) == ""
  {
    if s != "" {
      TrimRightBlank(s[..|s| - 1]);
    }
  }

  /** A text without blanks at its ends, put between blanks, is found again. */
  lemma TrimmedText(before: string, text: string, after: string)
    requires AllBlank(before) && AllBlank(after)
    requires text != "" ==> !IsBlank(text[0]) && !IsBlank(text[|text| - 1])
    ensures TrimRight(TrimLeft(before + (text + after))) == text
  {
    if text == "" {
      var all := before + ("" + after);
      assert all + "" == all;
      TrimLeftSkips(all, "");
    } else {
      TrimLeftSkips(before, text + after);
      TrimRightStops(text, after);
      TrimRightBlank(after);
      assert text + "" == text;
    }
  }

  /** The reason of a skipped plan is what stands after the '#', without blanks around it and without
      the word SKIP. */
  lemma SkipReasonReadsBack(before: string, mark: char, between: string, reason: string, after: string)
    requires AllBlank(before) && AllBlank(between) && AllBlank(after) && (mark == ':' || IsBlank(mark))
    requires reason != "" ==> !IsBlank(reason[0]) && !IsBlank(reason[|reason| - 1])
    ensures SkipReason(before + ("SKIP" + ([mark] + (between + (reason + after))))) == reason
  {
    var rest := between + (reason + after);
    var t := "SKIP" + ([mark] + rest);
    TrimLeftSkips(before, t);
    assert t[..4] == "SKIP" && t[4] == mark && t[5..] == rest;
    TrimmedText(between, reason, after);
  }

  /** A reason that does not start with that word is all of the text. */
  lemma PlainReasonReadsBack(before: string, reason: string, after: string)
    requires AllBlank(before) && AllBlank(after) && !StartsWith(reason + after, "SKIP")
    requires reason != "" ==> !IsBlank(reason[0]) && !IsBlank(reason[|reason| - 1])
    ensures SkipReason(before + (reason + after)) == reason
  {
    TrimmedText(before, reason, after);
    if reason == "" {
      var all := before + ("" + after);
      assert all + "" == all;
      TrimLeftSkips(all, "");
    } else {
      TrimLeftSkips(before, reason + after);
    }
  }

  // ---------------------------------------------------------------------------------------------
  // Lines a test script prints

  lemma {:induction false} DigitRunAppend(d: string, t: string)
    requires AllDigits(d) && (t == [] || !IsDigit(t[0]))
    ensures DigitRun(d + t) == |d|
  {
    if d == [] {
      assert d + t == t;
    } else {
      assert (d + t)[1..] == d[1..] + t;
      DigitRunAppend(d[1..], t);
    }
  }

  lemma {:induction false} NoMarkNoDirective(s: string)
    requires '#' !in s
    ensures DirectiveOf(s) == NoDirective
  {
  }

  lemma {:induction false} TrimRightKeeps(s: string)
    ensures |TrimRight(s)| <= |s| && TrimRight(s) == s[..|TrimRight(s)|]
  {
    if s != [] && IsBlank(s[|s| - 1]) {
      TrimRightKeeps(s[..|s| - 1]);
    }
  }

  lemma AfterOkOf(ok: bool, t: string)
    requires t == [] || !IsWord(t[0])
    ensures var s := (if ok then "ok" else "not ok") + t;
            AfterOk(s) == Some(t) && StartsWith(s, "ok") == ok
  {
    var s := (if ok then "ok" else "not ok") + t;
    if ok {
      assert s[0] == 'o' && s[2..] == t;
    } else {
      assert s[0] == 'n' && s[6..] == t;
    }
  }

  lemma ParseNumeral(ok: bool, numeral: string, tail: string)
    requires numeral != "" && AllDigits(numeral) && (tail == [] || !IsWord(tail[0]))
    ensures ParseResult(ok, " " + (numeral + tail))
         == ResultLine(ok, Some(Value(numeral)), DirectiveOf(TrimRight(TrimLeft(tail))))
  {
    var body := numeral + tail;
    assert (" " + body)[1..] == body && !IsBlank(body[0]);
    assert TrimLeft(" " + body) == body;
    DigitRunAppend(numeral, tail);
    assert body[..|numeral|] == numeral && body[|numeral|..] == tail;
  }

  lemma ParseNumbered(ok: bool, n: nat, tail: string)
    requires tail == [] || !IsWord(tail[0])
    ensures ParseResult(ok, " " + Decimal(n) + tail)
         == ResultLine(ok, Some(n), DirectiveOf(TrimRight(TrimLeft(tail))))
  {
    Assoc(" ", Decimal(n), tail);
    ParseNumeral(ok, Decimal(n), tail);
    ValueOfDecimal(n);
  }

  /** A result line without a number: after the blanks comes no digit, or digits that run on as a
      longer word. */
  lemma UnnumberedResultReadsBack(ok: bool, gap: string, d: string)
    requires AllBlank(gap) && '#' !in d && (d == "" || !IsBlank(d[0]))
    requires gap == "" && d != "" ==> !IsWord(d[0])
    requires DigitRun(d) == 0 || (DigitRun(d) < |d| && IsWord(d[DigitRun(d)]))
    ensures Classify((if ok then "ok" else "not ok") + (gap + d)) == ResultLine(ok, None, NoDirective)
  {
    assert gap + d == "" || !IsWord((gap + d)[0]) by {
      assert gap != "" ==> (gap + d)[0] == gap[0];
      assert gap == "" ==> gap + d == d;
    }
    ClassifyResult(ok, gap + d);
    TrimLeftSkips(gap, d);
    TrimRightKeeps(d);
    NoMarkNoDirective(TrimRight(d));
  }

  /** What sharness prints for a test, "ok N - description" or "not ok N - description", is read
      back as that result with that number and no directive, for every description without '#'. */
  lemma NumberedResultReadsBack(ok: bool, n: nat, description: string)
    requires '#' !in description
    ensures Classify((if ok then "ok" else "not ok") + (" " + Decimal(n) + (" - " + description)))
         == ResultLine(ok, Some(n), NoDirective)
  {
    var tail := " - " + description;
    ClassifyResult(ok, " " + Decimal(n) + tail);
    ParseNumbered(ok, n, tail);
    TrimLeftKeeps(tail);
    TrimRightKeeps(TrimLeft(tail));
    NoMarkNoDirective(TrimRight(TrimLeft(tail)));
  }

  lemma {:induction false} TrimRightStops(s: string, t: string)
    requires s != "" && !IsBlank(s[|s| - 1])
    ensures TrimRight(s + t) == s + TrimRight(t)
  {
    if t == "" {
      assert s + t == s;
    } else {
      assert (s + t)[..|s + t| - 1] == s + t[..|t| - 1];
      TrimRightStops(s, t[..|t| - 1]);
    }
  }

  lemma {:induction false} TrimRightPlaced(p: string, tail: string)
    requires WellPlaced(p, tail)
    ensures WellPlaced(p, TrimRight(tail))
  {
    TrimRightKeeps(tail);
    if AllBlank(tail) {
      assert AllBlank(TrimRight(tail));
    }
  }

  /** The directive of a result line as it stands there, blanks around it and all. */
  lemma TrimmedDirective(p: string, n: nat, blanks: string, word: string, tail: string)
    requires |word| == 4 && Keyword(word) != NoDirective && AllBlank(blanks) && WellPlaced(p, tail)
    requires p != "" ==> p[|p| - 1] != '\\' && !IsBlank(p[0])
    ensures var s := p + Run('\\', n) + "#" + (blanks + (word + tail));
            DirectiveOf(TrimRight(TrimLeft(" " + s))) == if n % 2 == 1 then NoDirective else Keyword(word)
  {
    var a, text := p + Run('\\', n) + "#", blanks + word;
    var s := a + (blanks + (word + tail));
    assert (" " + s)[1..] == s;
    assert s[0] == if p != "" then p[0] else if n > 0 then '\\' else '#';
    KeywordEndsWithLetter(word);
    assert s == (a + text) + tail;
    TrimRightStops(a + text, tail);
    assert (a + text) + TrimRight(tail) == a + (blanks + (word + TrimRight(tail)));
    TrimRightPlaced(p, tail);
    DirectiveReadsBack(p, n, blanks, word, TrimRight(tail));
  }

  lemma KeywordEndsWithLetter(s: string)
    ensures Keyword(s) != NoDirective ==> !IsBlank(s[3])
  {
    if Keyword(s) != NoDirective {
      var w := [Upper(s[0]), Upper(s[1]), Upper(s[2]), Upper(s[3])];
      assert w[3] == 'O' || w[3] == 'P';
    }
  }

  /** A result line with a directive, such as "ok 2 # skip no jq", is read back as that result with
      that number and the directive, unless an odd number of backslashes escapes it. */
  lemma DirectiveLineReadsBack(ok: bool, number: nat, p: string, n: nat, blanks: string, word: string, tail: string)
    requires |word| == 4 && Keyword(word) != NoDirective && AllBlank(blanks) && WellPlaced(p, tail)
    requires p != "" ==> p[|p| - 1] != '\\' && !IsBlank(p[0])
    ensures var s := p + Run('\\', n) + "#" + (blanks + (word + tail));
            Classify((if ok then "ok" else "not ok") + (" " + Decimal(number) + (" " + s)))
            == ResultLine(ok, Some(number), if n % 2 == 1 then NoDirective else Keyword(word))
  {
    var s := p + Run('\\', n) + "#" + (blanks + (word + tail));
    ClassifyResult(ok, " " + Decimal(number) + (" " + s));
    ParseNumbered(ok, number, " " + s);
    TrimmedDirective(p, n, blanks, word, tail);
  }

  lemma ClassifyResult(ok: bool, rest: string)
    requires rest == [] || !IsWord(rest[0])
    ensures Classify((if ok then "ok" else "not ok") + rest) == ParseResult(ok, rest)
  {
    AfterOkOf(ok, rest);
  }

  /** "1..N" is read back as a plan of N tests. */
  lemma PlanReadsBack(n: nat)
    ensures Classify("1.." + Decimal(n)) == PlanLine(n)
  {
    assert Decimal(n) + "" == Decimal(n);
    PlanForms(Decimal(n), "");
    ValueOfDecimal(n);
  }

  /** Which lines are an exit status, and which: any number of zeros, or a numeral without leading
      zeros. */
  lemma StatusExactly(s: string, n: nat)
    ensures ReadStatus(s) == Status(n) <==> s == Decimal(n) || (n == 0 && s != "" && AllZero(s))
  {
    StatusReadsBack(n);
    if s != "" && AllDigits(s) && s[0] != '0' {
      DecimalOfValue(s);
    }
    if s != "" && AllZero(s) {
      assert AllDigits(s);
    }
  }

  /** The line `echo $?` prints is read back as that status. */
  lemma StatusReadsBack(n: nat)
    ensures ReadStatus(Decimal(n)) == Status(n)
  {
    ValueOfDecimal(n);
    if n > 0 {
      DecimalHasNoLeadingZero(n);
    }
  }
}
