/** The TAP driver's input as text: the lines of a test script, and as the last one its exit status.
    What the verdict on a stream means for the lines that sharness prints. */
module TapInput {
  import opened Prelude
  import opened Digits
  import opened TapLine
  import opened TapStream

  ghost function ClassifyAll(input: seq<string>): (lines: seq<Line>)
    ensures |lines| == |input|
    ensures forall i :: 0 <= i < |input| ==> lines[i] == Classify(input[i])
  {
    seq(|input|, i requires 0 <= i < |input| => Classify(input[i]))
  }

  /** The verdict on an input: all lines but the last are TAP, and the last is the exit status. */
  ghost function InputVerdict(xf: bool, ignoreExit: bool, input: seq<string>): Option<Outcome>
    requires input != []
  {
    Verdict(xf, ignoreExit, ClassifyAll(input[..|input| - 1]), ReadStatus(input[|input| - 1]))
  }

  ghost predicate SaysBailOut(s: string) {
    exists blanks, t :: BailOutText(s, blanks, t)
  }

  /** A "Bail out!" anywhere but on the last line makes the test an error, whatever else was printed and
      whatever the exit status. */
  lemma BailOutIsError(xf: bool, ignoreExit: bool, input: seq<string>, i: nat)
    requires i < |input| - 1 && SaysBailOut(input[i])
    ensures InputVerdict(xf, ignoreExit, input) == Some(ERROR)
  {
    var lines := ClassifyAll(input[..|input| - 1]);
    var blanks, t :| BailOutText(input[i], blanks, t);
    BailOutClassified(input[i], blanks, t);
    assert lines[i] == BailOutLine;
    ExactVerdict(xf, ignoreExit, lines, ReadStatus(input[|input| - 1]));
  }

  // ---------------------------------------------------------------------------------------------
  // What sharness prints

  /** How a test of a sharness script comes out, with its description or the reason to skip it. */
  datatype Test =
    | Passed(text: string)
    | Failed(text: string)
    | Fixed(text: string)       // a known breakage that has vanished
    | Broken(text: string)      // a known breakage
    | Missing(text: string)     // a prerequisite is missing

  function TestLine(t: Test, number: nat): string {
    match t
    case Passed(text) => "ok" + (" " + Decimal(number) + (" - " + text))
    case Failed(text) => "not ok" + (" " + Decimal(number) + (" - " + text))
    case Fixed(text) => "ok" + (" " + Decimal(number) + (" " + Known(text, " known breakage vanished")))
    case Broken(text) => "not ok" + (" " + Decimal(number) + (" " + Known(text, " known breakage")))
    case Missing(text) => "ok" + (" " + Decimal(number) + (" " + ("#" + (" " + ("skip" + (" " + text))))))
  }

  function Known(text: string, tail: string): string {
    ("- " + text + " ") + "#" + (" " + ("TODO" + tail))
  }

  /** The lines of a script that runs to its end: its tests, numbered, and the plan. Its remarks, which
      start with '#', are lines of no kind and left out. */
  function ScriptLines(tests: seq<Test>): seq<string> {
    TestLines(tests) + ["1.." + Decimal(|tests|)]
  }

  function TestLines(tests: seq<Test>): (lines: seq<string>)
    ensures |lines| == |tests|
    ensures forall i :: 0 <= i < |tests| ==> lines[i] == TestLine(tests[i], i + 1)
  {
    seq(|tests|, i requires 0 <= i < |tests| => TestLine(tests[i], i + 1))
  }

  /** What the line of a test should be taken for. */
  function Meaning(t: Test, number: nat): Line {
    match t
    case Passed(_) => ResultLine(true, Some(number), NoDirective)
    case Failed(_) => ResultLine(false, Some(number), NoDirective)
    case Fixed(_) => ResultLine(true, Some(number), Todo)
    case Broken(_) => ResultLine(false, Some(number), Todo)
    case Missing(_) => ResultLine(true, Some(number), Skip)
  }

  lemma TodoAndSkip()
    ensures Keyword("TODO") == Todo && Keyword("skip") == Skip
  {
    KeywordInAnyCase("TODO");
    KeywordInAnyCase("skip");
  }

  lemma KnownReadsBack(ok: bool, number: nat, text: string, tail: string)
    requires '#' !in text && '#' !in tail && tail != "" && tail[0] == ' '
    ensures Classify((if ok then "ok" else "not ok") + (" " + Decimal(number) + (" " + Known(text, tail))))
         == ResultLine(ok, Some(number), Todo)
  {
    var p := "- " + text + " ";
    TodoAndSkip();
    assert p + Run('\\', 0) == p;
    assert '#' !in p;
    DirectiveLineReadsBack(ok, number, p, 0, " ", "TODO", tail);
  }

  lemma SkipReadsBack(number: nat, text: string)
    requires '#' !in text
    ensures Classify(TestLine(Missing(text), number)) == ResultLine(true, Some(number), Skip)
  {
    TodoAndSkip();
    MarkedReadsBack(number, "skip", " " + text);
  }

  /** The directive stands right after the number. */
  lemma MarkedReadsBack(number: nat, word: string, tail: string)
    requires |word| == 4 && Keyword(word) == Skip && '#' !in tail && tail != "" && tail[0] == ' '
    ensures Classify("ok" + (" " + Decimal(number) + (" " + ("#" + (" " + (word + tail))))))
         == ResultLine(true, Some(number), Skip)
  {
    assert "" + Run('\\', 0) == "";
    assert "" + "#" == "#";
    DirectiveLineReadsBack(true, number, "", 0, " ", word, tail);
  }

  lemma TestReadsBack(t: Test, number: nat)
    requires '#' !in t.text
    ensures Classify(TestLine(t, number)) == Meaning(t, number)
  {
    match t
    case Passed(text) => NumberedResultReadsBack(true, number, text);
    case Failed(text) => NumberedResultReadsBack(false, number, text);
    case Fixed(text) => KnownReadsBack(true, number, text, " known breakage vanished");
    case Broken(text) => KnownReadsBack(false, number, text, " known breakage");
    case Missing(text) => SkipReadsBack(number, text);
  }

  lemma {:induction false} AllCounted(lines: seq<Line>)
    requires forall i :: 0 <= i < |lines| ==> lines[i].ResultLine?
    ensures Count(lines) == |lines|
  {
    if lines != [] {
      AllCounted(lines[..|lines| - 1]);
    }
  }

  lemma ScriptClassified(tests: seq<Test>)
    requires forall i :: 0 <= i < |tests| ==> '#' !in tests[i].text
    ensures var lines := ClassifyAll(ScriptLines(tests));
            && |lines| == |tests| + 1 && lines[|tests|] == PlanLine(|tests|)
            && forall i :: 0 <= i < |tests| ==> lines[i] == Meaning(tests[i], i + 1)
  {
    PlanReadsBack(|tests|);
    forall i | 0 <= i < |tests|
      ensures Classify(ScriptLines(tests)[i]) == Meaning(tests[i], i + 1)
    {
      TestReadsBack(tests[i], i + 1);
    }
  }

  lemma ScriptOrderly(tests: seq<Test>, lines: seq<Line>)
    requires |lines| == |tests| + 1 && lines[|tests|] == PlanLine(|tests|)
    requires forall i :: 0 <= i < |tests| ==> lines[i] == Meaning(tests[i], i + 1)
    ensures Orderly(lines)
  {
    var n := |tests|;
    forall i | 0 <= i <= n
      ensures Count(lines[..i]) == i
    {
      AllCounted(lines[..i]);
    }
    assert lines[..n + 1] == lines && lines[..n + 1][..n] == lines[..n];
    assert Count(lines) == n;
    assert SolePlan(lines, n) && PlanKept(lines, n);
  }

  predicate Bad(t: Test) {
    t.Failed? || t.Fixed?
  }

  /** The verdict on a sharness script, by how its tests came out and by its exit status. */
  lemma ScriptVerdict(ignoreExit: bool, tests: seq<Test>, code: nat)
    requires forall i :: 0 <= i < |tests| ==> '#' !in tests[i].text
    ensures InputVerdict(false, ignoreExit, ScriptLines(tests) + [Decimal(code)])
         == if code != 0 && !ignoreExit then Some(ERROR)
            else if exists i :: 0 <= i < |tests| && Bad(tests[i]) then Some(FAIL)
            else if forall i :: 0 <= i < |tests| ==> tests[i].Missing? then Some(SKIP)
            else Some(PASS)
  {
    var input := ScriptLines(tests) + [Decimal(code)];
    assert input[..|input| - 1] == ScriptLines(tests);
    var lines := ClassifyAll(ScriptLines(tests));
    ScriptClassified(tests);
    ScriptOrderly(tests, lines);
    StatusReadsBack(code);
    ExactVerdict(false, ignoreExit, lines, Status(code));
    ResultsOfScript(tests, lines);
  }

  lemma ResultsOfScript(tests: seq<Test>, lines: seq<Line>)
    requires |lines| == |tests| + 1 && lines[|tests|] == PlanLine(|tests|)
    requires forall i :: 0 <= i < |tests| ==> lines[i] == Meaning(tests[i], i + 1)
    ensures (exists i :: 0 <= i < |lines| && lines[i].ResultLine? && !Acceptable(false, lines[i]))
       <==> exists i :: 0 <= i < |tests| && Bad(tests[i])
    ensures (forall i :: 0 <= i < |lines| && lines[i].ResultLine? ==> Skipped(lines[i]))
       <==> forall i :: 0 <= i < |tests| ==> tests[i].Missing?
  {
    forall i | 0 <= i < |tests|
      ensures lines[i].ResultLine?
      ensures !Acceptable(false, lines[i]) <==> Bad(tests[i])
      ensures Skipped(lines[i]) <==> tests[i].Missing?
    {
    }
  }

  lemma LoneSkipPlan(xf: bool, ignoreExit: bool, l: Line)
    requires l.SkipPlanLine?
    ensures Verdict(xf, ignoreExit, [l], Status(0)) == Some(SKIP)
  {
    var lines := [l];
    assert lines[..0] == [];
    assert SolePlan(lines, 0) && PlanKept(lines, 0);
    ExactVerdict(xf, ignoreExit, lines, Status(0));
  }

  /** A script that skips all its tests prints a plan of none with the reason, and is recorded so. */
  lemma SkipAllVerdict(xf: bool, ignoreExit: bool, reason: string)
    ensures InputVerdict(xf, ignoreExit, ["1..0 # SKIP " + reason, "0"]) == Some(SKIP)
  {
    var line := "1..0 # SKIP " + reason;
    var t := " SKIP " + reason;
    assert line == "1.." + ("0" + (" " + ("#" + t)));
    SkipPlanClassified(line, "0", " ", t);
    assert [line, "0"][..1] == [line];
    assert ClassifyAll([line]) == [Classify(line)];
    LoneSkipPlan(xf, ignoreExit, Classify(line));
  }
}
