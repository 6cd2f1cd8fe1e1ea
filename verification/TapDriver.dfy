/** The awk program of the TAP driver as an object: its global variables, updated line by line by
    the read loop, against the fold over the whole stream. */
module TapDriver {
  import opened Prelude
  import Digits
  import opened TapInput
  import opened TapLine
  import opened TapStream

  /** The fields of `result_obj` that the verdict depends on. */
  datatype ResultObj = ResultObj(isOk: bool, number: nat, isUnplanned: bool, directive: Directive)

  /** What `write_test_results` writes to the .trs file. */
  datatype TrsFile = TrsFile(global: Outcome, recheck: bool, copyInGlobalLog: bool, results: seq<Outcome>)

  /** The directive part of `setup_result_obj`. */
  method FindDirective(text: string) returns (d: Directive)
    ensures d == DirectiveOf(text)
  {
    var mark := DirectiveMark(text);
    if mark.None? {
      return NoDirective;
    }
    var h := mark.value;
    if !(h > 0 && IsBlank(text[h - 1])) {
      var count := CountBackslashes(text, h);
      if count % 2 == 1 {
        return NoDirective;
      }
    }
    d := Keyword(After(text, h));
  }

  class Driver {
    const expectFailure: bool
    const ignoreExit: bool

    var testno: nat
    var planSeen: Plan
    var plannedTests: nat
    var bailedOut: bool
    var testResultsList: seq<Outcome>
    var testResultsSeen: set<Outcome>
    var resultObj: ResultObj
    var nextline: Option<string>

    ghost function State(): Tap
      reads this
    {
      Tap(testno, planSeen, plannedTests, bailedOut, testResultsList)
    }

    ghost predicate Valid()
      reads this
    {
      testResultsSeen == Seen(testResultsList)
    }

    constructor (expectFailure: bool, ignoreExit: bool)
      ensures Valid() && State() == START && nextline == None
      ensures this.expectFailure == expectFailure && this.ignoreExit == ignoreExit
    {
      this.expectFailure, this.ignoreExit := expectFailure, ignoreExit;
      testno, planSeen, plannedTests, bailedOut := 0, NoPlan, 0, false;
      testResultsList, testResultsSeen := [], {};
      resultObj := ResultObj(false, 0, false, NoDirective);
      nextline := None;
    }

    /** The set of outcomes seen goes with the list of outcomes, entry by entry. */
    method AddTestResult(result: Outcome)
      requires Valid()
      modifies `testResultsList, `testResultsSeen
      ensures Valid() && testResultsList == old(testResultsList) + [result]
    {
      testResultsList := testResultsList + [result];
      testResultsSeen := testResultsSeen + {result};
    }

    /** `line` is what follows "ok" or "not ok". */
    method SetupResultObj(isOk: bool, line: string)
      modifies `resultObj
      ensures var l := ParseResult(isOk, line);
              resultObj == ResultObj(isOk, if l.number.Some? then l.number.value else testno,
                                     planSeen == LatePlan || (planSeen != NoPlan && testno > plannedTests),
                                     l.directive)
    {
      var s := TrimLeft(line);
      var d := DigitRun(s);
      var number := testno;
      if d > 0 && (d == |s| || !IsWord(s[d])) {
        number := Digits.Value(s[..d]);
        s := s[d..];
      } else {
        TrimLeftTwice(line);
      }
      var isUnplanned := false;
      if planSeen == LatePlan {
        isUnplanned := true;
      } else if planSeen != NoPlan && testno > plannedTests {
        isUnplanned := true;
      }
      var directive := FindDirective(TrimRight(TrimLeft(s)));
      resultObj := ResultObj(isOk, number, isUnplanned, directive);
    }

    function StringifyResultObj(): Outcome
      reads this
    {
      var cookedPass := if expectFailure then XPASS else PASS;
      var cookedFail := if expectFailure then XFAIL else FAIL;
      if resultObj.isUnplanned || resultObj.number != testno then ERROR
      else if planSeen == LatePlan then ERROR
      else if resultObj.directive == Todo then (if resultObj.isOk then XPASS else XFAIL)
      else if resultObj.directive == Skip then (if resultObj.isOk then SKIP else cookedFail)
      else if resultObj.isOk then cookedPass else cookedFail
    }

    /** Reports an internal error instead if a plan of some tests comes with a reason to skip. */
    method HandleTapPlan(planned: nat, skipReason: string) returns (aborted: bool)
      requires Valid()
      modifies `plannedTests, `planSeen, `testResultsList, `testResultsSeen
      ensures Valid() && (aborted <==> skipReason != "" && planned > 0)
      ensures State() == if aborted then old(State()) else OnPlan(old(State()), planned)
    {
      aborted := skipReason != "" && planned > 0;
      if aborted { return; }
      if planSeen != NoPlan {
        AddTestResult(ERROR);
        return;
      }
      plannedTests := planned;
      planSeen := if testno >= 1 then LatePlan else EarlyPlan;
      if planned == 0 && testno == 0 {
        AddTestResult(SKIP);
      }
    }

    /** The result line with that text after "ok" or "not ok". */
    method HandleTapResult(isOk: bool, rest: string)
      requires Valid() && !bailedOut
      modifies `testno, `resultObj, `testResultsList, `testResultsSeen
      ensures Valid()
      ensures State() == OnLine(expectFailure, old(State()), ParseResult(isOk, rest))
    {
      testno := testno + 1;
      SetupResultObj(isOk, rest);
      AddTestResult(StringifyResultObj());
    }

    /** The body of the read loop for one line of TAP. */
    method HandleLine(line: string) returns (aborted: bool)
      requires Valid()
      modifies this
      ensures Valid() && !aborted && nextline == old(nextline)
      ensures State() == OnLine(expectFailure, old(State()), Classify(line))
    {
      aborted := false;
      if bailedOut { return; }
      var rest := AfterOk(line);
      if rest.Some? {
        HandleTapResult(StartsWith(line, "ok"), rest.value);
      } else {
        aborted := HandleOther(Classify(line));
      }
    }

    method HandleOther(kind: Line) returns (aborted: bool)
      requires Valid() && !bailedOut && !kind.ResultLine?
      modifies this
      ensures Valid() && !aborted && nextline == old(nextline)
      ensures State() == OnLine(expectFailure, old(State()), kind)
    {
      aborted := false;
      match kind {
        case PlanLine(n) =>
          aborted := HandleTapPlan(n, "");
        case SkipPlanLine(reason) =>
          aborted := HandleTapPlan(0, reason);
        case BailOutLine =>
          bailedOut := true;
          AddTestResult(ERROR);
        case OtherLine =>
      }
    }

    /** The read loop: every line but the last is handled, once and in order, one line behind the
        reading; the last is kept as the exit status. It aborts only on empty input. */
    method ReadLoop(input: seq<string>) returns (aborted: bool)
      requires Valid() && State() == START && nextline == None
      modifies this
      ensures Valid() && (aborted <==> input == [])
      ensures !aborted ==>
                && nextline == Some(input[|input| - 1])
                && State() == Fold(expectFailure, START, ClassifyAll(input[..|input| - 1]))
    {
      var isFirstRead := true;
      var read := 0;
      aborted := false;
      assert ClassifyAll([]) == [];
      while read < |input|
        invariant 0 <= read <= |input| && Valid() && !aborted
        invariant isFirstRead <==> read == 0
        invariant read == 0 ==> State() == START && nextline == None
        invariant read > 0 ==>
                    && nextline == Some(input[read - 1])
                    && State() == Fold(expectFailure, START, ClassifyAll(input[..read - 1]))
      {
        var record := input[read];
        read := read + 1;
        if isFirstRead {
          isFirstRead := false;
          nextline := Some(record);
          assert input[..0] == [];
        } else {
          var curline := nextline.value;
          nextline := Some(record);
          var internal := HandleLine(curline);
          assert ClassifyAll(input[..read - 1])[..read - 2] == ClassifyAll(input[..read - 2]);
        }
      }
      if isFirstRead {
        aborted := true;
      }
    }

    method MustRecheck() returns (yes: bool)
      ensures yes <==> TapStream.MustRecheck(testResultsSeen)
    {
      var todo := testResultsSeen;
      while todo != {}
        invariant todo <= testResultsSeen
        invariant forall k :: k in testResultsSeen ==> k in todo || k == XFAIL || k == PASS || k == SKIP
        decreases |todo|
      {
        var k :| k in todo;
        if k != XFAIL && k != PASS && k != SKIP {
          return true;
        }
        todo := todo - {k};
      }
      return false;
    }

    method CopyInGlobalLog() returns (yes: bool)
      ensures yes <==> exists k :: k in testResultsSeen && k != PASS
    {
      var todo := testResultsSeen;
      while todo != {}
        invariant todo <= testResultsSeen
        invariant forall k :: k in testResultsSeen ==> k in todo || k == PASS
        decreases |todo|
      {
        var k :| k in todo;
        if k != PASS {
          return true;
        }
        todo := todo - {k};
      }
      return false;
    }

    method GetGlobalTestResult() returns (r: Outcome)
      ensures r == Global(testResultsSeen)
    {
      if ERROR in testResultsSeen {
        return ERROR;
      }
      if FAIL in testResultsSeen || XPASS in testResultsSeen {
        return FAIL;
      }
      var allSkipped := true;
      var todo := testResultsSeen;
      while todo != {}
        invariant todo <= testResultsSeen
        invariant allSkipped <==> testResultsSeen - todo <= {SKIP}
        decreases |todo|
      {
        var k :| k in todo;
        if k != SKIP {
          allSkipped := false;
          assert k in testResultsSeen - (todo - {k});
        }
        todo := todo - {k};
      }
      return if allSkipped then SKIP else PASS;
    }

    method WriteTestResults() returns (trs: TrsFile)
      requires Valid()
      ensures trs.results == testResultsList
      ensures trs.global == Global(Seen(trs.results))
      ensures trs.recheck <==> trs.global != PASS && trs.global != SKIP
      ensures trs.copyInGlobalLog <==> exists k :: k in trs.results && k != PASS
    {
      var global := GetGlobalTestResult();
      var recheck := MustRecheck();
      var copy := CopyInGlobalLog();
      RecheckMatchesVerdict(testResultsSeen);
      trs := TrsFile(global, recheck, copy, testResultsList);
      assert forall k :: k in testResultsSeen <==> k in trs.results;
    }

    /** The final checks, and the .trs file; None when the last line is no exit status. */
    method FinishUp() returns (trs: Option<TrsFile>)
      requires Valid() && nextline.Some?
      modifies `testResultsList, `testResultsSeen
      ensures Valid()
      ensures var f := Finish(old(State()), ignoreExit, ReadStatus(nextline.value));
              && (trs.None? <==> f.Abort?)
              && (trs.Some? ==> trs.value.results == f.results
                                && trs.value.global == Global(Seen(f.results))
                                && (trs.value.recheck <==> trs.value.global != PASS && trs.value.global != SKIP)
                                && (trs.value.copyInGlobalLog <==> exists o :: o in f.results && o != PASS))
    {
      if !bailedOut {
        if planSeen == NoPlan {
          AddTestResult(ERROR);
        } else if plannedTests != testno {
          AddTestResult(ERROR);
        }
        if !ignoreExit {
          var status := ReadStatus(nextline.value);
          if status == NotAStatus {
            return None;
          }
          if status.code != 0 {
            AddTestResult(ERROR);
          }
        }
      }
      var file := WriteTestResults();
      trs := Some(file);
    }

    /** The whole program on a whole input: its recorded verdict is the verdict of the stream of
        all lines but the last, with the last as exit status. */
    method Run(input: seq<string>) returns (trs: Option<TrsFile>)
      requires Valid() && State() == START && nextline == None
      modifies this
      ensures input == [] ==> trs == None
      ensures input != [] ==>
                var v := InputVerdict(expectFailure, ignoreExit, input);
                && (trs.None? <==> v.None?)
                && (trs.Some? ==> v == Some(trs.value.global) && trs.value.results != []
                                  && (trs.value.recheck <==> v != Some(PASS) && v != Some(SKIP)))
      ensures (exists i :: 0 <= i < |input| - 1 && SaysBailOut(input[i])) ==>
                trs.Some? && trs.value.global == ERROR && trs.value.recheck
    {
      var aborted := ReadLoop(input);
      if aborted {
        return None;
      }
      trs := FinishUp();
      RecordNeverEmpty(expectFailure, ignoreExit, ClassifyAll(input[..|input| - 1]), ReadStatus(input[|input| - 1]));
      if i :| 0 <= i < |input| - 1 && SaysBailOut(input[i]) {
        BailOutIsError(expectFailure, ignoreExit, input, i);
      }
    }
  }
}
