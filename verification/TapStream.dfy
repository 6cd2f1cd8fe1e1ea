/** A whole stream of TAP lines and its verdict: what the driver's read loop computes, line by
    line, and when exactly a test script passes. `xf` is the --expect-failure option. */
module TapStream {
  import opened Prelude
  import opened TapLine

  datatype Outcome = PASS | FAIL | SKIP | XPASS | XFAIL | ERROR

  datatype Plan = NoPlan | EarlyPlan | LatePlan

  /** The variables of the awk program that lines change. */
  datatype Tap = Tap(testno: nat, plan: Plan, planned: nat, bailed: bool, results: seq<Outcome>)

  const START := Tap(0, NoPlan, 0, false, [])

  function Cooked(xf: bool, ok: bool, directive: Directive): Outcome {
    var pass := if xf then XPASS else PASS;
    var fail := if xf then XFAIL else FAIL;
    match directive
    case Todo => if ok then XPASS else XFAIL
    case Skip => if ok then SKIP else fail
    case NoDirective => if ok then pass else fail
  }

  function Report(t: Tap, o: Outcome): Tap {
    t.(results := t.results + [o])
  }

  function OnResult(xf: bool, t: Tap, l: Line): Tap
    requires l.ResultLine?
  {
    var n := t.testno + 1;
    var number := if l.number.Some? then l.number.value else n;
    var unplanned := t.plan == LatePlan || (t.plan != NoPlan && n > t.planned);
    Report(t.(testno := n), if unplanned || number != n then ERROR else Cooked(xf, l.ok, l.directive))
  }

  function OnPlan(t: Tap, planned: nat): Tap {
    if t.plan != NoPlan then Report(t, ERROR)
    else
      var t' := t.(planned := planned, plan := if t.testno >= 1 then LatePlan else EarlyPlan);
      if planned == 0 && t.testno == 0 then Report(t', SKIP) else t'
  }

  predicate IsPlan(l: Line) {
    l.PlanLine? || l.SkipPlanLine?
  }

  function PlannedBy(l: Line): nat {
    if l.PlanLine? then l.planned else 0
  }

  function OnLine(xf: bool, t: Tap, l: Line): Tap {
    if t.bailed then t
    else if l.ResultLine? then OnResult(xf, t, l)
    else if IsPlan(l) then OnPlan(t, PlannedBy(l))
    else if l.BailOutLine? then Report(t.(bailed := true), ERROR)
    else t
  }

  function Fold(xf: bool, t: Tap, lines: seq<Line>): Tap {
    if lines == [] then t else OnLine(xf, Fold(xf, t, lines[..|lines| - 1]), lines[|lines| - 1])
  }

  /** Abort is the driver's own internal error: the last line is no exit status. */
  datatype Finished = Finished(results: seq<Outcome>) | Abort

  function Finish(t: Tap, ignoreExit: bool, exit: ExitStatus): Finished {
    if t.bailed then Finished(t.results)
    else
      var t' := if t.plan == NoPlan || t.planned != t.testno then Report(t, ERROR) else t;
      if ignoreExit then Finished(t'.results)
      else if exit.NotAStatus? then Abort
      else Finished(if exit.code != 0 then Report(t', ERROR).results else t'.results)
  }

  /** The global result, from the outcomes that were seen. */
  function Global(seen: set<Outcome>): Outcome {
    if ERROR in seen then ERROR
    else if FAIL in seen || XPASS in seen then FAIL
    else if seen <= {SKIP} then SKIP
    else PASS
  }

  ghost function Seen(results: seq<Outcome>): set<Outcome> {
    set o | o in results
  }

  ghost function Verdict(xf: bool, ignoreExit: bool, lines: seq<Line>, exit: ExitStatus): Option<Outcome> {
    var f := Finish(Fold(xf, START, lines), ignoreExit, exit);
    if f.Abort? then None else Some(Global(Seen(f.results)))
  }

  // ---------------------------------------------------------------------------------------------
  // What a stream says, independently of the driver

  function Count(lines: seq<Line>): nat {
    if lines == [] then 0
    else Count(lines[..|lines| - 1]) + if lines[|lines| - 1].ResultLine? then 1 else 0
  }

  predicate NoBailOut(lines: seq<Line>) {
    forall i :: 0 <= i < |lines| ==> !lines[i].BailOutLine?
  }

  /** The result at line `i` carries no number, or its own. */
  predicate Numbered(lines: seq<Line>, i: nat)
    requires i < |lines| && lines[i].ResultLine?
  {
    lines[i].number.Some? ==> lines[i].number.value == Count(lines[..i]) + 1
  }

  predicate SolePlan(lines: seq<Line>, p: nat) {
    p < |lines| && forall i :: 0 <= i < |lines| ==> (IsPlan(lines[i]) <==> i == p)
  }

  /** The plan at `p` counts the results, and all of them are on one side of it. */
  predicate PlanKept(lines: seq<Line>, p: nat)
    requires p < |lines|
  {
    && PlannedBy(lines[p]) == Count(lines)
    && (Count(lines[..p]) == 0 || Count(lines[..p]) == Count(lines))
  }

  /** Nothing bailed out, every number is right, and one plan counts the results from one side. */
  ghost predicate Orderly(lines: seq<Line>) {
    && NoBailOut(lines)
    && (forall i :: 0 <= i < |lines| && lines[i].ResultLine? ==> Numbered(lines, i))
    && exists p :: SolePlan(lines, p) && PlanKept(lines, p)
  }

  /** A result that does not make a test fail: "ok", or a "not ok" that is still to do. When failure is
      expected, it is the other way round, except that a test may be skipped. */
  predicate Acceptable(xf: bool, l: Line)
    requires l.ResultLine?
  {
    if xf then l.directive == Skip || !l.ok else l.ok <==> l.directive != Todo
  }

  predicate Skipped(l: Line)
    requires l.ResultLine?
  {
    l.ok && l.directive == Skip
  }

  // ---------------------------------------------------------------------------------------------
  // What the fold keeps track of

  function FirstPlan(lines: seq<Line>): (p: Option<nat>)
    ensures p.Some? ==> p.value < |lines| && IsPlan(lines[p.value])
    ensures forall i :: 0 <= i < (if p.Some? then p.value else |lines|) ==> !IsPlan(lines[i])
  {
    if lines == [] then None
    else
      var init := lines[..|lines| - 1];
      var p := FirstPlan(init);
      if p.Some? then p
      else if IsPlan(lines[|lines| - 1]) then Some(|lines| - 1)
      else None
  }

  ghost predicate Tracks(t: Tap, lines: seq<Line>) {
    var p := FirstPlan(lines);
    && !t.bailed && t.testno == Count(lines)
    && (p.None? ==> t.plan == NoPlan)
    && (p.Some? ==> t.planned == PlannedBy(lines[p.value])
                    && t.plan == if Count(lines[..p.value]) >= 1 then LatePlan else EarlyPlan)
  }

  lemma {:induction false} FoldTracks(xf: bool, lines: seq<Line>)
    requires NoBailOut(lines)
    ensures Tracks(Fold(xf, START, lines), lines)
  {
    if lines != [] {
      var init := lines[..|lines| - 1];
      FoldTracks(xf, init);
      var p := FirstPlan(lines);
      assert p.Some? ==> lines[..p.value] == init[..p.value];
    }
  }

  lemma {:induction false} FoldBailed(xf: bool, lines: seq<Line>)
    requires !NoBailOut(lines)
    ensures Fold(xf, START, lines).bailed && ERROR in Fold(xf, START, lines).results
  {
    var init, l := lines[..|lines| - 1], lines[|lines| - 1];
    if NoBailOut(init) {
      FoldTracks(xf, init);
      assert l.BailOutLine? by {
        forall i | 0 <= i < |init|
          ensures !lines[i].BailOutLine?
        {
          assert init[i] == lines[i];
        }
      }
      var t := Fold(xf, START, lines);
      assert t.results[|t.results| - 1] == ERROR;
    } else {
      FoldBailed(xf, init);
    }
  }

  predicate NoError(results: seq<Outcome>) {
    forall i :: 0 <= i < |results| ==> results[i] != ERROR
  }

  /** Line `i` gives rise to no error. */
  predicate LineFine(lines: seq<Line>, i: nat)
    requires i < |lines|
  {
    var p := FirstPlan(lines[..i]);
    && (IsPlan(lines[i]) ==> p.None?)
    && (lines[i].ResultLine? ==>
          && Numbered(lines, i)
          && (p.Some? ==> Count(lines[..p.value]) == 0 && Count(lines[..i]) < PlannedBy(lines[p.value])))
  }

  lemma LineFinePrefix(lines: seq<Line>, n: nat, i: nat)
    requires i < n <= |lines|
    ensures LineFine(lines[..n], i) == LineFine(lines, i)
  {
    assert lines[..n][..i] == lines[..i];
    var p := FirstPlan(lines[..i]);
    if p.Some? {
      assert lines[..n][..p.value] == lines[..p.value];
    }
  }

  lemma NoErrorSnoc(results: seq<Outcome>, o: Outcome)
    ensures NoError(results + [o]) <==> NoError(results) && o != ERROR
  {
    assert (results + [o])[|results|] == o;
    assert forall i :: 0 <= i < |results| ==> (results + [o])[i] == results[i];
  }

  lemma LastResultFine(xf: bool, t: Tap, lines: seq<Line>)
    requires lines != [] && lines[|lines| - 1].ResultLine?
    requires NoBailOut(lines[..|lines| - 1]) && t == Fold(xf, START, lines[..|lines| - 1])
    ensures NoError(OnLine(xf, t, lines[|lines| - 1]).results)
       <==> NoError(t.results) && LineFine(lines, |lines| - 1)
  {
    var init, l := lines[..|lines| - 1], lines[|lines| - 1];
    FoldTracks(xf, init);
    var p := FirstPlan(init);
    if p.Some? {
      assert lines[..p.value] == init[..p.value];
    }
    var n := t.testno + 1;
    var number := if l.number.Some? then l.number.value else n;
    var unplanned := t.plan == LatePlan || (t.plan != NoPlan && n > t.planned);
    NoErrorSnoc(t.results, if unplanned || number != n then ERROR else Cooked(xf, l.ok, l.directive));
  }

  lemma LastOtherFine(xf: bool, t: Tap, lines: seq<Line>)
    requires lines != [] && !lines[|lines| - 1].ResultLine? && !lines[|lines| - 1].BailOutLine?
    requires NoBailOut(lines[..|lines| - 1]) && t == Fold(xf, START, lines[..|lines| - 1])
    ensures NoError(OnLine(xf, t, lines[|lines| - 1]).results)
       <==> NoError(t.results) && LineFine(lines, |lines| - 1)
  {
    FoldTracks(xf, lines[..|lines| - 1]);
    NoErrorSnoc(t.results, ERROR);
    NoErrorSnoc(t.results, SKIP);
  }

  /** One more line adds no error exactly when it is fine. */
  lemma LastLineFine(xf: bool, lines: seq<Line>)
    requires lines != [] && NoBailOut(lines)
    ensures var before := Fold(xf, START, lines[..|lines| - 1]).results;
            NoError(Fold(xf, START, lines).results) <==> NoError(before) && LineFine(lines, |lines| - 1)
  {
    var init := lines[..|lines| - 1];
    if lines[|lines| - 1].ResultLine? {
      LastResultFine(xf, Fold(xf, START, init), lines);
    } else {
      LastOtherFine(xf, Fold(xf, START, init), lines);
    }
  }

  lemma {:induction false} FoldNoError(xf: bool, lines: seq<Line>)
    requires NoBailOut(lines)
    ensures NoError(Fold(xf, START, lines).results) <==> forall i :: 0 <= i < |lines| ==> LineFine(lines, i)
  {
    if lines != [] {
      var n := |lines| - 1;
      FoldNoError(xf, lines[..n]);
      LastLineFine(xf, lines);
      forall i | 0 <= i < n
        ensures LineFine(lines[..n], i) == LineFine(lines, i)
      {
        LineFinePrefix(lines, n, i);
      }
    }
  }

  // ---------------------------------------------------------------------------------------------
  // When no error is recorded

  lemma CountStep(lines: seq<Line>, i: nat)
    requires i < |lines|
    ensures Count(lines[..i + 1]) == Count(lines[..i]) + if lines[i].ResultLine? then 1 else 0
  {
    assert lines[..i + 1][..i] == lines[..i];
  }

  lemma {:induction false} CountBetween(lines: seq<Line>, i: nat, j: nat)
    requires i <= j <= |lines|
    ensures Count(lines[..i]) <= Count(lines[..j])
    ensures (forall k :: i <= k < j ==> !lines[k].ResultLine?) ==> Count(lines[..i]) == Count(lines[..j])
  {
    if i < j {
      CountBetween(lines, i, j - 1);
      CountStep(lines, j - 1);
    }
  }

  lemma {:induction false} FirstPlanOfPrefix(lines: seq<Line>, n: nat)
    requires n <= |lines|
    ensures var p := FirstPlan(lines);
            FirstPlan(lines[..n]) == if p.Some? && p.value < n then p else None
  {
    var p, q := FirstPlan(lines), FirstPlan(lines[..n]);
    if p.Some? && p.value < n {
      assert lines[..n][p.value] == lines[p.value];
    }
    if q.Some? {
      assert lines[..n][q.value] == lines[q.value];
    }
  }

  lemma SolePlanIsFirst(lines: seq<Line>, p: nat)
    requires SolePlan(lines, p)
    ensures FirstPlan(lines) == Some(p)
  {
    var q := FirstPlan(lines);
    assert IsPlan(lines[p]);
    assert q.Some? ==> IsPlan(lines[q.value]);
  }

  lemma FineThenOrderly(lines: seq<Line>, p: nat)
    requires NoBailOut(lines) && FirstPlan(lines) == Some(p) && PlannedBy(lines[p]) == Count(lines)
    requires forall i :: 0 <= i < |lines| ==> LineFine(lines, i)
    ensures Orderly(lines)
  {
    forall i | 0 <= i < |lines|
      ensures IsPlan(lines[i]) <==> i == p
    {
      assert LineFine(lines, i);
      FirstPlanOfPrefix(lines, i);
    }
    assert SolePlan(lines, p);
    if k :| p <= k < |lines| && lines[k].ResultLine? {
      assert LineFine(lines, k);
      FirstPlanOfPrefix(lines, k);
      assert lines[..k][..p] == lines[..p];
    } else {
      CountBetween(lines, p, |lines|);
      assert lines[..|lines|] == lines;
    }
    assert PlanKept(lines, p);
    forall i | 0 <= i < |lines| && lines[i].ResultLine?
      ensures Numbered(lines, i)
    {
      assert LineFine(lines, i);
    }
  }

  lemma CountUpTo(lines: seq<Line>, i: nat)
    requires i <= |lines|
    ensures Count(lines[..i]) <= Count(lines)
    ensures i < |lines| && lines[i].ResultLine? ==> Count(lines[..i]) < Count(lines)
  {
    assert lines[..|lines|] == lines;
    CountBetween(lines, i, |lines|);
    if i < |lines| {
      CountStep(lines, i);
      CountBetween(lines, i + 1, |lines|);
    }
  }

  /** A result after a plan that is kept: the plan came first, and the result is within it. */
  lemma ResultWithinPlan(lines: seq<Line>, p: nat, i: nat)
    requires p < i < |lines| && lines[i].ResultLine? && PlanKept(lines, p)
    ensures Count(lines[..p]) == 0 && Count(lines[..i]) < PlannedBy(lines[p])
  {
    CountUpTo(lines, i);
    CountBetween(lines, p, i);
  }

  lemma OrderlyThenFine(lines: seq<Line>, p: nat, i: nat)
    requires SolePlan(lines, p) && PlanKept(lines, p) && i < |lines|
    requires lines[i].ResultLine? ==> Numbered(lines, i)
    ensures LineFine(lines, i)
  {
    SolePlanIsFirst(lines, p);
    FirstPlanOfPrefix(lines, i);
    if p < i && lines[i].ResultLine? {
      ResultWithinPlan(lines, p, i);
      assert lines[..i][..p] == lines[..p];
    }
  }

  lemma FinishNoError(t: Tap, ignoreExit: bool, exit: ExitStatus)
    requires !t.bailed
    ensures var f := Finish(t, ignoreExit, exit);
            f.Finished? && NoError(f.results) <==>
              && NoError(t.results) && t.plan != NoPlan && t.planned == t.testno
              && (ignoreExit || exit == Status(0))
  {
    var f := Finish(t, ignoreExit, exit);
    if f.Finished? {
      assert t.results <= f.results;
      if |f.results| > |t.results| {
        assert f.results[|f.results| - 1] == ERROR;
      }
    }
  }

  /** No error is recorded exactly when the stream is orderly and the exit status is zero or ignored. */
  lemma NoErrorExactly(xf: bool, ignoreExit: bool, lines: seq<Line>, exit: ExitStatus)
    requires NoBailOut(lines)
    ensures var f := Finish(Fold(xf, START, lines), ignoreExit, exit);
            f.Finished? && NoError(f.results) <==> Orderly(lines) && (ignoreExit || exit == Status(0))
  {
    var t := Fold(xf, START, lines);
    FoldTracks(xf, lines);
    FoldNoError(xf, lines);
    FinishNoError(t, ignoreExit, exit);
    if Orderly(lines) {
      var p :| SolePlan(lines, p) && PlanKept(lines, p);
      SolePlanIsFirst(lines, p);
      forall i | 0 <= i < |lines|
        ensures LineFine(lines, i)
      {
        OrderlyThenFine(lines, p, i);
      }
    } else if FirstPlan(lines).Some? && t.planned == t.testno && NoError(t.results) {
      FineThenOrderly(lines, FirstPlan(lines).value);
    }
  }

  // ---------------------------------------------------------------------------------------------
  // Where the plan stands

  /** The outcome of the result at line `i` when no plan stands in its way. */
  function OutcomeAt(xf: bool, lines: seq<Line>, i: nat): Outcome
    requires i < |lines| && lines[i].ResultLine?
  {
    var l := lines[i];
    if l.number.Some? && l.number.value != Count(lines[..i]) + 1 then ERROR else Cooked(xf, l.ok, l.directive)
  }

  /** The outcomes of the result lines, in order. */
  function Outcomes(xf: bool, lines: seq<Line>): (os: seq<Outcome>)
    ensures |os| == Count(lines)
  {
    if lines == [] then []
    else
      var n := |lines| - 1;
      Outcomes(xf, lines[..n]) + if lines[n].ResultLine? then [OutcomeAt(xf, lines, n)] else []
  }

  predicate PlanFree(lines: seq<Line>) {
    forall i :: 0 <= i < |lines| ==> !IsPlan(lines[i])
  }

  /** Without a plan line, or with an early plan for no fewer results, the fold only adds the
      outcomes of the result lines. */
  lemma {:induction false} FoldOutcomes(xf: bool, t: Tap, lines: seq<Line>)
    requires PlanFree(lines) && NoBailOut(lines)
    requires t.testno == 0 && !t.bailed
    requires t.plan == NoPlan || (t.plan == EarlyPlan && Count(lines) <= t.planned)
    ensures Fold(xf, t, lines) == t.(testno := Count(lines), results := t.results + Outcomes(xf, lines))
  {
    if lines != [] {
      FoldOutcomes(xf, t, lines[..|lines| - 1]);
    }
  }

  lemma {:induction false} FoldPrepend(xf: bool, t: Tap, l: Line, lines: seq<Line>)
    ensures Fold(xf, t, [l] + lines) == Fold(xf, OnLine(xf, t, l), lines)
  {
    var all := [l] + lines;
    if lines == [] {
      assert all == [l] && all[..0] == [];
      assert Fold(xf, t, all) == OnLine(xf, Fold(xf, t, []), l);
    } else {
      var n := |lines| - 1;
      assert all[..|all| - 1] == [l] + lines[..n];
      FoldPrepend(xf, t, l, lines[..n]);
    }
  }

  lemma {:induction false} StaysUnbailed(xf: bool, t: Tap, lines: seq<Line>)
    requires NoBailOut(lines)
    ensures var t' := Fold(xf, t, lines);
            t'.bailed == t.bailed && t'.testno == (if t.bailed then t.testno else t.testno + Count(lines))
  {
    if lines != [] {
      StaysUnbailed(xf, t, lines[..|lines| - 1]);
    }
  }

  lemma SeenAppend(a: seq<Outcome>, b: seq<Outcome>)
    ensures Seen(a + b) == Seen(a) + Seen(b)
  {
  }

  /** The state after a plan line followed by other lines. */
  lemma PlanFirst(xf: bool, plan: Line, rest: seq<Line>)
    requires IsPlan(plan) && PlanFree(rest) && NoBailOut(rest)
    ensures var t := Fold(xf, START, [plan] + rest);
            && !t.bailed && t.testno == Count(rest) && t.plan == EarlyPlan && t.planned == PlannedBy(plan)
            && (Count(rest) <= t.planned ==>
                  t.results == (if PlannedBy(plan) == 0 then [SKIP] else []) + Outcomes(xf, rest))
  {
    FoldPrepend(xf, START, plan, rest);
    var t1 := OnLine(xf, START, plan);
    StaysUnbailed(xf, t1, rest);
    KeepsPlan(xf, t1, rest);
    if Count(rest) <= t1.planned {
      FoldOutcomes(xf, t1, rest);
    }
  }

  lemma {:induction false} KeepsPlan(xf: bool, t: Tap, lines: seq<Line>)
    requires PlanFree(lines)
    ensures Fold(xf, t, lines).plan == t.plan && Fold(xf, t, lines).planned == t.planned
  {
    if lines != [] {
      KeepsPlan(xf, t, lines[..|lines| - 1]);
    }
  }

  /** The state after other lines followed by a plan line. */
  lemma PlanLast(xf: bool, plan: Line, rest: seq<Line>)
    requires IsPlan(plan) && PlanFree(rest) && NoBailOut(rest)
    ensures var t := Fold(xf, START, rest + [plan]);
            && !t.bailed && t.testno == Count(rest) && t.plan != NoPlan && t.planned == PlannedBy(plan)
            && t.results == Outcomes(xf, rest) + if PlannedBy(plan) == 0 == Count(rest) then [SKIP] else []
  {
    assert (rest + [plan])[..|rest|] == rest;
    FoldOutcomes(xf, START, rest);
  }

  /** Where a lone plan line stands does not matter: moved from first to last, it leaves the verdict
      as it was, although the two cases are flagged by different code. */
  lemma PlanPositionIrrelevant(xf: bool, ignoreExit: bool, plan: Line, rest: seq<Line>, exit: ExitStatus)
    requires IsPlan(plan) && PlanFree(rest)
    ensures Verdict(xf, ignoreExit, [plan] + rest, exit) == Verdict(xf, ignoreExit, rest + [plan], exit)
  {
    var early, late := Fold(xf, START, [plan] + rest), Fold(xf, START, rest + [plan]);
    if NoBailOut(rest) {
      PlanFirst(xf, plan, rest);
      PlanLast(xf, plan, rest);
      if PlannedBy(plan) == Count(rest) {
        var skip := if PlannedBy(plan) == 0 then [SKIP] else [];
        SeenAppend(skip, Outcomes(xf, rest));
        SeenAppend(Outcomes(xf, rest), skip);
        SameSeenSameVerdict(early, late, ignoreExit, exit);
      } else {
        MismatchIsError(early, ignoreExit, exit);
        MismatchIsError(late, ignoreExit, exit);
      }
    } else {
      var i :| 0 <= i < |rest| && rest[i].BailOutLine?;
      assert ([plan] + rest)[i + 1] == rest[i] && (rest + [plan])[i] == rest[i];
      FoldBailed(xf, [plan] + rest);
      FoldBailed(xf, rest + [plan]);
    }
  }

  lemma SameSeenSameVerdict(a: Tap, b: Tap, ignoreExit: bool, exit: ExitStatus)
    requires !a.bailed && !b.bailed && a.plan != NoPlan && b.plan != NoPlan
    requires a.planned == b.planned && a.testno == b.testno && Seen(a.results) == Seen(b.results)
    ensures var f, g := Finish(a, ignoreExit, exit), Finish(b, ignoreExit, exit);
            f.Abort? == g.Abort? && (f.Finished? ==> Seen(f.results) == Seen(g.results))
  {
    SeenAppend(a.results, [ERROR]);
    SeenAppend(b.results, [ERROR]);
    SeenAppend(a.results + [ERROR], [ERROR]);
    SeenAppend(b.results + [ERROR], [ERROR]);
  }

  lemma MismatchIsError(t: Tap, ignoreExit: bool, exit: ExitStatus)
    requires !t.bailed && (t.plan == NoPlan || t.planned != t.testno)
    ensures var f := Finish(t, ignoreExit, exit);
            && (f.Abort? <==> !ignoreExit && exit.NotAStatus?)
            && (f.Finished? ==> ERROR in f.results)
  {
    assert Report(t, ERROR).results[|t.results|] == ERROR;
  }

  // ---------------------------------------------------------------------------------------------
  // What is recorded

  /** At the end something has always been recorded, so the SKIP verdict of an empty record, which
      the global result would give, cannot arise. */
  lemma RecordNeverEmpty(xf: bool, ignoreExit: bool, lines: seq<Line>, exit: ExitStatus)
    ensures var f := Finish(Fold(xf, START, lines), ignoreExit, exit);
            f.Finished? ==> f.results != []
  {
    var t := Fold(xf, START, lines);
    if NoBailOut(lines) {
      RecordedSoFar(xf, lines);
    } else {
      FoldBailed(xf, lines);
    }
  }

  lemma {:induction false} RecordedSoFar(xf: bool, lines: seq<Line>)
    requires NoBailOut(lines)
    ensures var t := Fold(xf, START, lines);
            t.results == [] ==> t.testno == 0 && (t.plan == NoPlan || t.planned != 0)
  {
    if lines != [] {
      RecordedSoFar(xf, lines[..|lines| - 1]);
      StaysUnbailed(xf, START, lines[..|lines| - 1]);
    }
  }

  lemma {:induction false} FoldSplit(xf: bool, t: Tap, a: seq<Line>, b: seq<Line>)
    ensures Fold(xf, t, a + b) == Fold(xf, Fold(xf, t, a), b)
  {
    if b == [] {
      assert a + b == a;
    } else {
      var n := |b| - 1;
      assert (a + b)[..|a + b| - 1] == a + b[..n];
      FoldSplit(xf, t, a, b[..n]);
    }
  }

  lemma {:induction false} OutcomesSplit(xf: bool, a: seq<Line>, b: seq<Line>)
    requires Count(a) == 0 || Count(b) == 0
    ensures Count(a + b) == Count(a) + Count(b)
    ensures Outcomes(xf, a + b) == Outcomes(xf, a) + Outcomes(xf, b)
  {
    if b == [] {
      assert a + b == a;
    } else {
      var n := |b| - 1;
      assert (a + b)[..|a + b| - 1] == a + b[..n];
      OutcomesSplit(xf, a, b[..n]);
    }
  }

  lemma MiddlePlan(xf: bool, a: seq<Line>, l: Line, b: seq<Line>)
    requires IsPlan(l) && PlanFree(a) && PlanFree(b) && NoBailOut(a) && NoBailOut(b)
    requires Count(a) == 0 || Count(b) == 0
    requires PlannedBy(l) == Count(a) + Count(b)
    ensures Fold(xf, START, a + ([l] + b)).results
         == Outcomes(xf, a) + Outcomes(xf, b) + if Count(a) + Count(b) == 0 then [SKIP] else []
  {
    FoldSplit(xf, START, a, [l] + b);
    FoldOutcomes(xf, START, a);
    var t := Fold(xf, START, a);
    FoldPrepend(xf, t, l, b);
    if Count(a) == 0 {
      FoldOutcomes(xf, OnLine(xf, t, l), b);
    } else {
      FoldNoResults(xf, OnLine(xf, t, l), b);
    }
  }

  /** The record of a conforming stream: the outcomes, and a SKIP if nothing was planned. */
  lemma ConformingRecord(xf: bool, lines: seq<Line>, p: nat)
    requires NoBailOut(lines) && SolePlan(lines, p) && PlanKept(lines, p)
    ensures Fold(xf, START, lines).results == Outcomes(xf, lines) + if Count(lines) == 0 then [SKIP] else []
  {
    var a, l, b := lines[..p], lines[p], lines[p + 1..];
    assert lines == a + ([l] + b);
    assert PlanFree(a) && NoBailOut(a);
    forall i | 0 <= i < |b|
      ensures !IsPlan(b[i]) && !b[i].BailOutLine?
    {
      assert b[i] == lines[p + 1 + i];
    }
    RecordAround(xf, lines, a, l, b);
  }

  lemma RecordAround(xf: bool, lines: seq<Line>, a: seq<Line>, l: Line, b: seq<Line>)
    requires lines == a + ([l] + b)
    requires IsPlan(l) && PlanFree(a) && PlanFree(b) && NoBailOut(a) && NoBailOut(b)
    requires PlannedBy(l) == Count(lines) && (Count(a) == 0 || Count(a) == Count(lines))
    ensures Fold(xf, START, lines).results == Outcomes(xf, lines) + if Count(lines) == 0 then [SKIP] else []
  {
    SplitCounts(a, l, b);
    SplitOutcomes(xf, a, l, b);
    MiddlePlan(xf, a, l, b);
  }

  lemma SplitOutcomes(xf: bool, a: seq<Line>, l: Line, b: seq<Line>)
    requires !l.ResultLine? && (Count(a) == 0 || Count(b) == 0)
    ensures Outcomes(xf, a + ([l] + b)) == Outcomes(xf, a) + Outcomes(xf, b)
  {
    assert [l][..0] == [];
    OutcomesSplit(xf, [l], b);
    OutcomesSplit(xf, a, [l] + b);
  }

  lemma {:induction false} SplitCounts(a: seq<Line>, l: Line, b: seq<Line>)
    ensures Count(a + ([l] + b)) == Count(a) + (if l.ResultLine? then 1 else 0) + Count(b)
  {
    var all := a + ([l] + b);
    if b == [] {
      assert all[..|a|] == a && all[|all| - 1] == l;
    } else {
      assert all[..|all| - 1] == a + ([l] + b[..|b| - 1]);
      SplitCounts(a, l, b[..|b| - 1]);
    }
  }

  lemma {:induction false} FoldNoResults(xf: bool, t: Tap, lines: seq<Line>)
    requires PlanFree(lines) && NoBailOut(lines) && Count(lines) == 0
    ensures Fold(xf, t, lines) == t
    ensures Outcomes(xf, lines) == []
  {
    if lines != [] {
      FoldNoResults(xf, t, lines[..|lines| - 1]);
    }
  }

  /** A conforming stream gives the final checks nothing to add. */
  lemma ConformingFinish(xf: bool, ignoreExit: bool, lines: seq<Line>, p: nat, exit: ExitStatus)
    requires NoBailOut(lines) && SolePlan(lines, p) && PlanKept(lines, p)
    requires ignoreExit || exit == Status(0)
    ensures Finish(Fold(xf, START, lines), ignoreExit, exit) == Finished(Fold(xf, START, lines).results)
  {
    FoldTracks(xf, lines);
    SolePlanIsFirst(lines, p);
  }

  // ---------------------------------------------------------------------------------------------
  // The exact verdict

  /** What is recorded for a result line that no plan stands in the way of, for every combination of
      what the line says. */
  lemma OutcomeMeans(xf: bool, lines: seq<Line>, i: nat)
    requires i < |lines| && lines[i].ResultLine?
    ensures var o, l, inOrder := OutcomeAt(xf, lines, i), lines[i], Numbered(lines, i);
            && (o == PASS <==> inOrder && l.ok && l.directive == NoDirective && !xf)
            && (o == FAIL <==> inOrder && !l.ok && l.directive != Todo && !xf)
            && (o == SKIP <==> inOrder && l.ok && l.directive == Skip)
            && (o == XPASS <==> inOrder && l.ok && (l.directive == Todo || (l.directive == NoDirective && xf)))
            && (o == XFAIL <==> inOrder && !l.ok && (l.directive == Todo || xf))
            && (o == ERROR <==> !inOrder)
  {
  }

  /** A result line adds one outcome to the record, unless the stream has bailed out: the outcome of
      the line, or an error if it comes after a late plan or is one too many for an early one. */
  lemma ResultRecorded(xf: bool, lines: seq<Line>)
    requires lines != [] && lines[|lines| - 1].ResultLine? && NoBailOut(lines[..|lines| - 1])
    ensures var n := |lines| - 1;
            Fold(xf, START, lines).results
            == Fold(xf, START, lines[..n]).results
               + [if LineFine(lines, n) then OutcomeAt(xf, lines, n) else ERROR]
  {
    FoldTracks(xf, lines[..|lines| - 1]);
    var p := FirstPlan(lines[..|lines| - 1]);
    if p.Some? {
      assert lines[..|lines| - 1][..p.value] == lines[..p.value];
    }
  }

  /** What comes after a bail-out is ignored, results, plans and the exit status alike. */
  lemma NothingAfterBailOut(xf: bool, ignoreExit: bool, before: seq<Line>, after: seq<Line>, exit: ExitStatus)
    requires NoBailOut(before)
    ensures Finish(Fold(xf, START, before + ([BailOutLine] + after)), ignoreExit, exit)
         == Finished(Fold(xf, START, before).results + [ERROR])
  {
    FoldSplit(xf, START, before, [BailOutLine] + after);
    FoldTracks(xf, before);
    var t := Fold(xf, START, before);
    FoldPrepend(xf, t, BailOutLine, after);
    FoldAfterBailOut(xf, OnLine(xf, t, BailOutLine), after);
  }

  lemma {:induction false} FoldAfterBailOut(xf: bool, t: Tap, lines: seq<Line>)
    requires t.bailed
    ensures Fold(xf, t, lines) == t
  {
    if lines != [] {
      FoldAfterBailOut(xf, t, lines[..|lines| - 1]);
    }
  }

  lemma {:induction false} OutcomesMembers(xf: bool, lines: seq<Line>, o: Outcome)
    ensures o in Outcomes(xf, lines)
       <==> exists i :: 0 <= i < |lines| && lines[i].ResultLine? && OutcomeAt(xf, lines, i) == o
  {
    if lines != [] {
      var n := |lines| - 1;
      OutcomesMembers(xf, lines[..n], o);
      forall i | 0 <= i < n && lines[i].ResultLine?
        ensures OutcomeAt(xf, lines[..n], i) == OutcomeAt(xf, lines, i)
      {
        assert lines[..n][..i] == lines[..i];
      }
      if i :| 0 <= i < n && lines[i].ResultLine? && OutcomeAt(xf, lines, i) == o {
        assert lines[..n][i].ResultLine? && OutcomeAt(xf, lines[..n], i) == o;
      }
    }
  }

  /** The record of an orderly stream with a good exit status. */
  lemma OrderlyRecord(xf: bool, ignoreExit: bool, lines: seq<Line>, exit: ExitStatus)
    requires Orderly(lines) && (ignoreExit || exit == Status(0))
    ensures Finish(Fold(xf, START, lines), ignoreExit, exit)
         == Finished(Outcomes(xf, lines) + if Count(lines) == 0 then [SKIP] else [])
  {
    var p :| SolePlan(lines, p) && PlanKept(lines, p);
    ConformingRecord(xf, lines, p);
    ConformingFinish(xf, ignoreExit, lines, p, exit);
  }

  lemma SomeUnacceptable(xf: bool, lines: seq<Line>)
    requires Orderly(lines)
    ensures FAIL in Outcomes(xf, lines) || XPASS in Outcomes(xf, lines)
       <==> exists i :: 0 <= i < |lines| && lines[i].ResultLine? && !Acceptable(xf, lines[i])
  {
    OutcomesMembers(xf, lines, FAIL);
    OutcomesMembers(xf, lines, XPASS);
    forall i | 0 <= i < |lines| && lines[i].ResultLine?
      ensures OutcomeAt(xf, lines, i) == FAIL || OutcomeAt(xf, lines, i) == XPASS <==> !Acceptable(xf, lines[i])
    {
      OutcomeMeans(xf, lines, i);
    }
  }

  lemma SomeNotSkipped(xf: bool, lines: seq<Line>)
    requires Orderly(lines)
    ensures (forall o :: o in Outcomes(xf, lines) ==> o == SKIP)
       <==> forall i :: 0 <= i < |lines| && lines[i].ResultLine? ==> Skipped(lines[i])
  {
    forall i | 0 <= i < |lines| && lines[i].ResultLine?
      ensures OutcomeAt(xf, lines, i) == SKIP <==> Skipped(lines[i])
      ensures OutcomeAt(xf, lines, i) in Outcomes(xf, lines)
    {
      OutcomeMeans(xf, lines, i);
      OutcomesMembers(xf, lines, OutcomeAt(xf, lines, i));
    }
    forall o | o in Outcomes(xf, lines)
      ensures exists i :: 0 <= i < |lines| && lines[i].ResultLine? && OutcomeAt(xf, lines, i) == o
    {
      OutcomesMembers(xf, lines, o);
    }
  }

  lemma OrderlyVerdict(xf: bool, ignoreExit: bool, lines: seq<Line>, exit: ExitStatus)
    requires Orderly(lines) && (ignoreExit || exit == Status(0))
    ensures Verdict(xf, ignoreExit, lines, exit)
         == if exists i :: 0 <= i < |lines| && lines[i].ResultLine? && !Acceptable(xf, lines[i]) then Some(FAIL)
            else if forall i :: 0 <= i < |lines| && lines[i].ResultLine? ==> Skipped(lines[i]) then Some(SKIP)
            else Some(PASS)
  {
    OrderlyRecord(xf, ignoreExit, lines, exit);
    NoErrorExactly(xf, ignoreExit, lines, exit);
    SomeUnacceptable(xf, lines);
    SomeNotSkipped(xf, lines);
    var os := Outcomes(xf, lines);
    var record := os + if Count(lines) == 0 then [SKIP] else [];
    assert forall o :: o in Seen(record) <==> o in os || (o == SKIP && Count(lines) == 0);
    assert ERROR !in Seen(record);
    assert Seen(record) <= {SKIP} <==> forall o :: o in os ==> o == SKIP;
  }

  /** The verdict on every stream, by what its lines say. There is none, because the driver gives up,
      exactly if the exit status matters and is none. It is ERROR exactly if something bailed out, a
      number or the plan is wrong, or the exit status is bad. Otherwise the results decide: FAIL if one
      of them is not acceptable, SKIP if all were skipped, and PASS. */
  lemma ExactVerdict(xf: bool, ignoreExit: bool, lines: seq<Line>, exit: ExitStatus)
    ensures var v := Verdict(xf, ignoreExit, lines, exit);
            var orderly := Orderly(lines) && (ignoreExit || exit == Status(0));
            var failed :=
              exists i :: 0 <= i < |lines| && lines[i].ResultLine? && !Acceptable(xf, lines[i]);
            var skipped :=
              forall i :: 0 <= i < |lines| && lines[i].ResultLine? ==> Skipped(lines[i]);
            && (v == None <==> NoBailOut(lines) && !ignoreExit && exit == NotAStatus)
            && (v == Some(ERROR) <==> v.Some? && !orderly)
            && (v == Some(FAIL) <==> orderly && failed)
            && (v == Some(SKIP) <==> orderly && !failed && skipped)
            && (v == Some(PASS) <==> orderly && !failed && !skipped)
  {
    var t := Fold(xf, START, lines);
    if Orderly(lines) && (ignoreExit || exit == Status(0)) {
      OrderlyVerdict(xf, ignoreExit, lines, exit);
      FoldTracks(xf, lines);
    } else if NoBailOut(lines) {
      NoErrorExactly(xf, ignoreExit, lines, exit);
      FoldTracks(xf, lines);
      FinishAborts(t, ignoreExit, exit);
      ErrorVerdict(xf, ignoreExit, lines, exit);
    } else {
      FoldBailed(xf, lines);
    }
  }

  lemma FinishAborts(t: Tap, ignoreExit: bool, exit: ExitStatus)
    ensures Finish(t, ignoreExit, exit).Abort? <==> !t.bailed && !ignoreExit && exit == NotAStatus
  {
  }

  lemma ErrorVerdict(xf: bool, ignoreExit: bool, lines: seq<Line>, exit: ExitStatus)
    ensures var f := Finish(Fold(xf, START, lines), ignoreExit, exit);
            f.Finished? && !NoError(f.results) ==> Verdict(xf, ignoreExit, lines, exit) == Some(ERROR)
  {
    var f := Finish(Fold(xf, START, lines), ignoreExit, exit);
    if f.Finished? && !NoError(f.results) {
      assert ERROR in f.results;
    }
  }

  /** With or without --expect-failure, a PASS means that the record is the outcomes of the result
      lines, in order and one for one, and as many as were planned. */
  lemma PassRecordsEveryResult(xf: bool, ignoreExit: bool, lines: seq<Line>, exit: ExitStatus)
    requires Verdict(xf, ignoreExit, lines, exit) == Some(PASS)
    ensures exists p: nat :: SolePlan(lines, p) && PlannedBy(lines[p]) == Count(lines) > 0
    ensures Finish(Fold(xf, START, lines), ignoreExit, exit) == Finished(Outcomes(xf, lines))
  {
    ExactVerdict(xf, ignoreExit, lines, exit);
    var p :| SolePlan(lines, p) && PlanKept(lines, p);
    OrderlyRecord(xf, ignoreExit, lines, exit);
    assert Outcomes(xf, lines) + [] == Outcomes(xf, lines);
    assert Seen([] + [SKIP]) == {SKIP};
  }

  // ---------------------------------------------------------------------------------------------
  // Recheck and the quiet summary

  predicate MustRecheck(seen: set<Outcome>) {
    exists o :: o in seen && o != XFAIL && o != PASS && o != SKIP
  }

  /** A test is to be re-run exactly when its verdict is neither PASS nor SKIP. */
  lemma RecheckMatchesVerdict(seen: set<Outcome>)
    ensures MustRecheck(seen) <==> Global(seen) == FAIL || Global(seen) == ERROR
  {
    if FAIL in seen || XPASS in seen || ERROR in seen {
      assert exists o :: o in seen && o != XFAIL && o != PASS && o != SKIP;
    }
  }

  /** The verdict that --quiet prints on the console, taken before the final checks. */
  ghost function QuietVerdict(xf: bool, lines: seq<Line>): Outcome {
    Global(Seen(Fold(xf, START, lines).results))
  }

  /** The quiet verdict is the one recorded, if and only if the stream bailed out, had an error
      already, or passes the final checks of the plan and the exit status. */
  lemma QuietVerdictAgrees(xf: bool, ignoreExit: bool, lines: seq<Line>, exit: ExitStatus)
    requires Verdict(xf, ignoreExit, lines, exit).Some?
    ensures var t := Fold(xf, START, lines);
            Verdict(xf, ignoreExit, lines, exit) == Some(QuietVerdict(xf, lines)) <==>
              || t.bailed || ERROR in t.results
              || (t.plan != NoPlan && t.planned == t.testno && (ignoreExit || exit == Status(0)))
  {
    var t := Fold(xf, START, lines);
    var f := Finish(t, ignoreExit, exit);
    assert t.results <= f.results;
    if f.results != t.results {
      assert f.results[|f.results| - 1] == ERROR;
    }
    assert ERROR in t.results ==> ERROR in f.results;
  }

  /** A test script that prints nothing and fails is summed up as SKIP and recorded as ERROR. */
  lemma QuietVerdictCanDiffer()
    ensures QuietVerdict(false, []) == SKIP
    ensures Verdict(false, false, [], Status(1)) == Some(ERROR)
  {
    var f := Finish(Fold(false, START, []), false, Status(1));
    assert f.results[0] == ERROR;
  }
}
