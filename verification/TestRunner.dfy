// run_tests: which tests run, and how their outcomes are accounted for.
module TestRunner {
  import opened Common

  // How fnmatch relates a name (first) to a pattern (second).
  type Glob = (string, string) -> bool

  // What calling a test function comes to.  A test that asks to be skipped
  // goes on instead if it is unskipped.
  datatype Ending = Returns | Skips | Fails | SystemExit | Interrupted
  datatype Test = Test(name: string, disabled: bool, asksToSkip: bool, ending: Ending)

  datatype Outcome = Passed | Skipped | Failed | Interrupt

  // A module without tests has no list of them at all.
  datatype Module = Module(name: string, tests: Option<seq<Test>>)

  datatype Patterns =
    Patterns(included: seq<string>, excluded: seq<string>, enabled: seq<string>, unskipped: seq<string>)

  datatype Verdict = AllPassed | NothingRan | SomeFailed(count: nat) | Stopped

  predicate MatchesAny(glob: Glob, name: string, patterns: seq<string>) {
    exists p :: p in patterns && glob(name, p)
  }

  predicate Chosen(glob: Glob, ps: Patterns, t: Test) {
    && (t.disabled ==> MatchesAny(glob, t.name, ps.enabled))
    && MatchesAny(glob, t.name, ps.included)
    && !MatchesAny(glob, t.name, ps.excluded)
  }

  // Test.__call__ turns a system exit into a failure.
  function OutcomeOf(t: Test, unskipped: bool): Outcome {
    if t.asksToSkip && !unskipped then Skipped
    else
      match t.ending
      case Returns => Passed
      case Skips => Skipped
      case Fails => Failed
      case SystemExit => Failed
      case Interrupted => Interrupt
  }

  function Classify(glob: Glob, ps: Patterns, t: Test): Outcome {
    OutcomeOf(t, MatchesAny(glob, t.name, ps.unskipped))
  }

  // ---------- what should run ----------

  function Listed(modules: seq<Module>): seq<Test> {
    if modules == [] then []
    else (if modules[0].tests.Some? then modules[0].tests.value else []) + Listed(modules[1..])
  }

  // Module by module, and within a module in its order; a module without tests
  // adds none.
  lemma {:induction false} ListedInTurn(a: seq<Module>, m: Module, b: seq<Module>)
    ensures Listed(a + [m] + b) == Listed(a) + (match m.tests case None => [] case Some(tests) => tests) + Listed(b)
  {
    var tests := match m.tests case None => [] case Some(tests) => tests;
    if a == [] {
      assert a + [m] + b == [m] + b && ([m] + b)[1..] == b;
      assert [] + tests == tests;
    } else {
      var first := match a[0].tests case None => [] case Some(tests) => tests;
      ListedInTurn(a[1..], m, b);
      assert (a + [m] + b)[1..] == a[1..] + [m] + b && (a + [m] + b)[0] == a[0];
      Associates(Listed(a[1..]), tests, Listed(b));
      Associates(first, Listed(a[1..]), tests + Listed(b));
      Associates(first + Listed(a[1..]), tests, Listed(b));
    }
  }

  function Selected(glob: Glob, ps: Patterns, tests: seq<Test>): seq<Test> {
    if tests == [] then []
    else (if Chosen(glob, ps, tests[0]) then [tests[0]] else []) + Selected(glob, ps, tests[1..])
  }

  function WithOutcome(glob: Glob, ps: Patterns, tests: seq<Test>, o: Outcome): seq<Test> {
    if tests == [] then []
    else (if Classify(glob, ps, tests[0]) == o then [tests[0]] else []) + WithOutcome(glob, ps, tests[1..], o)
  }

  // tests up to and including the first that is interrupted.
  function UntilInterrupt(glob: Glob, ps: Patterns, tests: seq<Test>): seq<Test> {
    if tests == [] then []
    else if Classify(glob, ps, tests[0]) == Interrupt then [tests[0]]
    else [tests[0]] + UntilInterrupt(glob, ps, tests[1..])
  }

  // ---------- the run ----------

  class TestRun {
    const failFast: bool
    var tests: seq<Test>
    var passedTests: seq<Test>
    var skippedTests: seq<Test>
    var failedTests: seq<Test>

    constructor (failFast: bool)
      ensures this.failFast == failFast
      ensures tests == [] && passedTests == [] && skippedTests == [] && failedTests == []
    {
      this.failFast := failFast;
      tests, passedTests, skippedTests, failedTests := [], [], [], [];
    }

    // The lists account for ran, in order.
    ghost predicate Accounts(glob: Glob, ps: Patterns, ran: seq<Test>)
      reads this
    {
      && tests == ran
      && passedTests == WithOutcome(glob, ps, ran, Passed)
      && skippedTests == WithOutcome(glob, ps, ran, Skipped)
      && failedTests == WithOutcome(glob, ps, ran, Failed)
    }

    // _run_test.  stop is its return value under fail_fast; raised stands for
    // the KeyboardInterrupt that it lets through.
    method RunTest(t: Test, unskipped: bool) returns (stop: bool, raised: bool)
      modifies this`passedTests, this`skippedTests, this`failedTests
      ensures var o := OutcomeOf(t, unskipped);
              && passedTests == old(passedTests) + (if o == Passed then [t] else [])
              && skippedTests == old(skippedTests) + (if o == Skipped then [t] else [])
              && failedTests == old(failedTests) + (if o == Failed then [t] else [])
              && (raised <==> o == Interrupt)
              && (stop <==> o == Failed && failFast)
      ensures if t.asksToSkip && !unskipped then
                skippedTests == old(skippedTests) + [t] && !raised
              else match t.ending
                case Returns => passedTests == old(passedTests) + [t] && !raised
                case Skips => skippedTests == old(skippedTests) + [t] && !raised
                case Fails => failedTests == old(failedTests) + [t] && !raised
                case SystemExit => failedTests == old(failedTests) + [t] && !raised
                case Interrupted => raised
      ensures |passedTests| + |skippedTests| + |failedTests| + (if raised then 1 else 0)
           == |old(passedTests)| + |old(skippedTests)| + |old(failedTests)| + 1
    {
      stop, raised := false, false;
      match OutcomeOf(t, unskipped)
      case Interrupt =>
        raised := true;
      case Skipped =>
        skippedTests := skippedTests + [t];
      case Failed =>
        failedTests := failedTests + [t];
        stop := failFast;
      case Passed =>
        passedTests := passedTests + [t];
    }

    // The loops over modules and their tests.
    method RunModules(glob: Glob, modules: seq<Module>, ps: Patterns) returns (raised: bool)
      requires tests == [] && passedTests == [] && skippedTests == [] && failedTests == []
      modifies this
      ensures raised <==> !Uninterrupted(glob, ps, Selected(glob, ps, Listed(modules)))
      ensures Accounts(glob, ps, UntilInterrupt(glob, ps, Selected(glob, ps, Listed(modules))))
    {
      raised := false;
      ghost var all := Selected(glob, ps, Listed(modules));
      ghost var ran: seq<Test> := [];
      for i := 0 to |modules|
        invariant all == ran + Selected(glob, ps, Listed(modules[i..]))
        invariant Accounts(glob, ps, ran) && Uninterrupted(glob, ps, ran)
      {
        hide WithOutcome, UntilInterrupt, Uninterrupted, Selected;
        ghost var later := Listed(modules[i + 1..]);
        assert modules[i..][1..] == modules[i + 1..];
        if modules[i].tests.None? {
          assert [] + later == later;
          continue;
        }
        var listed := modules[i].tests.value;
        SelectedConcat(glob, ps, listed, later);
        ghost var next := ran + Selected(glob, ps, listed);
        assert all == next + Selected(glob, ps, later);
        raised := RunModule(glob, listed, ps, ran);
        if raised {
          StopsInPrefix(glob, ps, next, Selected(glob, ps, later));
          return;
        }
        NeverInterrupted(glob, ps, next);
        ran := next;
      }
      assert modules[|modules|..] == [];
      assert all == ran;
      NeverInterrupted(glob, ps, ran);
    }

    // One module's tests.  The value that RunTest returns is not looked at.
    method RunModule(glob: Glob, listed: seq<Test>, ps: Patterns, ghost before: seq<Test>) returns (raised: bool)
      requires Accounts(glob, ps, before) && Uninterrupted(glob, ps, before)
      modifies this
      ensures raised <==> !Uninterrupted(glob, ps, before + Selected(glob, ps, listed))
      ensures Accounts(glob, ps, UntilInterrupt(glob, ps, before + Selected(glob, ps, listed)))
    {
      hide WithOutcome, UntilInterrupt;
      raised := false;
      ghost var ran := before;
      for j := 0 to |listed|
        invariant Accounts(glob, ps, ran) && Uninterrupted(glob, ps, ran)
        invariant ran + Selected(glob, ps, listed[j..]) == before + Selected(glob, ps, listed)
      {
        var t := listed[j];
        assert listed[j..][1..] == listed[j + 1..];
        if !Chosen(glob, ps, t) {
          continue;
        }
        tests := tests + [t];
        var _, interrupted := RunTest(t, MatchesAny(glob, t.name, ps.unskipped));
        WithOutcomeSnoc(glob, ps, ran, t);
        if interrupted {
          InterruptedAt(glob, ps, ran, t, Selected(glob, ps, listed[j + 1..]));
          return true;
        }
        ran := ran + [t];
      }
      assert ran == before + Selected(glob, ps, listed);
      NeverInterrupted(glob, ps, ran);
    }
  }

  // run_tests, up to its messages.
  method RunTests(glob: Glob, modules: seq<Module>, ps: Patterns, failFast: bool) returns (run: TestRun, v: Verdict)
    ensures run.Accounts(glob, ps, UntilInterrupt(glob, ps, Selected(glob, ps, Listed(modules))))
    ensures v == VerdictOf(glob, ps, Selected(glob, ps, Listed(modules)))
    ensures VerdictFits(glob, ps, Selected(glob, ps, Listed(modules)), v)
  {
    VerdictIs(glob, ps, Selected(glob, ps, Listed(modules)));
    run := new TestRun(failFast);
    ghost var all := Selected(glob, ps, Listed(modules));
    var raised := run.RunModules(glob, modules, ps);
    if raised {
      return run, Stopped;
    }
    NeverInterrupted(glob, ps, all);
    FailuresListed(glob, ps, all);
    if |run.tests| == 0 {
      return run, NothingRan;
    }
    if |run.failedTests| != 0 {
      return run, SomeFailed(|run.failedTests|);
    }
    v := AllPassed;
  }

  // The verdict, from the outcomes alone.
  ghost function VerdictOf(glob: Glob, ps: Patterns, selected: seq<Test>): Verdict {
    if !Uninterrupted(glob, ps, selected) then Stopped
    else if selected == [] then NothingRan
    else if exists t :: t in selected && Classify(glob, ps, t) == Failed then
      SomeFailed(|WithOutcome(glob, ps, selected, Failed)|)
    else AllPassed
  }

  // ---------- outcomes and verdict, from the tests' own fields ----------

  // The test stops at its request to be skipped.
  ghost predicate StopsAtSkip(glob: Glob, ps: Patterns, t: Test) {
    t.asksToSkip && forall p :: p in ps.unskipped ==> !glob(t.name, p)
  }

  // It gets past any request and then raises an ordinary exception or SystemExit.
  ghost predicate Breaks(glob: Glob, ps: Patterns, t: Test) {
    !StopsAtSkip(glob, ps, t) && (t.ending.Fails? || t.ending.SystemExit?)
  }

  lemma OutcomeIs(glob: Glob, ps: Patterns, t: Test)
    ensures Classify(glob, ps, t) == Passed <==> !StopsAtSkip(glob, ps, t) && t.ending.Returns?
    ensures Classify(glob, ps, t) == Skipped <==> StopsAtSkip(glob, ps, t) || t.ending.Skips?
    ensures Classify(glob, ps, t) == Failed <==> Breaks(glob, ps, t)
    ensures Classify(glob, ps, t) == Interrupt <==> !StopsAtSkip(glob, ps, t) && t.ending.Interrupted?
  {}

  ghost function BrokenAt(glob: Glob, ps: Patterns, tests: seq<Test>): set<nat> {
    set i: nat | i < |tests| && Breaks(glob, ps, tests[i])
  }

  // The run is stopped if a selected test is interrupted; if none is selected,
  // nothing ran; otherwise it fails with the number of selected tests that
  // break, and passes if there are none.
  ghost predicate VerdictFits(glob: Glob, ps: Patterns, selected: seq<Test>, v: Verdict) {
    if exists t :: t in selected && !StopsAtSkip(glob, ps, t) && t.ending.Interrupted? then v == Stopped
    else if selected == [] then v == NothingRan
    else if forall t :: t in selected ==> !Breaks(glob, ps, t) then v == AllPassed
    else v == SomeFailed(|BrokenAt(glob, ps, selected)|)
  }

  lemma {:induction false} VerdictIs(glob: Glob, ps: Patterns, selected: seq<Test>)
    ensures VerdictFits(glob, ps, selected, VerdictOf(glob, ps, selected))
  {
    forall t: Test
      ensures Classify(glob, ps, t) == Failed <==> Breaks(glob, ps, t)
      ensures Classify(glob, ps, t) == Interrupt <==> !StopsAtSkip(glob, ps, t) && t.ending.Interrupted?
    {
      OutcomeIs(glob, ps, t);
    }
    BreaksCounted(glob, ps, selected);
  }

  lemma {:induction false} BreaksCounted(glob: Glob, ps: Patterns, tests: seq<Test>)
    ensures |WithOutcome(glob, ps, tests, Failed)| == |BrokenAt(glob, ps, tests)|
  {
    if tests != [] {
      var n := |tests| - 1;
      var (first, t) := (tests[..n], tests[n]);
      assert tests == first + [t];
      BreaksCounted(glob, ps, first);
      WithOutcomeSnoc(glob, ps, first, t);
      OutcomeIs(glob, ps, t);
      hide Breaks, Classify;
      assert BrokenAt(glob, ps, tests) == BrokenAt(glob, ps, first) + (if Breaks(glob, ps, t) then {n as nat} else {});
    }
  }

  // ---------- lemmas about the lists ----------

  ghost predicate Uninterrupted(glob: Glob, ps: Patterns, tests: seq<Test>) {
    forall t :: t in tests ==> Classify(glob, ps, t) != Interrupt
  }

  lemma {:induction false} SelectedConcat(glob: Glob, ps: Patterns, a: seq<Test>, b: seq<Test>)
    ensures Selected(glob, ps, a + b) == Selected(glob, ps, a) + Selected(glob, ps, b)
  {
    hide Chosen;
    if a == [] {
      assert a + b == b;
    } else {
      SelectedConcat(glob, ps, a[1..], b);
      assert (a + b)[1..] == a[1..] + b && (a + b)[0] == a[0];
      Associates(if Chosen(glob, ps, a[0]) then [a[0]] else [], Selected(glob, ps, a[1..]), Selected(glob, ps, b));
    }
  }

  lemma WithOutcomeSnoc(glob: Glob, ps: Patterns, tests: seq<Test>, t: Test)
    ensures forall o ::
      WithOutcome(glob, ps, tests + [t], o)
      == WithOutcome(glob, ps, tests, o) + (if Classify(glob, ps, t) == o then [t] else [])
  {
    if tests == [] {
      assert tests + [t] == [t] && [t][1..] == [];
    } else {
      WithOutcomeSnoc(glob, ps, tests[1..], t);
      assert (tests + [t])[1..] == tests[1..] + [t];
    }
  }

  lemma InterruptedAt(glob: Glob, ps: Patterns, ran: seq<Test>, t: Test, rest: seq<Test>)
    requires Uninterrupted(glob, ps, ran) && Classify(glob, ps, t) == Interrupt
    ensures UntilInterrupt(glob, ps, ran + ([t] + rest)) == ran + [t]
    ensures t in ran + ([t] + rest)
  {
    if ran == [] {
      assert ran + ([t] + rest) == [t] + rest;
    } else {
      InterruptedAt(glob, ps, ran[1..], t, rest);
      assert (ran + ([t] + rest))[1..] == ran[1..] + ([t] + rest);
    }
  }

  lemma StopsInPrefix(glob: Glob, ps: Patterns, a: seq<Test>, b: seq<Test>)
    requires !Uninterrupted(glob, ps, a)
    ensures UntilInterrupt(glob, ps, a + b) == UntilInterrupt(glob, ps, a)
    ensures !Uninterrupted(glob, ps, a + b)
  {
    var t :| t in a && Classify(glob, ps, t) == Interrupt;
    assert t in a + b;
    assert (a + b)[1..] == a[1..] + b;
    if Classify(glob, ps, a[0]) != Interrupt {
      assert a == [a[0]] + a[1..];
      StopsInPrefix(glob, ps, a[1..], b);
    }
  }

  lemma {:induction false} NeverInterrupted(glob: Glob, ps: Patterns, tests: seq<Test>)
    requires Uninterrupted(glob, ps, tests)
    ensures UntilInterrupt(glob, ps, tests) == tests
  {
    if tests != [] {
      NeverInterrupted(glob, ps, tests[1..]);
    }
  }

  lemma {:induction false} FailuresListed(glob: Glob, ps: Patterns, tests: seq<Test>)
    ensures WithOutcome(glob, ps, tests, Failed) != [] <==> exists t :: t in tests && Classify(glob, ps, t) == Failed
  {
    if tests != [] {
      FailuresListed(glob, ps, tests[1..]);
      assert tests == [tests[0]] + tests[1..];
    }
  }

  // ---------- accounting ----------

  // Where in tests the tests of one outcome stand.
  ghost function Positions(glob: Glob, ps: Patterns, tests: seq<Test>, o: Outcome): seq<nat> {
    if tests == [] then []
    else
      var n := |tests| - 1;
      Positions(glob, ps, tests[..n], o) + (if Classify(glob, ps, tests[n]) == o then [n] else [])
  }

  // listed are the tests at those positions, which increase strictly.
  ghost predicate Stands(at: seq<nat>, listed: seq<Test>, tests: seq<Test>) {
    && |at| == |listed|
    && (forall k :: 0 <= k < |at| ==> at[k] < |tests| && listed[k] == tests[at[k]])
    && (forall j, k :: 0 <= j < k < |at| ==> at[j] < at[k])
  }

  lemma StandsLonger(at: seq<nat>, listed: seq<Test>, tests: seq<Test>, t: Test)
    requires Stands(at, listed, tests)
    ensures Stands(at, listed, tests + [t]) && Stands(at + [|tests|], listed + [t], tests + [t])
  {}

  // Each list holds the tests of its outcome, in the order in which they ran,
  // each position once.
  lemma {:induction false} ListedByPosition(glob: Glob, ps: Patterns, tests: seq<Test>, o: Outcome)
    ensures Stands(Positions(glob, ps, tests, o), WithOutcome(glob, ps, tests, o), tests)
    ensures forall i: nat :: i in Positions(glob, ps, tests, o) <==> i < |tests| && Classify(glob, ps, tests[i]) == o
  {
    if tests != [] {
      var n := |tests| - 1;
      var (first, t) := (tests[..n], tests[n]);
      assert tests == first + [t];
      var (at, listed) := (Positions(glob, ps, first, o), WithOutcome(glob, ps, first, o));
      assert Positions(glob, ps, tests, o) == at + (if Classify(glob, ps, t) == o then [n] else []);
      hide *;
      ListedByPosition(glob, ps, first, o);
      WithOutcomeSnoc(glob, ps, first, t);
      StandsLonger(at, listed, first, t);
      assert forall i :: 0 <= i < n ==> tests[i] == first[i];
      if Classify(glob, ps, t) != o {
        assert listed + [] == listed && at + [] == at;
      } else {
        assert forall i: nat :: i in at + [n] <==> i in at || i == n;
      }
    }
  }

  // The three lists divide the tests of an uninterrupted run between them;
  // an interrupted run leaves its last test, and only that, in none of them.
  lemma {:induction false} ListsPartition(glob: Glob, ps: Patterns, selected: seq<Test>)
    ensures var ran := UntilInterrupt(glob, ps, selected);
            var stopped := !Uninterrupted(glob, ps, selected);
            && ran <= selected
            && (!stopped ==> ran == selected)
            && (stopped ==> ran != [] && Classify(glob, ps, ran[|ran| - 1]) == Interrupt)
            && (forall i :: 0 <= i < |ran| - (if stopped then 1 else 0) ==> Classify(glob, ps, ran[i]) != Interrupt)
            && multiset(WithOutcome(glob, ps, ran, Passed)) + multiset(WithOutcome(glob, ps, ran, Skipped))
               + multiset(WithOutcome(glob, ps, ran, Failed))
               == multiset(if stopped then ran[..|ran| - 1] else ran)
  {
    var ran := UntilInterrupt(glob, ps, selected);
    UntilInterruptIs(glob, ps, selected);
    hide UntilInterrupt, WithOutcome, Uninterrupted, Classify;
    if !Uninterrupted(glob, ps, selected) {
      var n := |ran| - 1;
      WithOutcomeSnoc(glob, ps, ran[..n], ran[n]);
      assert ran == ran[..n] + [ran[n]];
      UninterruptedPartition(glob, ps, ran[..n]);
    } else {
      UninterruptedPartition(glob, ps, ran);
    }
  }

  lemma {:induction false} UntilInterruptIs(glob: Glob, ps: Patterns, tests: seq<Test>)
    ensures var ran := UntilInterrupt(glob, ps, tests);
            var stopped := !Uninterrupted(glob, ps, tests);
            && ran <= tests
            && (!stopped ==> ran == tests)
            && (stopped ==> ran != [] && Classify(glob, ps, ran[|ran| - 1]) == Interrupt)
            && (forall i :: 0 <= i < |ran| - (if stopped then 1 else 0) ==> Classify(glob, ps, ran[i]) != Interrupt)
  {
    if tests != [] {
      hide Classify, Uninterrupted;
      assert tests == [tests[0]] + tests[1..];
      UntilInterruptIs(glob, ps, tests[1..]);
      UninterruptedFirst(glob, ps, tests);
    }
  }

  lemma UninterruptedFirst(glob: Glob, ps: Patterns, tests: seq<Test>)
    requires tests != []
    ensures Uninterrupted(glob, ps, tests) <==>
      Classify(glob, ps, tests[0]) != Interrupt && Uninterrupted(glob, ps, tests[1..])
  {
    assert tests == [tests[0]] + tests[1..];
  }

  lemma {:induction false} UninterruptedPartition(glob: Glob, ps: Patterns, tests: seq<Test>)
    requires forall i :: 0 <= i < |tests| ==> Classify(glob, ps, tests[i]) != Interrupt
    ensures multiset(WithOutcome(glob, ps, tests, Passed)) + multiset(WithOutcome(glob, ps, tests, Skipped))
            + multiset(WithOutcome(glob, ps, tests, Failed)) == multiset(tests)
  {
    if tests != [] {
      assert tests == [tests[0]] + tests[1..];
      UninterruptedPartition(glob, ps, tests[1..]);
    }
  }

  // Where in tests the chosen ones stand.
  ghost function ChosenPositions(glob: Glob, ps: Patterns, tests: seq<Test>): seq<nat> {
    if tests == [] then []
    else
      var n := |tests| - 1;
      ChosenPositions(glob, ps, tests[..n]) + (if Chosen(glob, ps, tests[n]) then [n] else [])
  }

  // Included by some pattern, excluded by none and, if disabled, enabled by some.
  ghost predicate ShouldRun(glob: Glob, ps: Patterns, t: Test) {
    && (exists p :: p in ps.included && glob(t.name, p))
    && (forall p :: p in ps.excluded ==> !glob(t.name, p))
    && (t.disabled ==> exists p :: p in ps.enabled && glob(t.name, p))
  }

  lemma ChosenIs(glob: Glob, ps: Patterns, t: Test)
    ensures Chosen(glob, ps, t) <==> ShouldRun(glob, ps, t)
  {}

  // Nothing is selected out of order, left out or selected twice.
  lemma {:induction false} SelectedAre(glob: Glob, ps: Patterns, tests: seq<Test>)
    ensures Stands(ChosenPositions(glob, ps, tests), Selected(glob, ps, tests), tests)
    ensures forall i: nat :: i in ChosenPositions(glob, ps, tests) <==> i < |tests| && ShouldRun(glob, ps, tests[i])
  {
    if tests != [] {
      hide Stands, Chosen, ShouldRun;
      var n := |tests| - 1;
      var (first, t) := (tests[..n], tests[n]);
      assert tests == first + [t];
      ChosenIs(glob, ps, t);
      SelectedAre(glob, ps, first);
      SelectedSnoc(glob, ps, first, t);
      hide Selected;
      StandsLonger(ChosenPositions(glob, ps, first), Selected(glob, ps, first), first, t);
      assert Selected(glob, ps, first) + [] == Selected(glob, ps, first);
      assert ChosenPositions(glob, ps, first) + [] == ChosenPositions(glob, ps, first);
    }
  }

  lemma SelectedSnoc(glob: Glob, ps: Patterns, tests: seq<Test>, t: Test)
    ensures Selected(glob, ps, tests + [t]) == Selected(glob, ps, tests) + (if Chosen(glob, ps, t) then [t] else [])
  {
    hide Chosen;
    SelectedConcat(glob, ps, tests, [t]);
    assert [t][1..] == [] && Selected(glob, ps, []) == [];
  }
}
