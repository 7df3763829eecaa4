// What nested timers promise over whole runs.
module TimerTheorems {
  import opened Common
  import opened Timers

  // ---------- a scope is timed out exactly when its own time is up ----------

  ghost predicate Known(h: Handler, next: nat) {
    h.Raise? ==> h.scope < next
  }

  ghost predicate Accounted(i: Ideal) {
    && Rooted(i.scopes)
    && (forall k :: 0 <= k < |i.scopes| && i.scopes[k].Timed? ==> Known(i.scopes[k].handler, i.next))
    && (forall j, k :: 0 <= j < k < |i.scopes| && i.scopes[j].Timed? && i.scopes[k].Timed? ==>
          i.scopes[j].handler != i.scopes[k].handler)
    && (forall h :: h in i.raised ==> Known(h, i.next))
    && (forall j, k :: 0 <= j < k < |i.raised| ==> i.raised[j] != i.raised[k])
    && (forall k :: 0 <= k < |i.scopes| && i.scopes[k].Timed? ==>
          (i.scopes[k].handler in i.raised <==> TimeIsUp(i.scopes[k])))
  }

  predicate TimeIsUp(s: Scope)
    requires s.Timed?
  {
    0.0 < s.timeout <= s.own
  }

  ghost predicate Open(i: Ideal, h: Handler) {
    exists k :: 0 <= k < |i.scopes| && i.scopes[k].Timed? && i.scopes[k].handler == h
  }

  ghost predicate OwnTimesCount(i: Ideal) {
    forall k :: 0 <= k < |i.scopes| && i.scopes[k].Timed? ==> i.scopes[k].own >= 0.0
  }

  lemma {:induction false} StepAccounted(i: Ideal, s: Step)
    requires Accounted(i) && OwnTimesCount(i) && Legal(i, s)
    ensures Accounted(StepIdeal(i, s)) && OwnTimesCount(StepIdeal(i, s))
    ensures forall h :: Known(h, i.next) && !Open(i, h) ==>
      !Open(StepIdeal(i, s), h) && (h in StepIdeal(i, s).raised <==> h in i.raised)
  {
    var i' := StepIdeal(i, s);
    if s.Tick? {
      var k := Innermost(i.scopes);
      var t := i.scopes[k];
      assert Open(i, t.handler);
      assert forall j :: 0 <= j < |i.scopes| && j != k ==> i'.scopes[j] == i.scopes[j];
      assert i'.scopes[k] == t.(own := t.own + s.d);
      if t.own < t.timeout <= t.own + s.d {
        assert t.handler !in i.raised;
        assert t.handler in i'.raised by { assert i'.raised[|i.raised|] == t.handler; }
      }
    } else {
      assert i'.raised == i.raised;
    }
  }

  // Over every run: each open timed scope's handler has been called if and
  // only if the scope's own time has reached its timeout; no handler is called
  // twice; and the handler of a scope that is no longer open is never called
  // again.
  lemma {:induction false} RaisedExactly(m: Machine, i: Ideal, steps: seq<Step>)
    requires Implements(m, i) && Accounted(i) && OwnTimesCount(i) && LegalRun(i, steps)
    ensures CanRun(m, steps)
    ensures var (m', i') := (RunMachine(m, steps), RunIdeal(i, steps));
            && m'.raised == i'.raised && Accounted(i') && OwnTimesCount(i')
            && forall h :: Known(h, i.next) && !Open(i, h) ==> (h in m'.raised <==> h in m.raised)
    decreases |steps|
  {
    RunImplements(m, i, steps);
    if steps != [] {
      var i1 := StepIdeal(i, steps[0]);
      StepAccounted(i, steps[0]);
      StepImplements(m, i, steps[0]);
      RaisedExactly(StepMachine(m, steps[0]), i1, steps[1..]);
      assert forall h :: Known(h, i.next) ==> Known(h, i1.next);
    }
  }

  // A process about to open its first timed scope, whatever alarm it has.
  function FirstMachine(p: Process): Machine {
    Machine(p, [], 0, [])
  }

  function FirstIdeal(p: Process): Ideal {
    Ideal(p.now, [Timed(p.handler, p.alarm, 0.0, p.now)], 0, [])
  }

  // Every run from there on: the alarm, the saved timeouts and the handlers
  // called are those of private timers, and each open scope has been timed out
  // exactly if its own time is up.
  lemma RunsFromTheStart(p: Process, steps: seq<Step>)
    requires p.alarm >= 0.0 && p.handler == Outside
    requires LegalRun(FirstIdeal(p), steps)
    ensures CanRun(FirstMachine(p), steps)
    ensures Implements(RunMachine(FirstMachine(p), steps), RunIdeal(FirstIdeal(p), steps))
    ensures Accounted(RunIdeal(FirstIdeal(p), steps))
  {
    RunImplements(FirstMachine(p), FirstIdeal(p), steps);
    RaisedExactly(FirstMachine(p), FirstIdeal(p), steps);
  }

  // ---------- the wall-clock bound ----------

  ghost function Timeouts(steps: seq<Step>): real {
    if steps == [] then 0.0 else TimeoutOf(steps[0]) + Timeouts(steps[1..])
  }

  function LeftOf(s: Scope): real {
    if s.Timed? then Remaining(s) else 0.0
  }

  // The time left to all open scopes but the outside.
  ghost function Left(scopes: seq<Scope>): (r: real)
    ensures r >= 0.0
  {
    if |scopes| <= 1 then 0.0 else Left(scopes[..|scopes| - 1]) + LeftOf(scopes[|scopes| - 1])
  }

  // All time passes inside timed scopes, none of which goes on after its alarm.
  ghost predicate Obedient(i: Ideal, steps: seq<Step>)
    requires LegalRun(i, steps)
    decreases |steps|
  {
    steps != [] ==>
      && ObedientStep(i, steps[0])
      && Obedient(StepIdeal(i, steps[0]), steps[1..])
  }

  lemma {:induction false} LeftAfterTick(scopes: seq<Scope>, k: nat, d: real)
    requires 0 < k < |scopes| && scopes[k].Timed?
    requires d > 0.0 && scopes[k].own + d <= scopes[k].timeout
    ensures Left(scopes[k := scopes[k].(own := scopes[k].own + d)]) == Left(scopes) - d
  {
    var after := scopes[k := scopes[k].(own := scopes[k].own + d)];
    var n := |scopes| - 1;
    if k == n {
      assert after[..n] == scopes[..n];
    } else {
      LeftAfterTick(scopes[..n], k, d);
      assert after[..n] == scopes[..n][k := scopes[k].(own := scopes[k].own + d)];
    }
  }

  function TimeoutOf(s: Step): real {
    if s.Enter? && s.timeout.Some? then s.timeout.value else 0.0
  }

  ghost predicate ObedientStep(i: Ideal, s: Step)
    requires Rooted(i.scopes)
  {
    s.Tick? ==>
      var k := Innermost(i.scopes);
      k > 0 && i.scopes[k].own + s.d <= i.scopes[k].timeout
  }

  lemma {:induction false} LeftAfterEnter(i: Ideal, s: Step)
    requires Rooted(i.scopes) && Legal(i, s) && s.Enter?
    ensures Left(StepIdeal(i, s).scopes) == Left(i.scopes) + TimeoutOf(s)
  {
    assert StepIdeal(i, s).scopes[..|i.scopes|] == i.scopes;
  }

  lemma {:induction false} LeftAfterExit(i: Ideal, s: Step)
    requires Rooted(i.scopes) && Legal(i, s) && s.Exit?
    ensures Left(StepIdeal(i, s).scopes) <= Left(i.scopes)
  {}

  // One step spends no more than it is given.
  lemma {:induction false} StepBound(i: Ideal, s: Step)
    requires Rooted(i.scopes) && Legal(i, s) && ObedientStep(i, s)
    ensures StepIdeal(i, s).now - i.now + Left(StepIdeal(i, s).scopes) <= TimeoutOf(s) + Left(i.scopes)
  {
    hide Left;
    match s
    case Enter(_) => LeftAfterEnter(i, s);
    case Exit => LeftAfterExit(i, s);
    case Tick(d) => LeftAfterTick(i.scopes, Innermost(i.scopes), d);
  }

  // However its scopes nest, a run whose timed scopes all stop when told to
  // takes no longer than the sum of their timeouts.
  lemma {:induction false} WallTimeBound(i: Ideal, steps: seq<Step>)
    requires LegalRun(i, steps) && Obedient(i, steps)
    ensures RunIdeal(i, steps).now - i.now + Left(RunIdeal(i, steps).scopes) <= Timeouts(steps) + Left(i.scopes)
    decreases |steps|
  {
    if steps != [] {
      hide StepIdeal, Left, TimeoutOf, ObedientStep, Legal, Rooted;
      StepBound(i, steps[0]);
      WallTimeBound(StepIdeal(i, steps[0]), steps[1..]);
    }
  }

  lemma WallTimeOfMachine(m: Machine, i: Ideal, steps: seq<Step>)
    requires Implements(m, i) && |i.scopes| == 1 && LegalRun(i, steps) && Obedient(i, steps)
    ensures CanRun(m, steps) && RunMachine(m, steps).p.now - m.p.now <= Timeouts(steps)
  {
    RunImplements(m, i, steps);
    WallTimeBound(i, steps);
  }

  // ---------- leaving a scope restores alarm and handler ----------

  // No state on the way has fewer than depth scopes.
  ghost predicate StaysWithin(i: Ideal, steps: seq<Step>, depth: nat)
    requires LegalRun(i, steps)
    decreases |steps|
  {
    |i.scopes| >= depth && (steps != [] ==> StaysWithin(StepIdeal(i, steps[0]), steps[1..], depth))
  }

  lemma {:induction false} OuterKept(i: Ideal, steps: seq<Step>, k: nat)
    requires LegalRun(i, steps) && StaysWithin(i, steps, k + 1)
    requires i.scopes[k].Timed?
    ensures var i' := RunIdeal(i, steps);
            |i'.scopes| > k && i'.scopes[k].Timed? && i'.scopes[..k] == i.scopes[..k]
    decreases |steps|
  {
    if steps != [] {
      var i1 := StepIdeal(i, steps[0]);
      assert i1.scopes[k].Timed? && i1.scopes[..k] == i.scopes[..k];
      OuterKept(i1, steps[1..], k);
    }
  }

  lemma {:induction false} RunConcat(i: Ideal, a: seq<Step>, b: seq<Step>)
    requires LegalRun(i, a) && LegalRun(RunIdeal(i, a), b)
    ensures LegalRun(i, a + b) && RunIdeal(i, a + b) == RunIdeal(RunIdeal(i, a), b)
    decreases |a|
  {
    if a == [] {
      assert a + b == b;
    } else {
      hide StepIdeal, Legal, Rooted;
      var i1 := StepIdeal(i, a[0]);
      RunConcat(i1, a[1..], b);
      RunFirst(i, a + b, a[0], a[1..] + b);
      RunFirst(i, a, a[0], a[1..]);
    }
  }

  lemma RunFirst(i: Ideal, steps: seq<Step>, s: Step, rest: seq<Step>)
    requires steps == [s] + rest && Rooted(i.scopes) && Legal(i, s)
    ensures LegalRun(i, steps) <==> LegalRun(StepIdeal(i, s), rest)
    ensures LegalRun(i, steps) ==> RunIdeal(i, steps) == RunIdeal(StepIdeal(i, s), rest)
  {
    hide StepIdeal, Legal;
    assert steps[0] == s && steps[1..] == rest;
  }

  // Whatever happens inside a timed scope, leaving it gives the interrupted
  // scope its handler and the alarm it had when it was interrupted.
  lemma ScopeRestores(m: Machine, i: Ideal, timeout: real, body: seq<Step>)
    requires Implements(m, i) && timeout >= 0.0
    requires var i1 := StepIdeal(i, Enter(Some(timeout)));
             && LegalRun(i1, body) && StaysWithin(i1, body, |i.scopes| + 1)
             && |RunIdeal(i1, body).scopes| == |i.scopes| + 1
             && Legal(RunIdeal(i1, body), Exit)
    ensures var steps := [Enter(Some(timeout))] + body + [Exit];
            && CanRun(m, steps)
            && RunMachine(m, steps).p.alarm == m.p.alarm
            && RunMachine(m, steps).p.handler == m.p.handler
            && RunMachine(m, steps).scopes == m.scopes
  {
    var steps := [Enter(Some(timeout))] + body + [Exit];
    ScopeRun(i, timeout, body);
    hide StepIdeal, LegalRun, RunIdeal, Implements, StaysWithin;
    RunImplements(m, i, steps);
    SavedAreDetermined(m, i, RunMachine(m, steps), RunIdeal(i, steps));
  }

  // The ideal run of a scope ends with the scopes it started with.
  lemma ScopeRun(i: Ideal, timeout: real, body: seq<Step>)
    requires Rooted(i.scopes) && timeout >= 0.0
    requires var i1 := StepIdeal(i, Enter(Some(timeout)));
             && LegalRun(i1, body) && StaysWithin(i1, body, |i.scopes| + 1)
             && |RunIdeal(i1, body).scopes| == |i.scopes| + 1
             && Legal(RunIdeal(i1, body), Exit)
    ensures var steps := [Enter(Some(timeout))] + body + [Exit];
            LegalRun(i, steps) && RunIdeal(i, steps).scopes == i.scopes
  {
    var enter := Enter(Some(timeout));
    var i1 := StepIdeal(i, enter);
    var i2 := RunIdeal(i1, body);
    OuterKept(i1, body, |i.scopes|);
    OneStep(i2, Exit);
    RunConcat(i1, body, [Exit]);
    assert ([enter] + body + [Exit])[1..] == body + [Exit];
  }

  lemma OneStep(i: Ideal, s: Step)
    requires Rooted(i.scopes) && Legal(i, s)
    ensures LegalRun(i, [s]) && RunIdeal(i, [s]) == StepIdeal(i, s)
  {
    assert [s][1..] == [];
    assert Rooted(StepIdeal(i, s).scopes);
  }

  // The open scopes and what came before determine every saved field.
  lemma {:induction false} SavedAreDetermined(m: Machine, i: Ideal, m': Machine, i': Ideal)
    requires Implements(m, i) && Implements(m', i') && i.scopes == i'.scopes
    ensures m.p.alarm == m'.p.alarm && m.p.handler == m'.p.handler && m.scopes == m'.scopes
  {
    forall k | 0 <= k < |m.scopes| ensures m.scopes[k] == m'.scopes[k] {
      assert SavesOuter(m.scopes[k], i.scopes, k) && SavesOuter(m'.scopes[k], i.scopes, k);
    }
  }
}
