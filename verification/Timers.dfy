// Timer: nested timed scopes that share the process's one interval timer and
// one SIGALRM handler.
//
// The process state is a value, so that whole runs can be reasoned about; the
// classes in TimerObjects do to it, in place, what the functions here say.
module Timers {
  import opened Common

  // Whose raise_timeout answers SIGALRM.
  datatype Handler = Outside | Raise(scope: nat)

  // alarm is the time left on the interval timer; 0.0 when it is not set.
  datatype Process = Process(now: real, alarm: real, handler: Handler)

  // What a Timer object remembers from start to stop.
  datatype Saved = Plain | Suspended(prevHandler: Handler, prevTimeout: real, suspendTime: real)

  function Start(p: Process, scope: nat, timeout: Option<real>): (Process, Saved) {
    match timeout
    case None => (p, Plain)
    case Some(t) => (p.(alarm := t, handler := Raise(scope)), Suspended(p.handler, p.alarm, p.now))
  }

  // stop() asserts that time has passed since start().
  predicate MayStop(p: Process, saved: Saved) {
    saved.Suspended? ==> p.now - saved.suspendTime > 0.0
  }

  function Stop(p: Process, saved: Saved): Process {
    match saved
    case Plain => p
    case Suspended(h, t, _) => p.(alarm := t, handler := h)
  }

  predicate Expires(p: Process, d: real) {
    0.0 < p.alarm <= d
  }

  function Elapse(p: Process, d: real): Process {
    p.(now := p.now + d, alarm := if p.alarm <= d then 0.0 else p.alarm - d)
  }

  // ---------- runs ----------

  // Entering and leaving scopes in any well-nested order covers every way a
  // body can go: returns, exceptions that unwind several scopes, handlers that
  // continue.
  datatype Step = Enter(timeout: Option<real>) | Exit | Tick(d: real)

  // The implementation: one alarm, one handler, a Timer per open scope.
  // raised lists the handlers that SIGALRM has called.
  datatype Machine = Machine(p: Process, scopes: seq<Saved>, next: nat, raised: seq<Handler>)

  function StepMachine(m: Machine, s: Step): Machine
    requires s.Exit? ==> m.scopes != []
  {
    match s
    case Enter(timeout) =>
      var (p, saved) := Start(m.p, m.next, timeout);
      m.(p := p, scopes := m.scopes + [saved], next := m.next + 1)
    case Exit =>
      m.(p := Stop(m.p, m.scopes[|m.scopes| - 1]), scopes := m.scopes[..|m.scopes| - 1])
    case Tick(d) =>
      m.(p := Elapse(m.p, d), raised := if Expires(m.p, d) then m.raised + [m.p.handler] else m.raised)
  }

  // ---------- the ideal ----------

  // Every timed scope has a clock of its own, which runs only while no timed
  // scope is open inside it.  own is the time on it.
  datatype Scope = Untimed | Timed(handler: Handler, timeout: real, own: real, since: real)

  // scopes[0] stands for whatever had set the alarm before.
  datatype Ideal = Ideal(now: real, scopes: seq<Scope>, next: nat, raised: seq<Handler>)

  ghost predicate Rooted(scopes: seq<Scope>) {
    scopes != [] && scopes[0].Timed?
  }

  // The innermost timed scope.
  function Innermost(scopes: seq<Scope>): (k: nat)
    requires Rooted(scopes)
    ensures k < |scopes| && scopes[k].Timed? && forall j :: k < j < |scopes| ==> scopes[j].Untimed?
  {
    if scopes[|scopes| - 1].Timed? then |scopes| - 1 else Innermost(scopes[..|scopes| - 1])
  }

  predicate Legal(i: Ideal, s: Step) {
    match s
    case Enter(timeout) => timeout.Some? ==> timeout.value >= 0.0
    case Exit => |i.scopes| > 1 && (i.scopes[|i.scopes| - 1].Timed? ==> i.now > i.scopes[|i.scopes| - 1].since)
    case Tick(d) => d > 0.0
  }

  function StepIdeal(i: Ideal, s: Step): Ideal
    requires Rooted(i.scopes) && Legal(i, s)
  {
    match s
    case Enter(timeout) =>
      var scope := if timeout.None? then Untimed else Timed(Raise(i.next), timeout.value, 0.0, i.now);
      i.(scopes := i.scopes + [scope], next := i.next + 1)
    case Exit =>
      i.(scopes := i.scopes[..|i.scopes| - 1])
    case Tick(d) =>
      var k := Innermost(i.scopes);
      var t := i.scopes[k];
      i.(now := i.now + d,
         scopes := i.scopes[k := t.(own := t.own + d)],
         raised := if t.own < t.timeout <= t.own + d then i.raised + [t.handler] else i.raised)
  }

  ghost predicate LegalRun(i: Ideal, steps: seq<Step>)
    decreases |steps|
  {
    Rooted(i.scopes) && (steps != [] ==> Legal(i, steps[0]) && LegalRun(StepIdeal(i, steps[0]), steps[1..]))
  }

  ghost function RunIdeal(i: Ideal, steps: seq<Step>): Ideal
    requires LegalRun(i, steps)
    decreases |steps|
  {
    if steps == [] then i else RunIdeal(StepIdeal(i, steps[0]), steps[1..])
  }

  ghost predicate CanRun(m: Machine, steps: seq<Step>)
    decreases |steps|
  {
    steps != [] ==>
      && (steps[0].Exit? ==> m.scopes != [] && MayStop(m.p, m.scopes[|m.scopes| - 1]))
      && CanRun(StepMachine(m, steps[0]), steps[1..])
  }

  ghost function RunMachine(m: Machine, steps: seq<Step>): Machine
    requires CanRun(m, steps)
    decreases |steps|
  {
    if steps == [] then m else RunMachine(StepMachine(m, steps[0]), steps[1..])
  }

  // ---------- the machine implements the ideal ----------

  function Remaining(s: Scope): real
    requires s.Timed?
  {
    if s.timeout <= s.own then 0.0 else s.timeout - s.own
  }

  // The alarm shows what is left of the innermost timed scope, and each saved
  // timeout what is left of the scope it interrupted.
  ghost predicate Implements(m: Machine, i: Ideal) {
    && Rooted(i.scopes)
    && m.p.now == i.now && m.next == i.next && m.raised == i.raised
    && ShowsInnermost(m.p.alarm, m.p.handler, i.scopes)
    && |i.scopes| == |m.scopes| + 1
    && forall k :: 0 <= k < |m.scopes| ==> SavesOuter(m.scopes[k], i.scopes, k)
  }

  ghost predicate ShowsInnermost(alarm: real, handler: Handler, scopes: seq<Scope>)
    requires Rooted(scopes)
  {
    var t := scopes[Innermost(scopes)];
    alarm == Remaining(t) && handler == t.handler
  }

  ghost predicate SavesOuter(s: Saved, scopes: seq<Scope>, k: nat)
    requires Rooted(scopes) && k + 1 < |scopes|
  {
    match s
    case Plain => scopes[k + 1].Untimed?
    case Suspended(h, t, since) =>
      scopes[k + 1].Timed? && scopes[k + 1].since == since && ShowsInnermost(t, h, scopes[..k + 1])
  }

  lemma InnermostUnique(scopes: seq<Scope>, k: nat)
    requires Rooted(scopes) && k < |scopes| && scopes[k].Timed?
    requires forall j :: k < j < |scopes| ==> scopes[j].Untimed?
    ensures Innermost(scopes) == k
  {}

  lemma {:induction false} EnterImplements(m: Machine, i: Ideal, s: Step)
    requires Implements(m, i) && Legal(i, s) && s.Enter?
    ensures Implements(StepMachine(m, s), StepIdeal(i, s))
  {
    hide ShowsInnermost;
    var n := |m.scopes|;
    var m', i' := StepMachine(m, s), StepIdeal(i, s);
    assert i'.scopes[..n + 1] == i.scopes;
    forall k | 0 <= k < n ensures SavesOuter(m'.scopes[k], i'.scopes, k) {
      assert SavesOuter(m.scopes[k], i.scopes, k);
      assert i'.scopes[..k + 1] == i.scopes[..k + 1];
    }
    assert ShowsInnermost(m'.p.alarm, m'.p.handler, i'.scopes) by {
      EnterShows(m, i, s);
    }
  }

  lemma {:induction false} EnterShows(m: Machine, i: Ideal, s: Step)
    requires Rooted(i.scopes) && m.next == i.next && ShowsInnermost(m.p.alarm, m.p.handler, i.scopes)
    requires Legal(i, s) && s.Enter?
    ensures ShowsInnermost(StepMachine(m, s).p.alarm, StepMachine(m, s).p.handler, StepIdeal(i, s).scopes)
  {
    if s.timeout.None? {
      InnermostUnique(StepIdeal(i, s).scopes, Innermost(i.scopes));
    } else {
      InnermostUnique(StepIdeal(i, s).scopes, |i.scopes|);
    }
  }

  lemma ExitImplements(m: Machine, i: Ideal, s: Step)
    requires Implements(m, i) && Legal(i, s) && s.Exit?
    ensures m.scopes != [] && MayStop(m.p, m.scopes[|m.scopes| - 1])
    ensures Implements(StepMachine(m, s), StepIdeal(i, s))
  {
    var n := |m.scopes|;
    var m', i' := StepMachine(m, s), StepIdeal(i, s);
    assert SavesOuter(m.scopes[n - 1], i.scopes, n - 1);
    if m.scopes[n - 1].Plain? {
      InnermostUnique(i'.scopes, Innermost(i.scopes));
    }
    forall k | 0 <= k < n - 1 ensures SavesOuter(m'.scopes[k], i'.scopes, k) {
      assert SavesOuter(m.scopes[k], i.scopes, k);
      assert i'.scopes[..k + 1] == i.scopes[..k + 1];
    }
  }

  lemma TickImplements(m: Machine, i: Ideal, s: Step)
    requires Implements(m, i) && Legal(i, s) && s.Tick?
    ensures Implements(StepMachine(m, s), StepIdeal(i, s))
  {
    hide ShowsInnermost;
    var m', i' := StepMachine(m, s), StepIdeal(i, s);
    var j := Innermost(i.scopes);
    forall k | 0 <= k < |m.scopes| ensures SavesOuter(m'.scopes[k], i'.scopes, k) {
      assert SavesOuter(m.scopes[k], i.scopes, k);
      if k < j {
        assert i'.scopes[..k + 1] == i.scopes[..k + 1];
      }
    }
    TickShows(m, i, s);
  }

  lemma TickShows(m: Machine, i: Ideal, s: Step)
    requires Rooted(i.scopes) && m.raised == i.raised && ShowsInnermost(m.p.alarm, m.p.handler, i.scopes)
    requires Legal(i, s) && s.Tick?
    ensures var m', i' := StepMachine(m, s), StepIdeal(i, s);
            Rooted(i'.scopes) && ShowsInnermost(m'.p.alarm, m'.p.handler, i'.scopes) && m'.raised == i'.raised
  {
    InnermostUnique(StepIdeal(i, s).scopes, Innermost(i.scopes));
  }

  lemma {:induction false} StepImplements(m: Machine, i: Ideal, s: Step)
    requires Implements(m, i) && Legal(i, s)
    ensures s.Exit? ==> m.scopes != [] && MayStop(m.p, m.scopes[|m.scopes| - 1])
    ensures Implements(StepMachine(m, s), StepIdeal(i, s))
  {
    match s
    case Enter(_) => EnterImplements(m, i, s);
    case Exit => ExitImplements(m, i, s);
    case Tick(_) => TickImplements(m, i, s);
  }

  // The two clocks of every run agree: whatever the nesting, the single alarm
  // behaves as if each timed scope had a timer of its own.
  lemma {:induction false} RunImplements(m: Machine, i: Ideal, steps: seq<Step>)
    requires Implements(m, i) && LegalRun(i, steps)
    ensures CanRun(m, steps) && Implements(RunMachine(m, steps), RunIdeal(i, steps))
    decreases |steps|
  {
    if steps != [] {
      StepImplements(m, i, steps[0]);
      RunImplements(StepMachine(m, steps[0]), StepIdeal(i, steps[0]), steps[1..]);
    }
  }
}
