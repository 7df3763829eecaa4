// Logging thresholds and outputs, and the scopes that set and restore them.
module Logging {
  // Indices into the list of levels: debug, info, notice, warn, error, disabled.
  type Level = l: nat | l <= DISABLED
  const INFO: Level := 1
  const DISABLED: nat := 5

  datatype Output = Stderr | Stream(id: nat)

  datatype Text = Said(text: string) | Enabling(level: Level, output: Output) | Disabling

  datatype Delivery = Delivery(to: Output, level: Level, text: Text)

  // The two module-level variables.
  datatype Settings = Settings(threshold: Level, output: Output)

  function Deliver(s: Settings, level: Level, text: Text): seq<Delivery> {
    if s.threshold <= level then [Delivery(s.output, level, text)] else []
  }

  // Both announce themselves under the settings they are about to change.
  // Only enabling sets the output.
  function Enabled(s: Settings, level: Level, output: Output): (Settings, seq<Delivery>) {
    (Settings(level, output), Deliver(s, INFO, Enabling(level, output)))
  }

  function Disabled(s: Settings): (Settings, seq<Delivery>) {
    (s.(threshold := DISABLED), Deliver(s, INFO, Disabling))
  }

  function Switched(s: Settings, level: Level, output: Output): (Settings, seq<Delivery>) {
    if level == DISABLED then Disabled(s) else Enabled(s, level, output)
  }

  // ---------- in place ----------

  class Logger {
    var threshold: Level
    var output: Output
    ghost var delivered: seq<Delivery>

    ghost function Now(): Settings
      reads this
    {
      Settings(threshold, output)
    }

    method Log(level: Level, text: Text)
      modifies this`delivered
      ensures delivered == old(delivered) + Deliver(Now(), level, text)
      ensures level < threshold ==> delivered == old(delivered)
      ensures level >= threshold ==> delivered == old(delivered) + [Delivery(output, level, text)]
    {
      if threshold <= level {
        PrintMessage(level, text);
      }
    }

    method PrintMessage(level: Level, text: Text)
      modifies this`delivered
      ensures delivered == old(delivered) + [Delivery(output, level, text)]
    {
      delivered := delivered + [Delivery(output, level, text)];
    }

    method EnableLogging(level: Level, to: Output)
      modifies this
      ensures Now() == Enabled(old(Now()), level, to).0
      ensures delivered == old(delivered) + Enabled(old(Now()), level, to).1
      ensures threshold == level && output == to
      ensures old(threshold) <= 1 ==> delivered == old(delivered) + [Delivery(old(output), 1, Enabling(level, to))]
      ensures old(threshold) > 1 ==> delivered == old(delivered)
    {
      Log(INFO, Enabling(level, to));
      threshold := level;
      output := to;
    }

    method DisableLogging()
      modifies this
      ensures Now() == Disabled(old(Now())).0
      ensures delivered == old(delivered) + Disabled(old(Now())).1
      ensures threshold == 5 && output == old(output)
      ensures old(threshold) <= 1 ==> delivered == old(delivered) + [Delivery(output, 1, Disabling)]
      ensures old(threshold) > 1 ==> delivered == old(delivered)
    {
      Log(INFO, Disabling);
      threshold := DISABLED;
    }
  }

  class LoggingEnabled {
    const level: Level
    const output: Output
    var prevLevel: Level
    var prevOutput: Output

    constructor (level: Level, output: Output)
      ensures this.level == level && this.output == output
    {
      this.level, this.output := level, output;
      prevLevel, prevOutput := DISABLED, Stderr;
    }

    method EnterScope(log: Logger)
      modifies this, log
      ensures Settings(prevLevel, prevOutput) == old(log.Now())
      ensures log.Now() == Switched(old(log.Now()), level, output).0
      ensures log.delivered == old(log.delivered) + Switched(old(log.Now()), level, output).1
      ensures log.threshold == level && log.output == if level == 5 then old(log.output) else output
    {
      prevLevel, prevOutput := log.threshold, log.output;
      if level == DISABLED {
        log.DisableLogging();
      } else {
        log.EnableLogging(level, output);
      }
    }

    method ExitScope(log: Logger)
      modifies log
      ensures log.Now() == Switched(old(log.Now()), prevLevel, prevOutput).0
      ensures log.delivered == old(log.delivered) + Switched(old(log.Now()), prevLevel, prevOutput).1
      ensures log.threshold == prevLevel && log.output == if prevLevel == 5 then old(log.output) else prevOutput
    {
      if prevLevel == DISABLED {
        log.DisableLogging();
      } else {
        log.EnableLogging(prevLevel, prevOutput);
      }
    }
  }

  // ---------- runs ----------

  // Any well-nested order of entering, leaving and logging.
  datatype Step = Enter(level: Level, output: Output) | Exit | Message(level: Level, text: string)

  // What the scopes and the settings above do; saved holds what each open
  // scope found.
  datatype Machine = Machine(now: Settings, saved: seq<Settings>, delivered: seq<Delivery>)

  function StepMachine(m: Machine, s: Step): Machine
    requires s.Exit? ==> m.saved != []
  {
    match s
    case Enter(level, output) =>
      var (now, said) := Switched(m.now, level, output);
      Machine(now, m.saved + [m.now], m.delivered + said)
    case Exit =>
      var last := m.saved[|m.saved| - 1];
      var (now, said) := Switched(m.now, last.threshold, last.output);
      Machine(now, m.saved[..|m.saved| - 1], m.delivered + said)
    case Message(level, text) =>
      m.(delivered := m.delivered + Deliver(m.now, level, Said(text)))
  }

  // An ideal logger: each scope has settings of its own, and leaving it brings
  // back both the threshold and the output of the scope around it.
  datatype Ideal = Ideal(scopes: seq<Settings>, delivered: seq<Delivery>)

  function Top(i: Ideal): Settings
    requires i.scopes != []
  {
    i.scopes[|i.scopes| - 1]
  }

  function Announce(s: Settings, next: Settings): seq<Delivery> {
    Deliver(s, INFO, if next.threshold == DISABLED then Disabling else Enabling(next.threshold, next.output))
  }

  function StepIdeal(i: Ideal, s: Step): Ideal
    requires i.scopes != [] && (s.Exit? ==> |i.scopes| > 1)
  {
    match s
    case Enter(level, output) =>
      var next := Settings(level, if level == DISABLED then Top(i).output else output);
      Ideal(i.scopes + [next], i.delivered + Announce(Top(i), next))
    case Exit =>
      Ideal(i.scopes[..|i.scopes| - 1], i.delivered + Announce(Top(i), i.scopes[|i.scopes| - 2]))
    case Message(level, text) =>
      i.(delivered := i.delivered + Deliver(Top(i), level, Said(text)))
  }

  predicate CanStep(depth: nat, s: Step) {
    s.Exit? ==> depth > 0
  }

  function DepthAfter(depth: nat, s: Step): nat
    requires CanStep(depth, s)
  {
    match s
    case Enter(_, _) => depth + 1
    case Exit => depth - 1
    case Message(_, _) => depth
  }

  ghost predicate Nested(depth: nat, steps: seq<Step>)
    decreases |steps|
  {
    steps != [] ==> CanStep(depth, steps[0]) && Nested(DepthAfter(depth, steps[0]), steps[1..])
  }

  ghost function RunMachine(m: Machine, steps: seq<Step>): Machine
    requires Nested(|m.saved|, steps)
    decreases |steps|
  {
    if steps == [] then m else RunMachine(StepMachine(m, steps[0]), steps[1..])
  }

  ghost function RunIdeal(i: Ideal, steps: seq<Step>): Ideal
    requires i.scopes != [] && Nested(|i.scopes| - 1, steps)
    decreases |steps|
  {
    if steps == [] then i else RunIdeal(StepIdeal(i, steps[0]), steps[1..])
  }

  // ---------- refinement ----------

  // Equal thresholds, and equal outputs unless logging is disabled.
  predicate Alike(a: Settings, b: Settings) {
    a.threshold == b.threshold && (a.threshold != DISABLED ==> a.output == b.output)
  }

  ghost predicate Implements(m: Machine, i: Ideal) {
    && |i.scopes| == |m.saved| + 1
    && Alike(m.now, Top(i))
    && (forall k :: 0 <= k < |m.saved| ==> Alike(m.saved[k], i.scopes[k]))
    && m.delivered == i.delivered
  }

  lemma {:induction false} StepImplements(m: Machine, i: Ideal, s: Step)
    requires Implements(m, i) && CanStep(|m.saved|, s)
    requires s.Message? ==> s.level < DISABLED
    ensures Implements(StepMachine(m, s), StepIdeal(i, s))
  {
    if s.Exit? {
      assert Alike(m.saved[|m.saved| - 1], i.scopes[|m.saved| - 1]);
    }
  }

  // Whatever the nesting, messages below the level "disabled" reach the same
  // outputs in the same order as with the ideal logger.
  lemma {:induction false} SameDeliveries(m: Machine, i: Ideal, steps: seq<Step>)
    requires Implements(m, i) && Nested(|m.saved|, steps)
    requires forall k :: 0 <= k < |steps| && steps[k].Message? ==> steps[k].level < DISABLED
    ensures Implements(RunMachine(m, steps), RunIdeal(i, steps))
    ensures RunMachine(m, steps).delivered == RunIdeal(i, steps).delivered
    decreases |steps|
  {
    if steps != [] {
      assert steps[0].Message? ==> steps[0].level < DISABLED;
      StepImplements(m, i, steps[0]);
      SameDeliveries(StepMachine(m, steps[0]), StepIdeal(i, steps[0]), steps[1..]);
    }
  }

  // So from any settings on, the two loggers cannot be told apart by them.
  lemma SameFromTheStart(start: Settings, steps: seq<Step>)
    requires Nested(0, steps)
    requires forall k :: 0 <= k < |steps| && steps[k].Message? ==> steps[k].level < DISABLED
    ensures RunMachine(Machine(start, [], []), steps).delivered == RunIdeal(Ideal([start], []), steps).delivered
  {
    SameDeliveries(Machine(start, [], []), Ideal([start], []), steps);
  }

  // ---------- messages at the level "disabled" ----------

  // Read off the steps alone.  scopes are the settings that the open scopes ask
  // for; live is the output set last, which leaving into a disabled scope does
  // not bring back.
  function ScopesAfter(scopes: seq<Settings>, s: Step): seq<Settings>
    requires scopes != [] && (s.Exit? ==> |scopes| > 1)
  {
    match s
    case Enter(level, output) =>
      scopes + [Settings(level, if level == DISABLED then scopes[|scopes| - 1].output else output)]
    case Exit => scopes[..|scopes| - 1]
    case Message(_, _) => scopes
  }

  function LiveAfter(scopes: seq<Settings>, live: Output, s: Step): Output
    requires scopes != [] && (s.Exit? ==> |scopes| > 1)
  {
    match s
    case Enter(level, output) => if level == DISABLED then live else output
    case Exit =>
      var outer := scopes[|scopes| - 2];
      if outer.threshold == DISABLED then live else outer.output
    case Message(_, _) => live
  }

  // Some message at the level "disabled" is sent while the live output is not
  // that of the innermost scope.
  ghost predicate Astray(scopes: seq<Settings>, live: Output, steps: seq<Step>)
    requires scopes != [] && Nested(|scopes| - 1, steps)
    decreases |steps|
  {
    steps != [] &&
    ((steps[0].Message? && steps[0].level == DISABLED && live != scopes[|scopes| - 1].output)
     || Astray(ScopesAfter(scopes, steps[0]), LiveAfter(scopes, live, steps[0]), steps[1..]))
  }

  // The relation without the deliveries.
  ghost predicate SettingsMatch(m: Machine, i: Ideal) {
    && |i.scopes| == |m.saved| + 1
    && Alike(m.now, Top(i))
    && (forall k :: 0 <= k < |m.saved| ==> Alike(m.saved[k], i.scopes[k]))
  }

  lemma StepMatches(m: Machine, i: Ideal, s: Step)
    requires SettingsMatch(m, i) && CanStep(|m.saved|, s)
    ensures SettingsMatch(StepMachine(m, s), StepIdeal(i, s))
    ensures StepIdeal(i, s).scopes == ScopesAfter(i.scopes, s)
    ensures StepMachine(m, s).now.output == LiveAfter(i.scopes, m.now.output, s)
  {
    if s.Exit? {
      assert Alike(m.saved[|m.saved| - 1], i.scopes[|m.saved| - 1]);
    }
  }

  // One step delivers the same on both sides, unless it is such a message.
  lemma StepDelivers(m: Machine, i: Ideal, s: Step)
    requires SettingsMatch(m, i) && CanStep(|m.saved|, s)
    ensures var (a, b) := (StepMachine(m, s).delivered, StepIdeal(i, s).delivered);
            && m.delivered <= a && i.delivered <= b
            && |a| - |m.delivered| == |b| - |i.delivered|
            && (a[|m.delivered|..] == b[|i.delivered|..] <==>
                  !(s.Message? && s.level == DISABLED && m.now.output != Top(i).output))
  {
    if s.Exit? {
      assert Alike(m.saved[|m.saved| - 1], i.scopes[|m.saved| - 1]);
    }
    var said := if s.Message? then Deliver(m.now, s.level, Said(s.text))
                else if s.Enter? then Switched(m.now, s.level, s.output).1
                else Switched(m.now, m.saved[|m.saved| - 1].threshold, m.saved[|m.saved| - 1].output).1;
    assert StepMachine(m, s).delivered == m.delivered + said;
    assert (m.delivered + said)[|m.delivered|..] == said;
  }

  // Deliveries are only ever added, equally many on both sides.
  lemma {:induction false} RunsAdd(m: Machine, i: Ideal, steps: seq<Step>)
    requires SettingsMatch(m, i) && Nested(|m.saved|, steps)
    ensures m.delivered <= RunMachine(m, steps).delivered && i.delivered <= RunIdeal(i, steps).delivered
    ensures |RunMachine(m, steps).delivered| - |m.delivered| == |RunIdeal(i, steps).delivered| - |i.delivered|
    decreases |steps|
  {
    if steps != [] {
      hide StepMachine, StepIdeal, SettingsMatch;
      DepthsMatch(m, i, steps[0]);
      StepMatches(m, i, steps[0]);
      StepDelivers(m, i, steps[0]);
      RunsAdd(StepMachine(m, steps[0]), StepIdeal(i, steps[0]), steps[1..]);
    }
  }

  lemma DepthsMatch(m: Machine, i: Ideal, s: Step)
    requires SettingsMatch(m, i) && CanStep(|m.saved|, s)
    ensures |i.scopes| == |m.saved| + 1
    ensures |StepMachine(m, s).saved| == DepthAfter(|m.saved|, s)
    ensures |StepIdeal(i, s).scopes| == DepthAfter(|m.saved|, s) + 1
  {}

  // The two loggers deliver the same, over any run, if and only if no message
  // goes astray.
  lemma {:induction false} SameIffNoneAstray(m: Machine, i: Ideal, steps: seq<Step>)
    requires Implements(m, i) && Nested(|m.saved|, steps)
    ensures RunMachine(m, steps).delivered == RunIdeal(i, steps).delivered <==> !Astray(i.scopes, m.now.output, steps)
    decreases |steps|
  {
    if steps != [] {
      var s := steps[0];
      StepMatches(m, i, s);
      StepDelivers(m, i, s);
      DepthsMatch(m, i, s);
      var (m1, i1) := (StepMachine(m, s), StepIdeal(i, s));
      hide StepMachine, StepIdeal;
      assert m1.delivered == m.delivered + m1.delivered[|m.delivered|..];
      assert i1.delivered == i.delivered + i1.delivered[|i.delivered|..];
      if m1.delivered == i1.delivered {
        SameIffNoneAstray(m1, i1, steps[1..]);
      } else {
        RunsAdd(m1, i1, steps[1..]);
        assert m1.delivered == RunMachine(m1, steps[1..]).delivered[..|m1.delivered|];
        assert i1.delivered == RunIdeal(i1, steps[1..]).delivered[..|i1.delivered|];
      }
    }
  }

  // At the level "disabled" the difference shows: leaving a scope into a
  // disabled one keeps the inner output, so such a message goes astray.
  lemma DisabledLevelAstray(level: Level, stream: Output, text: string)
    requires level < DISABLED && stream != Stderr
    ensures var start := Settings(2, Stderr);
            var steps := [Enter(DISABLED, Stderr), Enter(level, stream), Exit, Message(DISABLED, text)];
            && Nested(0, steps) && Astray([start], Stderr, steps)
            && RunMachine(Machine(start, [], []), steps).delivered != RunIdeal(Ideal([start], []), steps).delivered
  {
    var start := Settings(2, Stderr);
    var rest3 := [Message(DISABLED, text)];
    var rest2 := [Exit] + rest3;
    var rest1 := [Enter(level, stream)] + rest2;
    var steps := [Enter(DISABLED, Stderr), Enter(level, stream), Exit, Message(DISABLED, text)];
    assert steps[1..] == rest1 && rest1[1..] == rest2 && rest2[1..] == rest3 && rest3[1..] == [];
    assert Nested(1, rest3);
    assert rest2[0].Exit? && DepthAfter(2, rest2[0]) == 1 && Nested(2, rest2);
    assert rest1[0].Enter? && DepthAfter(1, rest1[0]) == 2 && Nested(1, rest1);

    var s1 := [start, Settings(DISABLED, Stderr)];
    var s2 := s1 + [Settings(level, stream)];
    assert ScopesAfter([start], steps[0]) == s1 && ScopesAfter(s1, rest1[0]) == s2 && ScopesAfter(s2, rest2[0]) == s1;
    assert Astray(s1, stream, rest3);
    assert Astray(s2, stream, rest2);
    assert Astray(s1, Stderr, rest1);
    assert Astray([start], Stderr, steps);
    hide *;
    Together(start);
    SameIffNoneAstray(Machine(start, [], []), Ideal([start], []), steps);
  }

  lemma Together(start: Settings)
    ensures Implements(Machine(start, [], []), Ideal([start], []))
  {}

  // ---------- leaving a scope ----------

  // No state on the way has fewer than depth open scopes.
  ghost predicate StaysWithin(depth: nat, floor: nat, steps: seq<Step>)
    requires Nested(depth, steps)
    decreases |steps|
  {
    depth >= floor && (steps != [] ==> StaysWithin(DepthAfter(depth, steps[0]), floor, steps[1..]))
  }

  lemma {:induction false} SavedKept(m: Machine, steps: seq<Step>, floor: nat)
    requires Nested(|m.saved|, steps) && StaysWithin(|m.saved|, floor, steps)
    ensures |RunMachine(m, steps).saved| >= floor && RunMachine(m, steps).saved[..floor] == m.saved[..floor]
    decreases |steps|
  {
    if steps != [] {
      SavedKept(StepMachine(m, steps[0]), steps[1..], floor);
    }
  }

  // Whatever happens inside, leaving a scope gives back the settings found on
  // entering it if and only if logging was not disabled there or the output is
  // the same again when the scope is left.  The threshold always returns.
  lemma LeavingRestores(m: Machine, level: Level, output: Output, body: seq<Step>)
    requires var m1 := StepMachine(m, Enter(level, output));
             && Nested(|m1.saved|, body) && StaysWithin(|m1.saved|, |m1.saved|, body)
             && |RunMachine(m1, body).saved| == |m1.saved|
    ensures var inner := RunMachine(StepMachine(m, Enter(level, output)), body);
            var left := StepMachine(inner, Exit);
            && left.saved == m.saved && left.now.threshold == m.now.threshold
            && (left.now == m.now <==> m.now.threshold != DISABLED || inner.now.output == m.now.output)
  {
    var m1 := StepMachine(m, Enter(level, output));
    SavedKept(m1, body, |m1.saved|);
    var inner := RunMachine(m1, body);
    assert inner.saved == inner.saved[..|m1.saved|] == m1.saved[..|m1.saved|] == m.saved + [m.now];
  }
}
