// PlanoCommand and the Command objects it dispatches between, with the mutable
// stack of running commands and the trace they print.
module PlanoCommands {
  import opened Common
  import opened Dispatch
  import opened DispatchTheorems

  // What inspect.stack() can find: the frame of a __call__, of a function that
  // a command wraps, of parent(), or of the program around them.
  datatype Frame = Dunder(self: Id) | Body | ParentCall | Program

  // The rule that parent() looks for: its caller's caller is a __call__.
  function CallerCommand(frames: seq<Frame>): Option<Id> {
    if |frames| >= 2 && frames[|frames| - 2].Dunder? then Some(frames[|frames| - 2].self) else None
  }

  // The options that keep the selected command from running.
  datatype Options = Options(help: bool, initOnly: bool)

  // How a command line ends: before anything runs, before the selected command
  // runs, or with a command's outcome.
  datatype Ending = UnknownCommand(name: string) | StrayArguments | InitOnly | Help | Ended(outcome: Outcome)

  function Preceding(names: seq<string>): seq<string> {
    if names == [] then [] else names[..|names| - 1]
  }

  class PlanoCommand {
    const commands: Id -> Definition
    var boundCommands: map<string, Id>
    var runningCommands: seq<Id>
    var trace: seq<Line>

    constructor (commands: Id -> Definition)
      ensures this.commands == commands
      ensures boundCommands == map[] && runningCommands == [] && trace == []
    {
      this.commands := commands;
      boundCommands, runningCommands, trace := map[], [], [];
    }

    ghost function TheApp(): App
      reads this`boundCommands
    {
      App(commands, boundCommands)
    }

    // What a run has added to the stack and the trace.
    ghost predicate Shows(r: Run, running: seq<Id>, lines: seq<Line>)
      reads this
    {
      && runningCommands == StackAfter(r.forest, running)
      && trace == lines + Render(TheApp(), r.forest, running)
    }

    // Command.__call__
    method CallCommand(c: Id, args: Args, frames: seq<Frame>, fuel: nat) returns (o: Outcome)
      requires TheApp().BoundByName()
      modifies this`runningCommands, this`trace
      ensures var r := IdealCall(TheApp(), commands(c).name, args, fuel);
              o == r.outcome && Shows(r, old(runningCommands), old(trace))
      ensures commands(c).name !in boundCommands ==>
        o == Threw(Unbound(commands(c).name)) && runningCommands == old(runningCommands) && trace == old(trace)
      decreases fuel, 0, if commands(c).name in boundCommands && boundCommands[commands(c).name] == c then 1 else 2
    {
      var name := commands(c).name;
      if name !in boundCommands {
        return Threw(Unbound(name));
      }
      var command := boundCommands[name];
      if command != c {
        o := CallCommand(command, args, frames + [Dunder(c)], fuel);
        return;
      }
      if fuel == 0 {
        return OutOfFuel;
      }
      o := Activate(c, args, frames, fuel);
    }

    // The second half of __call__: push, display, run the function, pop.
    method Activate(c: Id, args: Args, frames: seq<Frame>, fuel: nat) returns (o: Outcome)
      requires TheApp().BoundByName() && fuel > 0
      requires commands(c).name in boundCommands && boundCommands[commands(c).name] == c
      modifies this`runningCommands, this`trace
      ensures var r := IdealCall(TheApp(), commands(c).name, args, fuel);
              o == r.outcome && Shows(r, old(runningCommands), old(trace))
      decreases fuel, 0, 0
    {
      hide Ideal, IdealCall, StackAfter, Render, App.BoundByName, Shows, ShowsBody;
      var shown, depth := Start(c, args);
      if shown.None? {
        FailedCallShows(c, args, fuel, old(runningCommands), old(trace));
        return Threw(NoSuchArgument);
      }
      o := RunBody(c, args, frames + [Dunder(c), Body], fuel - 1, depth);
      CallShows(c, args, fuel, old(runningCommands), old(trace));
    }

    // The start of __call__: the push, the lookup of the arguments to display
    // and the arrow.
    method Start(c: Id, args: Args) returns (shown: Option<string>, depth: nat)
      modifies this`runningCommands, this`trace
      ensures runningCommands == old(runningCommands) + [c] && depth == |runningCommands|
      ensures shown == commands(c).display(args)
      ensures trace == if shown.None? then old(trace) else old(trace) + [Enter(depth, commands(c).name, shown.value)]
    {
      runningCommands := runningCommands + [c];
      depth := |runningCommands|;
      shown := commands(c).display(args);
      if shown.Some? {
        trace := trace + [Enter(depth, commands(c).name, shown.value)];
      }
    }

    // The rest of __call__: the function and, if it returns, the closing lines
    // and the pop.
    method RunBody(c: Id, args: Args, frames: seq<Frame>, fuel: nat, depth: nat) returns (o: Outcome)
      requires TheApp().BoundByName() && depth == |runningCommands| > 0 && CallerCommand(frames) == Some(c)
      modifies this`runningCommands, this`trace
      ensures var r := Ideal(TheApp(), commands(c).script(args), Some(c), fuel);
              o == r.outcome && ShowsBody(r, c, old(runningCommands), old(trace))
      decreases fuel, 2
    {
      hide Ideal, StackAfter, Render, App.BoundByName;
      o := RunStatements(commands(c).script(args), frames, fuel);
      if o == Done {
        Finish(depth, commands(c).name);
      }
    }

    ghost predicate ShowsBody(r: Run, c: Id, running: seq<Id>, lines: seq<Line>)
      reads this
    {
      var after := StackAfter(r.forest, running);
      var more := lines + Render(TheApp(), r.forest, running);
      if r.outcome == Done && running != [] then
        && runningCommands == after[..|after| - 1]
        && trace == more + ([Leave(|running|, commands(c).name)] + BackTo(TheApp(), runningCommands, |running| - 1))
      else
        runningCommands == after && trace == more
    }

    // What a call of a bound command shows, given what its function's body does.
    lemma CallShows(c: Id, args: Args, fuel: nat, running: seq<Id>, lines: seq<Line>)
      requires fuel > 0 && commands(c).name in boundCommands && boundCommands[commands(c).name] == c
      requires commands(c).display(args).Some?
      requires ShowsBody(Ideal(TheApp(), commands(c).script(args), Some(c), fuel - 1), c, running + [c],
                         lines + [Enter(|running| + 1, commands(c).name, commands(c).display(args).value)])
      ensures var r := IdealCall(TheApp(), commands(c).name, args, fuel);
              Shows(r, running, lines)
              && r.outcome == Ideal(TheApp(), commands(c).script(args), Some(c), fuel - 1).outcome
    {
      var r := IdealCall(TheApp(), commands(c).name, args, fuel);
      hide Ideal, StackAfter, Render;
      var n := r.forest[0];
      NodeShows(TheApp(), n, running);
      assert r.forest == [n];
      var enter := [Enter(|running| + 1, commands(c).name, n.shown.value)];
      var body := Render(TheApp(), n.children, running + [c]);
      Associates(lines, enter, body);
      Associates(lines, enter + body,
                 [Leave(|running| + 1, commands(c).name)] + BackTo(TheApp(), runningCommands, |running|));
    }

    lemma FailedCallShows(c: Id, args: Args, fuel: nat, running: seq<Id>, lines: seq<Line>)
      requires fuel > 0 && commands(c).name in boundCommands && boundCommands[commands(c).name] == c
      requires commands(c).display(args).None? && runningCommands == running + [c] && trace == lines
      ensures var r := IdealCall(TheApp(), commands(c).name, args, fuel);
              r.outcome == Threw(NoSuchArgument) && Shows(r, running, lines)
    {
      NodeShows(TheApp(), Node(c, None, [], false), running);
    }

    // The end of __call__: the closing lines and the pop.
    method Finish(depth: nat, name: string)
      requires runningCommands != [] && depth > 0
      modifies this`runningCommands, this`trace
      ensures runningCommands == old(runningCommands[..|runningCommands| - 1])
      ensures trace == old(trace) + ([Leave(depth, name)] + BackTo(TheApp(), runningCommands, depth - 1))
      ensures var n := old(|runningCommands|);
              trace == old(trace)
                       + if n == 1 then [Leave(depth, name)]
                         else [Leave(depth, name), Back(depth - 1, commands(old(runningCommands)[n - 2]).name)]
    {
      trace := trace + [Leave(depth, name)];
      runningCommands := runningCommands[..|runningCommands| - 1];
      if runningCommands != [] {
        trace := trace + [Back(depth - 1, commands(runningCommands[|runningCommands| - 1]).name)];
      }
    }

    // The body of a function, called from the last of frames.
    method RunStatements(stmts: seq<Stmt>, frames: seq<Frame>, fuel: nat) returns (o: Outcome)
      requires TheApp().BoundByName()
      modifies this`runningCommands, this`trace
      ensures var r := Ideal(TheApp(), stmts, CallerCommand(frames), fuel);
              o == r.outcome && Shows(r, old(runningCommands), old(trace))
      decreases fuel, 1, stmts
    {
      if |stmts| == 0 {
        return Done;
      }
      hide IdealStep, StackAfter, Render;
      ghost var first := IdealStep(TheApp(), stmts[0], CallerCommand(frames), fuel).forest;
      ghost var rest := Ideal(TheApp(), stmts[1..], CallerCommand(frames), fuel).forest;
      FirstThenRest(TheApp(), stmts, CallerCommand(frames), fuel);
      hide Ideal;
      o := RunStatement(stmts[0], frames, fuel);
      if o == Done {
        o := RunStatements(stmts[1..], frames, fuel);
        JoinRuns(first, rest, old(runningCommands), old(trace), o);
      }
    }

    // Two runs, one after the other, show as one.
    lemma JoinRuns(first: seq<Node>, rest: seq<Node>, running: seq<Id>, lines: seq<Line>, o: Outcome)
      requires Shows(Run(rest, o), StackAfter(first, running), lines + Render(TheApp(), first, running))
      ensures Shows(Run(first + rest, o), running, lines)
    {
      hide StackAfter, Render;
      StackAfterConcat(first, rest, running);
      RenderConcat(TheApp(), first, rest, running);
      Associates(lines, Render(TheApp(), first, running), Render(TheApp(), rest, StackAfter(first, running)));
    }

    method RunStatement(s: Stmt, frames: seq<Frame>, fuel: nat) returns (o: Outcome)
      requires TheApp().BoundByName()
      modifies this`runningCommands, this`trace
      ensures var r := IdealStep(TheApp(), s, CallerCommand(frames), fuel);
              o == r.outcome && Shows(r, old(runningCommands), old(trace))
      decreases fuel, 1, s
    {
      hide StackAfter, Render, Ideal, IdealCall;
      match s
      case Call(c, args) =>
        o := CallCommand(c, args, frames, fuel);
      case Parent(args) =>
        o := CallParent(args, frames, fuel);
      case Raise(code) =>
        o := Threw(Raised(code));
        NothingRun(TheApp(), runningCommands, "", fuel, Run([], o));
      case Try(body, catches, handler) =>
        o := RunStatements(body, frames, fuel);
        if o.Threw? && catches(o.fault) {
          ghost var tried := Ideal(TheApp(), body, CallerCommand(frames), fuel).forest;
          ghost var handled := Ideal(TheApp(), handler, CallerCommand(frames), fuel).forest;
          o := RunStatements(handler, frames, fuel);
          JoinRuns(tried, handled, old(runningCommands), old(trace), o);
        }
    }

    // parent(), called from the last of frames: stack()[2] is the caller's caller.
    method CallParent(args: Args, frames: seq<Frame>, fuel: nat) returns (o: Outcome)
      requires TheApp().BoundByName()
      modifies this`runningCommands, this`trace
      ensures var r := IdealStep(TheApp(), Parent(args), CallerCommand(frames), fuel);
              o == r.outcome && Shows(r, old(runningCommands), old(trace))
      ensures |frames| < 2 || !frames[|frames| - 2].Dunder? || commands(frames[|frames| - 2].self).parent.None? ==>
        o == Threw(MissingParent) && runningCommands == old(runningCommands) && trace == old(trace)
      decreases fuel, 0
    {
      if |frames| < 2 || !frames[|frames| - 2].Dunder? {
        return Threw(MissingParent);
      }
      var parent := commands(frames[|frames| - 2].self).parent;
      if parent.None? {
        return Threw(MissingParent);
      }
      if fuel == 0 {
        return OutOfFuel;
      }
      o := RunStatements(commands(parent.value).script(args), frames + [ParentCall, Body], fuel - 1);
    }

    method BindCommands(vars: seq<Option<Id>>)
      modifies this`boundCommands
      ensures boundCommands == Bind(commands, vars, old(boundCommands))
    {
      for i := 0 to |vars|
        invariant Bind(commands, vars[i..], boundCommands) == Bind(commands, vars, old(boundCommands))
      {
        assert vars[i..][1..] == vars[i + 1..];
        if vars[i].Some? {
          boundCommands := boundCommands[commands(vars[i].value).name := vars[i].value];
        }
      }
    }

    // A command line of names, the last of which is the selected command and is
    // given args.  All are looked up before any runs.  The others run first,
    // even if unparsed arguments are then refused or an option keeps the selected
    // one from running.
    method RunNamed(names: seq<string>, args: Args, stray: bool, options: Options, fuel: nat) returns (e: Ending)
      requires TheApp().BoundByName()
      modifies this`runningCommands, this`trace
      ensures e.UnknownCommand? <==> exists n :: n in names && n !in boundCommands
      ensures e.UnknownCommand? ==> runningCommands == old(runningCommands) && trace == old(trace)
      ensures e.UnknownCommand? ==> exists i ::
        && 0 <= i < |names| && names[i] == e.name && names[i] !in boundCommands
        && forall n :: n in names[..i] ==> n in boundCommands
      ensures !e.UnknownCommand? ==>
        var runs := names != [] && !stray && !options.help && !options.initOnly;
        var script := if runs then Script(boundCommands, names, args) else Script(boundCommands, Preceding(names), "");
        var r := Ideal(TheApp(), script, None, fuel);
        && Shows(r, old(runningCommands), old(trace))
        && e == if runs || r.outcome != Done then Ended(r.outcome)
                else if names != [] && stray then StrayArguments
                else if options.initOnly then InitOnly
                else Help
    {
      for i := 0 to |names|
        invariant forall n :: n in names[..i] ==> n in boundCommands
      {
        if names[i] !in boundCommands {
          return UnknownCommand(names[i]);
        }
      }
      assert names[..|names|] == names;
      var o := RunAll(Preceding(names), fuel);
      if o != Done {
        PrecedingFails(TheApp(), names, args, fuel);
        return Ended(o);
      }
      if names != [] && stray {
        return StrayArguments;
      }
      if options.initOnly {
        return InitOnly;
      }
      if options.help || names == [] {
        return Help;
      }
      ghost var first := Ideal(TheApp(), Script(boundCommands, Preceding(names), ""), None, fuel).forest;
      ghost var last := IdealCall(TheApp(), names[|names| - 1], args, fuel).forest;
      hide Ideal, IdealCall, StackAfter, Render, Script, Preceding, App.BoundByName;
      SelectedLast(TheApp(), names, args, fuel);
      o := CallCommand(boundCommands[names[|names| - 1]], args, [Program], fuel);
      JoinRuns(first, last, old(runningCommands), old(trace), o);
      e := Ended(o);
    }

    // The preceding commands, without arguments.
    method RunAll(names: seq<string>, fuel: nat) returns (o: Outcome)
      requires TheApp().BoundByName() && forall n :: n in names ==> n in boundCommands
      modifies this`runningCommands, this`trace
      ensures var r := Ideal(TheApp(), Script(boundCommands, names, ""), None, fuel);
              o == r.outcome && Shows(r, old(runningCommands), old(trace))
    {
      hide Ideal, IdealCall, StackAfter, Render, Script, After, StackAfterNode;
      o := Done;
      ghost var done: seq<Node> := [];
      ghost var all := Ideal(TheApp(), Script(boundCommands, names, ""), None, fuel);
      NothingRun(TheApp(), runningCommands, "", fuel, all);
      assert names[0..] == names;
      for i := 0 to |names|
        invariant o == Done
        invariant all == After(done, Ideal(TheApp(), Script(boundCommands, names[i..], ""), None, fuel))
        invariant Shows(Run(done, Done), old(runningCommands), old(trace))
      {
        assert names[i..][1..] == names[i + 1..];
        ghost var made := IdealCall(TheApp(), names[i], "", fuel);
        OneMoreRun(TheApp(), names[i..], "", fuel, done);
        StackAfterConcat(done, made.forest, old(runningCommands));
        RenderConcat(TheApp(), done, made.forest, old(runningCommands));
        o := CallCommand(boundCommands[names[i]], "", [Program], fuel);
        done := done + made.forest;
        if o != Done {
          return;
        }
      }
      assert names[|names|..] == [];
      NothingRun(TheApp(), runningCommands, "", fuel, Run(done, Done));
    }
  }

  lemma PrecedingFails(app: App, names: seq<string>, args: Args, fuel: nat)
    requires app.BoundByName() && forall n :: n in names ==> n in app.bound
    ensures var first := Ideal(app, Script(app.bound, Preceding(names), ""), None, fuel);
            first.outcome != Done ==> Ideal(app, Script(app.bound, names, args), None, fuel) == first
  {
    if names != [] {
      assert names == Preceding(names) + [names[|names| - 1]];
      ScriptSplit(app, Preceding(names), names[|names| - 1], args, fuel);
    }
  }

  lemma SelectedLast(app: App, names: seq<string>, args: Args, fuel: nat)
    requires app.BoundByName() && names != [] && forall n :: n in names ==> n in app.bound
    ensures var first := Ideal(app, Script(app.bound, Preceding(names), ""), None, fuel);
            var last := IdealCall(app, names[|names| - 1], args, fuel);
            first.outcome == Done ==>
              Ideal(app, Script(app.bound, names, args), None, fuel) == Run(first.forest + last.forest, last.outcome)
  {
    assert names == Preceding(names) + [names[|names| - 1]];
    ScriptSplit(app, Preceding(names), names[|names| - 1], args, fuel);
  }

  ghost function After(done: seq<Node>, rest: Run): Run {
    Run(done + rest.forest, rest.outcome)
  }

  lemma {:induction false} NothingRun(app: App, running: seq<Id>, args: Args, fuel: nat, r: Run)
    ensures StackAfter([], running) == running && Render(app, [], running) == []
    ensures After([], r) == r
    ensures After(r.forest, Ideal(app, Script(app.bound, [], args), None, fuel)) == Run(r.forest, Done)
  {
    assert [] + r.forest == r.forest && r.forest + [] == r.forest;
  }

  lemma {:induction false} OneMoreRun(app: App, names: seq<string>, args: Args, fuel: nat, done: seq<Node>)
    requires app.BoundByName() && names != [] && forall n :: n in names ==> n in app.bound
    ensures var made := IdealCall(app, names[0], if |names| == 1 then args else "", fuel);
            After(done, Ideal(app, Script(app.bound, names, args), None, fuel))
            == if made.outcome == Done
               then After(done + made.forest, Ideal(app, Script(app.bound, names[1..], args), None, fuel))
               else Run(done + made.forest, made.outcome)
  {
    hide Ideal, IdealCall;
    ScriptStep(app, names, args, fuel);
    var made := IdealCall(app, names[0], if |names| == 1 then args else "", fuel);
    var rest := Ideal(app, Script(app.bound, names[1..], args), None, fuel);
    assert done + (made.forest + rest.forest) == (done + made.forest) + rest.forest;
  }
}
