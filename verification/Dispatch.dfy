// What running commands means: ideal dispatch by name, the calls it makes,
// and what those calls leave on the stack of running commands and in the
// trace.
module Dispatch {
  import opened Common

  // Command objects, those that were overridden included.
  type Id = nat

  // The arguments of a call, in any encoding.
  type Args = string

  // NoSuchArgument is the IndexError of looking up an argument to display.
  datatype Fault = Unbound(name: string) | MissingParent | NoSuchArgument | Raised(code: int)

  // What a command's function does that matters here.
  datatype Stmt =
    | Call(command: Id, args: Args)
    | Parent(args: Args)
    | Raise(code: int)
    | Try(body: seq<Stmt>, catches: Fault -> bool, handler: seq<Stmt>)

  // display gives the text that the trace shows for a call's arguments, or None
  // if they cannot be looked up (Signatures.Display says when); script is what
  // the function does with them.
  datatype Definition =
    Definition(name: string, parent: Option<Id>, display: Args -> Option<string>, script: Args -> seq<Stmt>)

  datatype App = App(commands: Id -> Definition, bound: map<string, Id>) {
    function Name(c: Id): string {
      commands(c).name
    }

    // A name is bound to a command of that name.
    ghost predicate BoundByName() {
      forall n :: n in bound ==> Name(bound[n]) == n
    }
  }

  // ---------- ideal dispatch ----------

  datatype Outcome = Done | Threw(fault: Fault) | OutOfFuel

  // One activation: the command that ran, its arguments as displayed, what it
  // called, and whether it returned.  One whose arguments could not be
  // displayed never reached its function.
  datatype Node = Node(command: Id, shown: Option<string>, children: seq<Node>, returned: bool)

  datatype Run = Run(forest: seq<Node>, outcome: Outcome)

  // A call runs the command bound to the callee's name.  me is the command
  // whose __call__ entered the function; a function entered by parent() has
  // none.
  ghost function Ideal(app: App, stmts: seq<Stmt>, me: Option<Id>, fuel: nat): Run
    decreases fuel, 1, stmts
  {
    if stmts == [] then Run([], Done)
    else
      var first := IdealStep(app, stmts[0], me, fuel);
      if first.outcome != Done then first
      else
        var rest := Ideal(app, stmts[1..], me, fuel);
        Run(first.forest + rest.forest, rest.outcome)
  }

  lemma FirstThenRest(app: App, stmts: seq<Stmt>, me: Option<Id>, fuel: nat)
    requires stmts != []
    ensures var first := IdealStep(app, stmts[0], me, fuel);
            var rest := Ideal(app, stmts[1..], me, fuel);
            Ideal(app, stmts, me, fuel)
            == if first.outcome == Done then Run(first.forest + rest.forest, rest.outcome) else first
  {
    hide IdealStep;
  }

  ghost function IdealStep(app: App, s: Stmt, me: Option<Id>, fuel: nat): Run
    decreases fuel, 1, s
  {
    match s
    case Call(c, args) => IdealCall(app, app.Name(c), args, fuel)
    case Parent(args) =>
      if me.None? || app.commands(me.value).parent.None? then Run([], Threw(MissingParent))
      else if fuel == 0 then Run([], OutOfFuel)
      else Ideal(app, app.commands(app.commands(me.value).parent.value).script(args), None, fuel - 1)
    case Raise(code) => Run([], Threw(Raised(code)))
    case Try(body, catches, handler) =>
      var tried := Ideal(app, body, me, fuel);
      if tried.outcome.Threw? && catches(tried.outcome.fault) then
        var handled := Ideal(app, handler, me, fuel);
        Run(tried.forest + handled.forest, handled.outcome)
      else tried
  }

  ghost function IdealCall(app: App, name: string, args: Args, fuel: nat): Run
    decreases fuel, 0
  {
    if name !in app.bound then Run([], Threw(Unbound(name)))
    else if fuel == 0 then Run([], OutOfFuel)
    else
      var c := app.bound[name];
      var shown := app.commands(c).display(args);
      if shown.None? then Run([Node(c, None, [], false)], Threw(NoSuchArgument))
      else
        var inner := Ideal(app, app.commands(c).script(args), Some(c), fuel - 1);
        Run([Node(c, shown, inner.forest, inner.outcome == Done)], inner.outcome)
  }

  // ---------- the stack of running commands ----------

  // A call pushes its command; only a call that returns pops, and it pops
  // whatever is on top.
  ghost function StackAfter(forest: seq<Node>, running: seq<Id>): (r: seq<Id>)
    ensures |running| <= |r|
    decreases forest
  {
    if forest == [] then running
    else
      var r := StackAfterNode(forest[0], running);
      StackAfter(forest[1..], r)
  }

  ghost function StackAfterNode(n: Node, running: seq<Id>): (r: seq<Id>)
    ensures |running| <= |r|
    decreases n
  {
    var inner := StackAfter(n.children, running + [n.command]);
    if n.returned then inner[..|inner| - 1] else inner
  }

  // ---------- the trace ----------

  // "--> name (args)", "<-- name" and "--| name", two dashes to a level.
  datatype Line =
    | Enter(depth: nat, name: string, args: string)
    | Leave(depth: nat, name: string)
    | Back(depth: nat, name: string)

  ghost function Render(app: App, forest: seq<Node>, running: seq<Id>): seq<Line>
    decreases forest
  {
    if forest == [] then []
    else RenderNode(app, forest[0], running) + Render(app, forest[1..], StackAfterNode(forest[0], running))
  }

  ghost function RenderNode(app: App, n: Node, running: seq<Id>): seq<Line>
    decreases n
  {
    Opening(app, n, |running| + 1) + Render(app, n.children, running + [n.command])
    + Closing(app, n, |running| + 1, StackAfterNode(n, running))
  }

  function Opening(app: App, n: Node, depth: nat): seq<Line> {
    if n.shown.Some? then [Enter(depth, app.Name(n.command), n.shown.value)] else []
  }

  function Closing(app: App, n: Node, depth: nat, after: seq<Id>): seq<Line>
    requires depth > 0
  {
    if n.returned then [Leave(depth, app.Name(n.command))] + BackTo(app, after, depth - 1) else []
  }

  // The line that names the command returned to, if any is left.
  function BackTo(app: App, running: seq<Id>, depth: nat): seq<Line> {
    if running == [] then [] else [Back(depth, app.Name(running[|running| - 1]))]
  }

  // ---------- forests side by side ----------

  lemma StackAfterConcat(a: seq<Node>, b: seq<Node>, running: seq<Id>)
    ensures StackAfter(a + b, running) == StackAfter(b, StackAfter(a, running))
  {
    if a == [] {
      assert a + b == b;
    } else {
      StackAfterConcat(a[1..], b, StackAfterNode(a[0], running));
      assert (a + b)[1..] == a[1..] + b;
    }
  }

  lemma FirstNode(app: App, forest: seq<Node>, running: seq<Id>)
    requires forest != []
    ensures var r := StackAfterNode(forest[0], running);
            && StackAfter(forest, running) == StackAfter(forest[1..], r)
            && Render(app, forest, running) == RenderNode(app, forest[0], running) + Render(app, forest[1..], r)
  {
    hide RenderNode, StackAfterNode;
  }

  lemma {:induction false} RenderConcat(app: App, a: seq<Node>, b: seq<Node>, running: seq<Id>)
    ensures Render(app, a + b, running) == Render(app, a, running) + Render(app, b, StackAfter(a, running))
  {
    if a == [] {
      assert a + b == b;
    } else {
      hide *;
      var r := StackAfterNode(a[0], running);
      FirstNode(app, a, running);
      FirstNode(app, a + b, running);
      RenderConcat(app, a[1..], b, r);
      assert (a + b)[1..] == a[1..] + b;
      assert (a + b)[0] == a[0];
      Associates(RenderNode(app, a[0], running), Render(app, a[1..], r), Render(app, b, StackAfter(a, running)));
    }
  }

  // One activation alone.
  lemma {:induction false} SingleNode(app: App, n: Node, running: seq<Id>)
    ensures StackAfter([n], running) == StackAfterNode(n, running)
    ensures Render(app, [n], running) == RenderNode(app, n, running)
  {
    hide RenderNode, StackAfterNode;
    assert StackAfter([], StackAfterNode(n, running)) == StackAfterNode(n, running);
    assert Render(app, [], StackAfterNode(n, running)) == [];
    assert [n][1..] == [];
    assert RenderNode(app, n, running) + [] == RenderNode(app, n, running);
  }

  // What one activation adds, given what its function's calls did.
  lemma NodeShows(app: App, n: Node, running: seq<Id>)
    ensures n.shown.None? && n.children == [] && !n.returned ==>
      StackAfter([n], running) == running + [n.command] && Render(app, [n], running) == []
    ensures n.shown.Some? ==>
      var inner := StackAfter(n.children, running + [n.command]);
      var lines := [Enter(|running| + 1, app.Name(n.command), n.shown.value)]
                   + Render(app, n.children, running + [n.command]);
      if n.returned then
        && StackAfter([n], running) == inner[..|inner| - 1]
        && Render(app, [n], running)
           == lines + ([Leave(|running| + 1, app.Name(n.command))] + BackTo(app, inner[..|inner| - 1], |running|))
      else
        StackAfter([n], running) == inner && Render(app, [n], running) == lines
  {
    SingleNode(app, n, running);
    assert StackAfter([], running + [n.command]) == running + [n.command];
    assert Render(app, [], running + [n.command]) == [];
    hide StackAfter, Render;
    var lines := [Enter(|running| + 1, app.Name(n.command), if n.shown.Some? then n.shown.value else "")]
                 + Render(app, n.children, running + [n.command]);
    assert lines + [] == lines;
  }

  // ---------- binding names to commands ----------

  // The table after a module's attributes have been looked at in turn.
  function Bind(commands: Id -> Definition, vars: seq<Option<Id>>, bound: map<string, Id>): map<string, Id> {
    if vars == [] then bound
    else
      Bind(commands, vars[1..], if vars[0].Some? then bound[commands(vars[0].value).name := vars[0].value] else bound)
  }

  predicate Defines(commands: Id -> Definition, v: Option<Id>, name: string) {
    v.Some? && commands(v.value).name == name
  }

  // The last command of a name wins over earlier ones and over the old table.
  lemma {:induction false} BindLast(commands: Id -> Definition, vars: seq<Option<Id>>, bound: map<string, Id>, i: nat)
    requires i < |vars| && vars[i].Some?
    requires forall j :: i < j < |vars| ==> !Defines(commands, vars[j], commands(vars[i].value).name)
    ensures var name := commands(vars[i].value).name;
            var after := Bind(commands, vars, bound);
            name in after && after[name] == vars[i].value
  {
    var first := if vars[0].Some? then bound[commands(vars[0].value).name := vars[0].value] else bound;
    if i > 0 {
      BindLast(commands, vars[1..], first, i - 1);
    } else {
      BindOther(commands, vars[1..], first, commands(vars[0].value).name);
    }
  }

  lemma {:induction false} BindOther(commands: Id -> Definition, vars: seq<Option<Id>>, bound: map<string, Id>,
                                     name: string)
    requires forall j :: 0 <= j < |vars| ==> !Defines(commands, vars[j], name)
    ensures var after := Bind(commands, vars, bound);
            (name in after <==> name in bound) && (name in bound ==> after[name] == bound[name])
  {
    if vars != [] {
      assert !Defines(commands, vars[0], name);
      BindOther(commands, vars[1..],
                if vars[0].Some? then bound[commands(vars[0].value).name := vars[0].value] else bound, name);
    }
  }

  lemma {:induction false} BindKeepsNames(commands: Id -> Definition, vars: seq<Option<Id>>, bound: map<string, Id>)
    requires App(commands, bound).BoundByName()
    ensures App(commands, Bind(commands, vars, bound)).BoundByName()
  {
    if vars != [] {
      var first := if vars[0].Some? then bound[commands(vars[0].value).name := vars[0].value] else bound;
      assert App(commands, first).BoundByName();
      BindKeepsNames(commands, vars[1..], first);
    }
  }
}
