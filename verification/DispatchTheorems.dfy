// What holds of every run of commands.
module DispatchTheorems {
  import opened Common
  import opened Dispatch

  // ---------- fuel ----------

  // Fuel only bounds the depth of calls: a run that ends without running out
  // is the same for every larger amount.
  lemma {:induction false} FuelIrrelevant(app: App, stmts: seq<Stmt>, me: Option<Id>, fuel: nat, more: nat)
    requires fuel <= more && Ideal(app, stmts, me, fuel).outcome != OutOfFuel
    ensures Ideal(app, stmts, me, more) == Ideal(app, stmts, me, fuel)
    decreases fuel, 1, stmts
  {
    if stmts != [] {
      FuelIrrelevantStep(app, stmts[0], me, fuel, more);
      if IdealStep(app, stmts[0], me, fuel).outcome == Done {
        FuelIrrelevant(app, stmts[1..], me, fuel, more);
      }
    }
  }

  lemma {:induction false} FuelIrrelevantStep(app: App, s: Stmt, me: Option<Id>, fuel: nat, more: nat)
    requires fuel <= more && IdealStep(app, s, me, fuel).outcome != OutOfFuel
    ensures IdealStep(app, s, me, more) == IdealStep(app, s, me, fuel)
    decreases fuel, 1, s
  {
    match s
    case Call(c, args) => FuelIrrelevantCall(app, app.Name(c), args, fuel, more);
    case Parent(args) =>
      if me.Some? && app.commands(me.value).parent.Some? {
        var p := app.commands(me.value).parent.value;
        FuelIrrelevant(app, app.commands(p).script(args), None, fuel - 1, more - 1);
      }
    case Raise(_) =>
    case Try(body, catches, handler) =>
      FuelIrrelevant(app, body, me, fuel, more);
      var tried := Ideal(app, body, me, fuel).outcome;
      if tried.Threw? && catches(tried.fault) {
        FuelIrrelevant(app, handler, me, fuel, more);
      }
  }

  lemma {:induction false} FuelIrrelevantCall(app: App, name: string, args: Args, fuel: nat, more: nat)
    requires fuel <= more && IdealCall(app, name, args, fuel).outcome != OutOfFuel
    ensures IdealCall(app, name, args, more) == IdealCall(app, name, args, fuel)
    decreases fuel, 0
  {
    if name in app.bound {
      var c := app.bound[name];
      if app.commands(c).display(args).Some? {
        FuelIrrelevant(app, app.commands(c).script(args), Some(c), fuel - 1, more - 1);
      }
    }
  }

  // ---------- late binding ----------

  // Every activation is of the command that the table has for its name, and
  // one that returned had announced itself.
  ghost predicate AllBound(app: App, forest: seq<Node>)
    decreases forest
  {
    forest != [] ==>
      && app.Name(forest[0].command) in app.bound
      && app.bound[app.Name(forest[0].command)] == forest[0].command
      && (forest[0].returned ==> forest[0].shown.Some?)
      && AllBound(app, forest[0].children)
      && AllBound(app, forest[1..])
  }

  lemma AllBoundConcat(app: App, a: seq<Node>, b: seq<Node>)
    requires AllBound(app, a) && AllBound(app, b)
    ensures AllBound(app, a + b)
  {
    if a == [] {
      assert a + b == b;
    } else {
      AllBoundConcat(app, a[1..], b);
      assert (a + b)[1..] == a[1..] + b;
    }
  }

  // Whichever Command objects the functions call, overridden ones included,
  // and however deep, only the commands bound to their names ever run.
  lemma {:induction false} LateBinding(app: App, stmts: seq<Stmt>, me: Option<Id>, fuel: nat)
    requires app.BoundByName()
    ensures AllBound(app, Ideal(app, stmts, me, fuel).forest)
    decreases fuel, 1, stmts
  {
    if stmts != [] {
      LateBindingStep(app, stmts[0], me, fuel);
      if IdealStep(app, stmts[0], me, fuel).outcome == Done {
        LateBinding(app, stmts[1..], me, fuel);
        AllBoundConcat(app, IdealStep(app, stmts[0], me, fuel).forest, Ideal(app, stmts[1..], me, fuel).forest);
      }
    }
  }

  lemma {:induction false} LateBindingStep(app: App, s: Stmt, me: Option<Id>, fuel: nat)
    requires app.BoundByName()
    ensures AllBound(app, IdealStep(app, s, me, fuel).forest)
    decreases fuel, 1, s
  {
    match s
    case Call(c, args) =>
      LateBindingCall(app, app.Name(c), args, fuel);
    case Parent(args) =>
      if me.Some? && app.commands(me.value).parent.Some? && fuel > 0 {
        LateBinding(app, app.commands(app.commands(me.value).parent.value).script(args), None, fuel - 1);
      }
    case Raise(_) =>
    case Try(body, catches, handler) =>
      LateBinding(app, body, me, fuel);
      LateBinding(app, handler, me, fuel);
      AllBoundConcat(app, Ideal(app, body, me, fuel).forest, Ideal(app, handler, me, fuel).forest);
  }

  lemma {:induction false} LateBindingCall(app: App, name: string, args: Args, fuel: nat)
    requires app.BoundByName()
    ensures AllBound(app, IdealCall(app, name, args, fuel).forest)
    decreases fuel, 0
  {
    if name in app.bound && fuel > 0 {
      var c := app.bound[name];
      LateBinding(app, app.commands(c).script(args), Some(c), fuel - 1);
      assert IdealCall(app, name, args, fuel).forest[1..] == [];
    }
  }

  // parent() goes up one level only: a function that it has entered runs, in
  // every respect and whatever it calls, like the function of a command that
  // has no parent.
  lemma {:induction false} ParentOnce(app: App, stmts: seq<Stmt>, c: Id, fuel: nat)
    requires app.commands(c).parent.None?
    ensures Ideal(app, stmts, None, fuel) == Ideal(app, stmts, Some(c), fuel)
    decreases fuel, 1, stmts
  {
    if stmts != [] {
      ParentOnceStep(app, stmts[0], c, fuel);
      ParentOnce(app, stmts[1..], c, fuel);
    }
  }

  lemma {:induction false} ParentOnceStep(app: App, s: Stmt, c: Id, fuel: nat)
    requires app.commands(c).parent.None?
    ensures IdealStep(app, s, None, fuel) == IdealStep(app, s, Some(c), fuel)
    decreases fuel, 1, s
  {
    if s.Try? {
      ParentOnce(app, s.body, c, fuel);
      ParentOnce(app, s.handler, c, fuel);
    }
  }

  // So calling parent() is running the parent's function, in place, as that of
  // a command without a parent, even if the parent has one.
  lemma ParentRunsAlone(app: App, c: Id, args: Args, orphan: Id, fuel: nat)
    requires app.commands(c).parent.Some? && app.commands(orphan).parent.None? && fuel > 0
    ensures IdealStep(app, Parent(args), Some(c), fuel)
         == Ideal(app, app.commands(app.commands(c).parent.value).script(args), Some(orphan), fuel - 1)
  {
    ParentOnce(app, app.commands(app.commands(c).parent.value).script(args), orphan, fuel - 1);
  }

  // A call of a bound command prints no arrow just when its arguments cannot be
  // displayed.  It then leaves its command on the stack and never reaches the
  // function.
  lemma UndisplayedCall(app: App, name: string, args: Args, fuel: nat, running: seq<Id>)
    requires name in app.bound && fuel > 0
    ensures var r := IdealCall(app, name, args, fuel);
            && (Render(app, r.forest, running) == [] <==> app.commands(app.bound[name]).display(args).None?)
            && (Render(app, r.forest, running) == [] ==>
                  r.outcome == Threw(NoSuchArgument) && StackAfter(r.forest, running) == running + [app.bound[name]])
  {
    var r := IdealCall(app, name, args, fuel);
    hide Ideal;
    NodeShows(app, r.forest[0], running);
    assert r.forest == [r.forest[0]];
  }

  // A call runs the command bound to the callee's name, once, with the arguments
  // given, unless they cannot be displayed.
  lemma CallRunsBound(app: App, c: Id, args: Args, me: Option<Id>, fuel: nat)
    requires app.Name(c) in app.bound && fuel > 0
    ensures var r := IdealStep(app, Call(c, args), me, fuel);
            var b := app.bound[app.Name(c)];
            |r.forest| == 1 && r.forest[0].command == b && r.forest[0].shown == app.commands(b).display(args)
            && (r.forest[0].shown.Some? ==>
                  var body := Ideal(app, app.commands(b).script(args), Some(b), fuel - 1);
                  r.forest[0].children == body.forest && r.outcome == body.outcome
                  && (r.forest[0].returned <==> body.outcome == Done))
  {
    hide Ideal;
  }

  // A try block catches what its body raises, if it is meant to, and runs its
  // handler then; what the body has done stays.
  lemma TryCatches(app: App, body: seq<Stmt>, catches: Fault -> bool, handler: seq<Stmt>, me: Option<Id>, fuel: nat)
    ensures var r := IdealStep(app, Try(body, catches, handler), me, fuel);
            var tried := Ideal(app, body, me, fuel);
            && tried.forest <= r.forest
            && (r.outcome == Done <==>
                  || tried.outcome == Done
                  || (tried.outcome.Threw? && catches(tried.outcome.fault)
                      && Ideal(app, handler, me, fuel).outcome == Done))
            && (tried.outcome.Threw? && !catches(tried.outcome.fault) ==> r.outcome == tried.outcome)
  {
    hide Ideal;
  }

  // ---------- stack accounting ----------

  // The activations that ended in an exception.
  ghost function Aborted(forest: seq<Node>): nat
    decreases forest
  {
    if forest == [] then 0
    else (if forest[0].returned then 0 else 1) + Aborted(forest[0].children) + Aborted(forest[1..])
  }

  // Each aborted activation leaves the stack one longer; nothing below what a
  // run found on the stack is ever lost.
  lemma {:induction false} StackAccounting(forest: seq<Node>, running: seq<Id>)
    ensures |StackAfter(forest, running)| == |running| + Aborted(forest)
    ensures running <= StackAfter(forest, running)
    ensures Aborted(forest) == 0 ==> StackAfter(forest, running) == running
    decreases forest
  {
    if forest != [] {
      StackAccounting(forest[0].children, running + [forest[0].command]);
      StackAccounting(forest[1..], StackAfterNode(forest[0], running));
    }
  }

  // The activations whose arguments could not be displayed.
  ghost function Undisplayed(forest: seq<Node>): nat
    decreases forest
  {
    if forest == [] then 0
    else (if forest[0].shown.None? then 1 else 0) + Undisplayed(forest[0].children) + Undisplayed(forest[1..])
  }

  // Arrows that open less arrows that close.
  function Unmatched(lines: seq<Line>): int {
    if lines == [] then 0
    else (match lines[0] case Enter(_, _, _) => 1 case Leave(_, _) => -1 case Back(_, _) => 0) + Unmatched(lines[1..])
  }

  lemma {:induction false} UnmatchedConcat(a: seq<Line>, b: seq<Line>)
    ensures Unmatched(a + b) == Unmatched(a) + Unmatched(b)
  {
    if a == [] {
      assert a + b == b;
    } else {
      UnmatchedConcat(a[1..], b);
      assert (a + b)[1..] == a[1..] + b && (a + b)[0] == a[0];
    }
  }

  // Over any run, what the stack has grown by can be read off the trace, up to
  // the calls that printed nothing.
  lemma {:induction false} StackFromTrace(app: App, forest: seq<Node>, running: seq<Id>)
    ensures |StackAfter(forest, running)| - |running|
         == Unmatched(Render(app, forest, running)) + Undisplayed(forest)
    decreases forest
  {
    if forest != [] {
      hide Render, StackAfter, StackAfterNode, Unmatched;
      var n := forest[0];
      StackFromTrace(app, n.children, running + [n.command]);
      StackFromTrace(app, forest[1..], StackAfterNode(n, running));
      NodeUnmatched(app, n, running);
      FirstNode(app, forest, running);
      UnmatchedConcat(RenderNode(app, n, running), Render(app, forest[1..], StackAfterNode(n, running)));
      PoppedOnReturn(n, running);
    } else {
      assert Render(app, forest, running) == [];
    }
  }

  lemma PoppedOnReturn(n: Node, running: seq<Id>)
    ensures |StackAfterNode(n, running)|
         == |StackAfter(n.children, running + [n.command])| - (if n.returned then 1 else 0)
  {}

  lemma NodeUnmatched(app: App, n: Node, running: seq<Id>)
    ensures Unmatched(RenderNode(app, n, running))
         == (if n.shown.Some? then 1 else 0) - (if n.returned then 1 else 0)
            + Unmatched(Render(app, n.children, running + [n.command]))
  {
    hide Render, StackAfterNode;
    var depth := |running| + 1;
    var (head, body) := (Opening(app, n, depth), Render(app, n.children, running + [n.command]));
    var back := BackTo(app, StackAfterNode(n, running), depth - 1);
    UnmatchedConcat(head + body, Closing(app, n, depth, StackAfterNode(n, running)));
    UnmatchedConcat(head, body);
    assert Unmatched(back) == 0;
    UnmatchedConcat([Leave(depth, app.Name(n.command))], back);
  }

  // The commands that a run pushes and does not pop, in order.
  ghost function LeftOn(forest: seq<Node>): seq<Id>
    decreases forest
  {
    if forest == [] then [] else LeftOnBy(forest[0]) + LeftOn(forest[1..])
  }

  ghost function LeftOnBy(n: Node): seq<Id>
    decreases n
  {
    var pushed := [n.command] + LeftOn(n.children);
    if n.returned then pushed[..|pushed| - 1] else pushed
  }

  lemma {:induction false} StackIs(forest: seq<Node>, running: seq<Id>)
    ensures StackAfter(forest, running) == running + LeftOn(forest)
    decreases forest
  {
    if forest != [] {
      hide StackAfterNode;
      NodeStackIs(forest[0], running);
      StackIs(forest[1..], running + LeftOnBy(forest[0]));
      Associates(running, LeftOnBy(forest[0]), LeftOn(forest[1..]));
    } else {
      assert running + [] == running;
    }
  }

  lemma {:induction false} NodeStackIs(n: Node, running: seq<Id>)
    ensures StackAfterNode(n, running) == running + LeftOnBy(n)
    decreases n
  {
    StackIs(n.children, running + [n.command]);
    hide StackAfter, LeftOn;
    var pushed := [n.command] + LeftOn(n.children);
    Associates(running, [n.command], LeftOn(n.children));
    assert (running + pushed)[..|running| + |pushed| - 1] == running + pushed[..|pushed| - 1];
  }

  function BackLines(lines: seq<Line>): seq<Line> {
    if lines == [] then [] else (if lines[0].Back? then [lines[0]] else []) + BackLines(lines[1..])
  }

  // The line about what an activation returns to: the last command that its
  // aborted callees left on the stack, if any (even though one of theirs or its
  // own was popped); otherwise the last of those below it.
  function ReturnTo(app: App, left: seq<Id>, below: seq<Id>): seq<Line> {
    if left != [] then [Back(|below|, app.Name(left[|left| - 1]))]
    else if below != [] then [Back(|below|, app.Name(below[|below| - 1]))]
    else []
  }

  // The returns of a run, in order.
  ghost function Returns(app: App, forest: seq<Node>, below: seq<Id>): seq<Line>
    decreases forest
  {
    if forest == [] then []
    else
      var n := forest[0];
      Returns(app, n.children, below + [n.command])
      + (if n.returned then ReturnTo(app, LeftOnBy(n), below) else [])
      + Returns(app, forest[1..], below + LeftOnBy(n))
  }

  lemma {:induction false} BackLinesConcat(a: seq<Line>, b: seq<Line>)
    ensures BackLines(a + b) == BackLines(a) + BackLines(b)
  {
    if a == [] {
      assert a + b == b;
    } else {
      BackLinesConcat(a[1..], b);
      assert (a + b)[1..] == a[1..] + b && (a + b)[0] == a[0];
      Associates(if a[0].Back? then [a[0]] else [], BackLines(a[1..]), BackLines(b));
    }
  }

  // Whatever aborts in a run, each returning activation names the command that
  // was pushed last among those not popped.
  lemma {:induction false} ReturnsNamed(app: App, forest: seq<Node>, running: seq<Id>)
    ensures BackLines(Render(app, forest, running)) == Returns(app, forest, running)
    decreases forest
  {
    if forest == [] {
      assert Render(app, forest, running) == [];
    } else {
      hide Render, BackLines, StackAfterNode, LeftOnBy, ReturnTo;
      var n := forest[0];
      NodeStackIs(n, running);
      ReturnsNamed(app, n.children, running + [n.command]);
      ReturnsNamed(app, forest[1..], running + LeftOnBy(n));
      FirstNode(app, forest, running);
      BackLinesConcat(RenderNode(app, n, running), Render(app, forest[1..], running + LeftOnBy(n)));
      NodeReturns(app, n, running);
    }
  }

  lemma {:induction false} NodeReturns(app: App, n: Node, running: seq<Id>)
    requires StackAfterNode(n, running) == running + LeftOnBy(n)
    ensures BackLines(RenderNode(app, n, running))
         == BackLines(Render(app, n.children, running + [n.command]))
            + (if n.returned then ReturnTo(app, LeftOnBy(n), running) else [])
  {
    var (head, tail) := (Opening(app, n, |running| + 1), Closing(app, n, |running| + 1, running + LeftOnBy(n)));
    var body := Render(app, n.children, running + [n.command]);
    assert RenderNode(app, n, running) == head + body + tail by {
      hide Render, StackAfterNode, LeftOnBy, Opening, Closing;
    }
    OpeningNoBack(app, n, |running| + 1);
    ClosingBack(app, n, running, LeftOnBy(n));
    hide *;
    BackLinesConcat(head + body, tail);
    BackLinesConcat(head, body);
    assert [] + BackLines(body) == BackLines(body);
  }

  lemma OpeningNoBack(app: App, n: Node, depth: nat)
    ensures BackLines(Opening(app, n, depth)) == []
  {}

  lemma ClosingBack(app: App, n: Node, below: seq<Id>, left: seq<Id>)
    ensures BackLines(Closing(app, n, |below| + 1, below + left))
         == if n.returned then ReturnTo(app, left, below) else []
  {
    BackToIs(app, left, below);
    hide ReturnTo, BackTo;
    var first := [Leave(|below| + 1, app.Name(n.command))];
    BackLinesConcat(first, BackTo(app, below + left, |below|));
    assert BackLines(first) == [];
  }

  lemma BackToIs(app: App, left: seq<Id>, below: seq<Id>)
    ensures BackTo(app, below + left, |below|) == ReturnTo(app, left, below)
    ensures BackLines(ReturnTo(app, left, below)) == ReturnTo(app, left, below)
  {
    assert left == [] ==> below + left == below;
  }

  // The depth at which each activation announces itself, counting the
  // activations it is nested in and the aborted ones before it.
  ghost function EntryDepths(forest: seq<Node>, live: nat, aborted: nat): seq<nat>
    decreases forest
  {
    if forest == [] then []
    else
      (if forest[0].shown.Some? then [live + aborted + 1] else [])
      + EntryDepths(forest[0].children, live + 1, aborted)
      + EntryDepths(forest[1..], live, aborted + Aborted([forest[0]]))
  }

  ghost function ShownDepths(lines: seq<Line>): seq<nat> {
    if lines == [] then []
    else (if lines[0].Enter? then [lines[0].depth] else []) + ShownDepths(lines[1..])
  }

  lemma {:induction false} ShownDepthsConcat(a: seq<Line>, b: seq<Line>)
    ensures ShownDepths(a + b) == ShownDepths(a) + ShownDepths(b)
  {
    if a == [] {
      assert a + b == b;
    } else {
      ShownDepthsConcat(a[1..], b);
      assert (a + b)[1..] == a[1..] + b && (a + b)[0] == a[0];
      Associates(if a[0].Enter? then [a[0].depth] else [], ShownDepths(a[1..]), ShownDepths(b));
    }
  }

  // Throughout a run, the stack holds the live activations and the aborted
  // ones: that is the depth every arrow shows.
  lemma {:induction false} DepthsShown(app: App, forest: seq<Node>, running: seq<Id>, live: nat, aborted: nat)
    requires |running| == live + aborted
    ensures ShownDepths(Render(app, forest, running)) == EntryDepths(forest, live, aborted)
    decreases forest
  {
    if forest == [] {
      assert Render(app, forest, running) == [];
    } else {
      hide Render, ShownDepths, StackAfterNode, Aborted;
      var n := forest[0];
      var r := StackAfterNode(n, running);
      DepthsShown(app, n.children, running + [n.command], live + 1, aborted);
      NodeGrowth(n, running);
      DepthsShown(app, forest[1..], r, live, aborted + Aborted([n]));
      DepthsJoin(app, forest, running);
    }
  }

  lemma NodeGrowth(n: Node, running: seq<Id>)
    ensures |StackAfterNode(n, running)| == |running| + Aborted([n])
  {
    StackAccounting([n], running);
    assert [n][1..] == [];
    assert StackAfter([n], running) == StackAfterNode(n, running);
  }

  lemma DepthsJoin(app: App, forest: seq<Node>, running: seq<Id>)
    requires forest != []
    ensures var n := forest[0];
            ShownDepths(Render(app, forest, running))
            == (if n.shown.Some? then [|running| + 1] else [])
               + ShownDepths(Render(app, n.children, running + [n.command]))
               + ShownDepths(Render(app, forest[1..], StackAfterNode(n, running)))
  {
    hide Render, RenderNode, ShownDepths, StackAfterNode;
    var n := forest[0];
    NodeDepths(app, n, running);
    FirstNode(app, forest, running);
    ShownDepthsConcat(RenderNode(app, n, running), Render(app, forest[1..], StackAfterNode(n, running)));
  }

  lemma NodeDepths(app: App, n: Node, running: seq<Id>)
    ensures ShownDepths(RenderNode(app, n, running))
         == (if n.shown.Some? then [|running| + 1] else [])
            + ShownDepths(Render(app, n.children, running + [n.command]))
  {
    hide Render, StackAfterNode;
    var depth := |running| + 1;
    var (head, body) := (Opening(app, n, depth), Render(app, n.children, running + [n.command]));
    var tail := Closing(app, n, depth, StackAfterNode(n, running));
    ShownDepthsConcat(head + body, tail);
    ShownDepthsConcat(head, body);
    var back := BackTo(app, StackAfterNode(n, running), depth - 1);
    assert ShownDepths(back) == [];
    ShownDepthsConcat([Leave(depth, app.Name(n.command))], back);
    assert ShownDepths(tail) == [];
  }

  // ---------- the trace can be read back ----------

  // Read sibling activations at a depth, as many as there are.  outer names the
  // activation around them: the line that ends one of them must return to it.
  ghost function Parse(app: App, lines: seq<Line>, depth: nat, outer: string): (r: Option<(seq<Node>, seq<Line>)>)
    ensures r.Some? ==> |r.value.1| <= |lines|
    decreases |lines|
  {
    if lines == [] || !lines[0].Enter? || lines[0].depth != depth || lines[0].name !in app.bound then Some(([], lines))
    else
      match Parse(app, lines[1..], depth + 1, lines[0].name)
      case None => None
      case Some((children, rest)) =>
        if rest == [] || rest[0] != Leave(depth, lines[0].name) then None
        else if depth > 1 && (|rest| < 2 || rest[1] != Back(depth - 1, outer)) then None
        else
          match Parse(app, rest[if depth > 1 then 2 else 1..], depth, outer)
          case None => None
          case Some((siblings, rest')) =>
            Some(([Node(app.bound[lines[0].name], Some(lines[0].args), children, true)] + siblings, rest'))
  }

  // Reading a trace of activations that all returned gives them back: the
  // lines are well bracketed, at the depths of the nesting, and each return
  // names the activation returned to.
  lemma {:induction false} ParseRender(app: App, forest: seq<Node>, running: seq<Id>, outer: string,
                                       more: seq<Line>)
    requires AllBound(app, forest) && Aborted(forest) == 0
    requires running != [] ==> outer == app.Name(running[|running| - 1])
    requires more != [] ==> !more[0].Enter?
    ensures Parse(app, Render(app, forest, running) + more, |running| + 1, outer) == Some((forest, more))
    decreases forest
  {
    hide *;
    if forest == [] {
      ParseNothing(app, running, outer, more);
    } else {
      var n := forest[0];
      ReturnsTo(forest, running);
      var deeper := running + [n.command];
      assert deeper[|deeper| - 1] == n.command && |deeper| == |running| + 1;
      var rest := AfterChildren(app, n, running) + (Render(app, forest[1..], running) + more);
      AfterChildrenBegins(app, n, running, Render(app, forest[1..], running) + more);
      BoundFirst(app, forest);
      ParseRender(app, n.children, deeper, app.Name(n.command), rest);
      ParseRender(app, forest[1..], running, outer, more);
      ParseFirst(app, forest, running, outer, more);
    }
  }

  lemma ParseNothing(app: App, running: seq<Id>, outer: string, more: seq<Line>)
    requires more != [] ==> !more[0].Enter?
    ensures Parse(app, Render(app, [], running) + more, |running| + 1, outer) == Some(([], more))
  {
    assert Render(app, [], running) + more == more;
  }

  lemma {:induction false} ParseFirst(app: App, forest: seq<Node>, running: seq<Id>, outer: string, more: seq<Line>)
    requires forest != [] && forest[0].returned && forest[0].shown.Some?
    requires StackAfterNode(forest[0], running) == running
    requires app.Name(forest[0].command) in app.bound && app.bound[app.Name(forest[0].command)] == forest[0].command
    requires running != [] ==> outer == app.Name(running[|running| - 1])
    requires var n := forest[0];
             var rest := AfterChildren(app, n, running) + (Render(app, forest[1..], running) + more);
             Parse(app, Render(app, n.children, running + [n.command]) + rest, |running| + 2, app.Name(n.command))
             == Some((n.children, rest))
    requires Parse(app, Render(app, forest[1..], running) + more, |running| + 1, outer) == Some((forest[1..], more))
    ensures Parse(app, Render(app, forest, running) + more, |running| + 1, outer) == Some((forest, more))
  {
    hide *;
    var n := forest[0];
    var siblings := Render(app, forest[1..], running) + more;
    var rest := AfterChildren(app, n, running) + siblings;
    NodeLines(app, forest, running, more);
    var inner := Render(app, n.children, running + [n.command]) + rest;
    ParseNode(app, n, running, outer, inner, siblings, forest[1..], more);
    assert forest == [n] + forest[1..];
  }

  // Without aborted activations, the first one returns to the stack it found.
  lemma ReturnsTo(forest: seq<Node>, running: seq<Id>)
    requires forest != [] && Aborted(forest) == 0
    ensures forest[0].returned && StackAfterNode(forest[0], running) == running
    ensures Aborted(forest[0].children) == 0 && Aborted(forest[1..]) == 0
  {
    StackAccounting(forest[0].children, running + [forest[0].command]);
  }

  lemma BoundFirst(app: App, forest: seq<Node>)
    requires AllBound(app, forest) && forest != []
    ensures AllBound(app, forest[0].children) && AllBound(app, forest[1..])
    ensures var n := forest[0];
            && app.Name(n.command) in app.bound && app.bound[app.Name(n.command)] == n.command
            && (n.returned ==> n.shown.Some?)
  {}

  lemma AfterChildrenBegins(app: App, n: Node, running: seq<Id>, siblings: seq<Line>)
    ensures var rest := AfterChildren(app, n, running) + siblings;
            rest != [] && !rest[0].Enter?
  {}

  // The lines that end an activation which returns to running.
  ghost function AfterChildren(app: App, n: Node, running: seq<Id>): seq<Line> {
    [Leave(|running| + 1, app.Name(n.command))] + BackTo(app, running, |running|)
  }

  lemma NodeLines(app: App, forest: seq<Node>, running: seq<Id>, more: seq<Line>)
    requires forest != [] && forest[0].returned && forest[0].shown.Some?
    requires StackAfterNode(forest[0], running) == running
    ensures var n := forest[0];
            Render(app, forest, running) + more
            == [Enter(|running| + 1, app.Name(n.command), n.shown.value)]
               + (Render(app, n.children, running + [n.command])
                  + (AfterChildren(app, n, running) + (Render(app, forest[1..], running) + more)))
  {
    hide Render, StackAfterNode, AfterChildren;
    var n := forest[0];
    var (x, y) := (Render(app, n.children, running + [n.command]), AfterChildren(app, n, running));
    var z := Render(app, forest[1..], running);
    var first := [Enter(|running| + 1, app.Name(n.command), n.shown.value)];
    ReturnedNode(app, n, running);
    FirstNode(app, forest, running);
    hide RenderNode;
    Regroup(first, x, y, z, more);
  }

  lemma ReturnedNode(app: App, n: Node, running: seq<Id>)
    requires n.returned && n.shown.Some? && StackAfterNode(n, running) == running
    ensures RenderNode(app, n, running)
         == [Enter(|running| + 1, app.Name(n.command), n.shown.value)] + Render(app, n.children, running + [n.command])
            + AfterChildren(app, n, running)
  {
    hide Render, StackAfterNode;
  }

  lemma Regroup<T>(a: seq<T>, b: seq<T>, c: seq<T>, d: seq<T>, e: seq<T>)
    ensures ((a + b) + c) + d + e == a + (b + (c + (d + e)))
  {}

  lemma {:induction false} ParseNode(app: App, n: Node, running: seq<Id>, outer: string, inner: seq<Line>,
                                     siblings: seq<Line>, after: seq<Node>, more: seq<Line>)
    requires n.returned && n.shown.Some?
    requires app.Name(n.command) in app.bound && app.bound[app.Name(n.command)] == n.command
    requires running != [] ==> outer == app.Name(running[|running| - 1])
    requires Parse(app, inner, |running| + 2, app.Name(n.command))
          == Some((n.children, AfterChildren(app, n, running) + siblings))
    requires Parse(app, siblings, |running| + 1, outer) == Some((after, more))
    ensures Parse(app, [Enter(|running| + 1, app.Name(n.command), n.shown.value)] + inner, |running| + 1, outer)
         == Some(([n] + after, more))
  {
    var depth := |running| + 1;
    var lines := [Enter(depth, app.Name(n.command), n.shown.value)] + inner;
    var rest := AfterChildren(app, n, running) + siblings;
    assert lines[1..] == inner;
    assert rest[if depth > 1 then 2 else 1..] == siblings;
  }

  // So two exception-free runs that print the same trace made the same calls.
  lemma TraceDeterminesCalls(app: App, f: seq<Node>, g: seq<Node>, running: seq<Id>)
    requires AllBound(app, f) && AllBound(app, g) && Aborted(f) == 0 && Aborted(g) == 0
    requires Render(app, f, running) == Render(app, g, running)
    ensures f == g
  {
    var outer := if running == [] then "" else app.Name(running[|running| - 1]);
    ParseRender(app, f, running, outer, []);
    ParseRender(app, g, running, outer, []);
  }

  // Any run in which nothing aborts restores the stack, and its trace, read
  // back, gives the calls that ideal dispatch makes.
  lemma CleanRun(app: App, stmts: seq<Stmt>, me: Option<Id>, fuel: nat, running: seq<Id>, outer: string)
    requires running != [] ==> outer == app.Name(running[|running| - 1])
    requires app.BoundByName() && Aborted(Ideal(app, stmts, me, fuel).forest) == 0
    ensures var forest := Ideal(app, stmts, me, fuel).forest;
            && StackAfter(forest, running) == running
            && Parse(app, Render(app, forest, running), |running| + 1, outer) == Some((forest, []))
  {
    hide Ideal, Parse, Render, AllBound, Aborted;
    var forest := Ideal(app, stmts, me, fuel).forest;
    LateBinding(app, stmts, me, fuel);
    StackAccounting(forest, running);
    ParseRender(app, forest, running, outer, []);
    assert Render(app, forest, running) + [] == Render(app, forest, running);
  }

  // ---------- the printed lines ----------

  function Dashes(depth: nat): string {
    seq(2 * depth, _ => '-')
  }

  function Show(l: Line): string {
    match l
    case Enter(depth, name, args) => Dashes(depth) + "> " + name + (if args == "" then "" else " (" + args + ")")
    case Leave(depth, name) => "<" + Dashes(depth) + " " + name
    case Back(depth, name) => Dashes(depth) + "| " + name
  }

  lemma ShowIs(name: string, args: string)
    ensures Show(Enter(1, name, "")) == "--" + "> " + name
    ensures args != "" ==> Show(Enter(2, name, args)) == "----" + "> " + name + (" (" + args + ")")
    ensures Show(Leave(2, name)) == "<" + "----" + " " + name
    ensures Show(Back(1, name)) == "--" + "| " + name
  {
    assert Dashes(1) == "--" && Dashes(2) == "----";
    hide Dashes;
    assert Show(Enter(1, name, "")) == "--" + "> " + name + "";
  }

  predicate OneWord(s: string) {
    ' ' !in s
  }

  lemma DashesCounted(d: nat, e: nat, x: string, y: string)
    requires Dashes(d) + x == Dashes(e) + y
    requires x != "" && y != "" && x[0] != '-' && y[0] != '-'
    ensures d == e && x == y
  {
    var s := Dashes(d) + x;
    assert s[2 * d] == x[0] && s[2 * e] == y[0];
    assert forall i :: 0 <= i < 2 * d ==> s[i] == '-';
    assert forall i :: 0 <= i < 2 * e ==> (Dashes(e) + y)[i] == '-';
    assert s[2 * d..] == x && (Dashes(e) + y)[2 * e..] == y;
  }

  lemma WordSplit(a: string, b: string, x: string, y: string)
    requires OneWord(a) && OneWord(b) && a + x == b + y
    requires x != "" ==> x[0] == ' '
    requires y != "" ==> y[0] == ' '
    ensures a == b && x == y
  {
    assert forall i :: 0 <= i < |a| ==> (a + x)[i] == a[i];
    assert forall i :: 0 <= i < |b| ==> (b + y)[i] == b[i];
    assert x != "" ==> (a + x)[|a|] == ' ';
    assert y != "" ==> (b + y)[|b|] == ' ';
    assert |a| == |b|;
    assert (a + x)[..|a|] == a && (b + y)[..|b|] == b;
    assert (a + x)[|a|..] == x && (b + y)[|b|..] == y;
  }

  function Shown(l: Line): string {
    if l.Enter? && l.args != "" then " (" + l.args + ")" else ""
  }

  function Tail(l: Line): string {
    (if l.Enter? then "> " else "| ") + l.name + Shown(l)
  }

  // Lines about one-word names differ in print whenever they differ.
  lemma ShowInjective(a: Line, b: Line)
    requires OneWord(a.name) && OneWord(b.name) && Show(a) == Show(b)
    ensures a == b
  {
    assert a.Leave? <==> Show(a)[0] == '<';
    assert b.Leave? <==> Show(b)[0] == '<';
    if a.Leave? {
      LeaveShown(a);
      LeaveShown(b);
      DashesCounted(a.depth, b.depth, " " + a.name, " " + b.name);
      assert (" " + a.name)[1..] == a.name && (" " + b.name)[1..] == b.name;
    } else {
      ArrowShown(a);
      ArrowShown(b);
      DashesCounted(a.depth, b.depth, Tail(a), Tail(b));
      TailInjective(a, b);
    }
  }

  lemma {:induction false} LeaveShown(l: Line)
    requires l.Leave?
    ensures Show(l)[1..] == Dashes(l.depth) + (" " + l.name)
  {
    hide Dashes;
  }

  lemma {:induction false} ArrowShown(l: Line)
    requires !l.Leave?
    ensures Show(l) == Dashes(l.depth) + Tail(l)
  {
    hide Dashes;
  }

  lemma TailInjective(a: Line, b: Line)
    requires !a.Leave? && !b.Leave? && a.depth == b.depth
    requires OneWord(a.name) && OneWord(b.name) && Tail(a) == Tail(b)
    ensures a == b
  {
    hide Tail, Shown, OneWord;
    TailParts(a);
    TailParts(b);
    WordSplit(a.name, b.name, Shown(a), Shown(b));
  }

  lemma TailParts(l: Line)
    requires !l.Leave?
    ensures Tail(l)[0] == (if l.Enter? then '>' else '|') && Tail(l)[2..] == l.name + Shown(l)
    ensures l.Enter? ==> l.args == if Shown(l) == "" then "" else Shown(l)[2..|Shown(l)| - 1]
    ensures Shown(l) != "" ==> Shown(l)[0] == ' ' && |Shown(l)| >= 3
  {}

  // Where command names are single words, the printed trace alone tells which
  // calls were made.
  lemma PrintDeterminesCalls(app: App, f: seq<Node>, g: seq<Node>, running: seq<Id>)
    requires AllBound(app, f) && AllBound(app, g) && Aborted(f) == 0 && Aborted(g) == 0
    requires forall c :: OneWord(app.Name(c))
    requires ShowAll(Render(app, f, running)) == ShowAll(Render(app, g, running))
    ensures f == g
  {
    RenderNames(app, f, running);
    RenderNames(app, g, running);
    ShowAllInjective(Render(app, f, running), Render(app, g, running));
    TraceDeterminesCalls(app, f, g, running);
  }

  ghost function ShowAll(lines: seq<Line>): seq<string> {
    if lines == [] then [] else [Show(lines[0])] + ShowAll(lines[1..])
  }

  lemma {:induction false} ShowAllInjective(a: seq<Line>, b: seq<Line>)
    requires forall l :: l in a || l in b ==> OneWord(l.name)
    requires ShowAll(a) == ShowAll(b)
    ensures a == b
  {
    if a != [] && b != [] {
      hide Show, OneWord;
      assert ShowAll(a)[0] == ShowAll(b)[0] && ShowAll(a)[1..] == ShowAll(b)[1..];
      ShowInjective(a[0], b[0]);
      ShowAllInjective(a[1..], b[1..]);
      assert a == [a[0]] + a[1..] && b == [b[0]] + b[1..];
    }
  }

  // Every line names a command.
  lemma {:induction false} RenderNames(app: App, forest: seq<Node>, running: seq<Id>)
    requires forall c :: OneWord(app.Name(c))
    ensures forall l :: l in Render(app, forest, running) ==> OneWord(l.name)
    decreases forest
  {
    hide OneWord;
    if forest != [] {
      RenderNames(app, forest[0].children, running + [forest[0].command]);
      RenderNames(app, forest[1..], StackAfterNode(forest[0], running));
    }
  }

  // ---------- several commands on one command line ----------

  // "a,b,c args": a and b run without arguments before c does.
  function Script(bound: map<string, Id>, names: seq<string>, args: Args): seq<Stmt>
    requires forall n :: n in names ==> n in bound
  {
    if names == [] then []
    else [Call(bound[names[0]], if |names| == 1 then args else "")] + Script(bound, names[1..], args)
  }

  lemma CallMakesOneNode(app: App, name: string, args: Args, fuel: nat)
    requires name in app.bound
    ensures var r := IdealCall(app, name, args, fuel);
            && (r.outcome == OutOfFuel || |r.forest| == 1)
            && |r.forest| <= 1
            && (r.forest != [] ==>
                  r.forest[0].command == app.bound[name] && (r.forest[0].returned <==> r.outcome == Done)
                  && r.forest[0].shown == app.commands(app.bound[name]).display(args))
  {}

  // Activation i is that of the i-th name; only the last is given arguments.
  ghost predicate IsNamed(app: App, names: seq<string>, args: Args, n: Node, i: nat)
    requires i < |names| && names[i] in app.bound
  {
    && n.command == app.bound[names[i]]
    && n.shown == app.commands(n.command).display(if i == |names| - 1 then args else "")
  }

  // One activation for each name, in order, up to the first that fails.
  ghost predicate RanInOrder(app: App, names: seq<string>, args: Args, r: Run)
    requires forall n :: n in names ==> n in app.bound
  {
    && |r.forest| <= |names|
    && (forall i :: 0 <= i < |r.forest| ==> IsNamed(app, names, args, r.forest[i], i))
    && (forall i :: 0 <= i < |r.forest| - 1 ==> r.forest[i].returned)
    && (r.outcome == Done ==> |r.forest| == |names| && forall n :: n in r.forest ==> n.returned)
    && (r.outcome.Threw? ==> r.forest != [] && !r.forest[|r.forest| - 1].returned)
  }

  lemma OneMoreInOrder(app: App, names: seq<string>, args: Args, n: Node, rest: Run)
    requires names != [] && forall m :: m in names ==> m in app.bound
    requires IsNamed(app, names, args, n, 0) && n.returned && RanInOrder(app, names[1..], args, rest)
    ensures RanInOrder(app, names, args, Run([n] + rest.forest, rest.outcome))
  {
    var forest := [n] + rest.forest;
    forall i | 0 <= i < |forest| ensures IsNamed(app, names, args, forest[i], i) {
      if i > 0 {
        assert IsNamed(app, names[1..], args, rest.forest[i - 1], i - 1);
      }
    }
    hide IsNamed;
  }

  lemma {:induction false} NamedInOrder(app: App, names: seq<string>, args: Args, fuel: nat)
    requires app.BoundByName() && forall n :: n in names ==> n in app.bound
    ensures RanInOrder(app, names, args, Ideal(app, Script(app.bound, names, args), None, fuel))
    decreases names
  {
    if names != [] {
      var arg := if |names| == 1 then args else "";
      ScriptStep(app, names, args, fuel);
      CallMakesOneNode(app, names[0], arg, fuel);
      NamedInOrder(app, names[1..], args, fuel);
      hide Ideal, IdealCall, Script;
      var first := IdealCall(app, names[0], arg, fuel);
      if first.outcome == Done {
        assert first.forest == [first.forest[0]];
        hide RanInOrder;
        OneMoreInOrder(app, names, args, first.forest[0],
                       Ideal(app, Script(app.bound, names[1..], args), None, fuel));
      }
    }
  }

  // The first named command, then the rest.
  lemma {:induction false} ScriptStep(app: App, names: seq<string>, args: Args, fuel: nat)
    requires app.BoundByName() && names != [] && forall n :: n in names ==> n in app.bound
    ensures var first := IdealCall(app, names[0], if |names| == 1 then args else "", fuel);
            var rest := Ideal(app, Script(app.bound, names[1..], args), None, fuel);
            Ideal(app, Script(app.bound, names, args), None, fuel)
            == if first.outcome == Done then Run(first.forest + rest.forest, rest.outcome) else first
  {
    hide IdealCall;
    var script := Script(app.bound, names, args);
    assert app.Name(app.bound[names[0]]) == names[0];
    assert script[1..] == Script(app.bound, names[1..], args);
  }

  // The selected command runs last, if the others succeed.
  lemma {:induction false} ScriptSplit(app: App, names: seq<string>, last: string, args: Args, fuel: nat)
    requires app.BoundByName() && last in app.bound && forall n :: n in names ==> n in app.bound
    ensures forall n :: n in names + [last] ==> n in app.bound
    ensures var first := Ideal(app, Script(app.bound, names, ""), None, fuel);
            var selected := IdealCall(app, last, args, fuel);
            Ideal(app, Script(app.bound, names + [last], args), None, fuel)
            == if first.outcome == Done then Run(first.forest + selected.forest, selected.outcome) else first
    decreases |names|
  {
    var all := names + [last];
    ScriptStep(app, all, args, fuel);
    if names == [] {
      assert all[1..] == [];
    } else {
      assert all[0] == names[0] && all[1..] == names[1..] + [last];
      ScriptSplit(app, names[1..], last, args, fuel);
      ScriptStep(app, names, "", fuel);
      hide *;
      var one := IdealCall(app, names[0], "", fuel);
      var rest := Ideal(app, Script(app.bound, names[1..], ""), None, fuel);
      Associates(one.forest, rest.forest, IdealCall(app, last, args, fuel).forest);
    }
  }
}
