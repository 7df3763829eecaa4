// working_env: environment variables set for a scope and put back after it.
module Environ {
  type Env = map<string, string>

  // What a working_env call is given; the names of a dictionary are distinct.
  datatype Vars = Vars(amend: bool, names: seq<string>, value: string -> string)

  ghost predicate Distinct(names: seq<string>) {
    forall i, j :: 0 <= i < j < |names| ==> names[i] != names[j]
  }

  datatype Result = Result(env: Env, ok: bool)

  function SetAll(env: Env, names: seq<string>, value: string -> string): Env {
    if names == [] then env
    else SetAll(env, names[..|names| - 1], value)[names[|names| - 1] := value(names[|names| - 1])]
  }

  // del of each listed name that was not there before; a missing one raises.
  function DeleteNew(env: Env, names: seq<string>, before: Env): Result {
    if names == [] then Result(env, true)
    else if names[0] in before then DeleteNew(env, names[1..], before)
    else if names[0] !in env then Result(env, false)
    else DeleteNew(env - {names[0]}, names[1..], before)
  }

  function Entered(env: Env, vars: Vars): Env {
    SetAll(if vars.amend then env else (map n | n in env && n in vars.names :: env[n]), vars.names, vars.value)
  }

  function Left(before: Env, vars: Vars, env: Env): Result {
    DeleteNew(env + before, vars.names, before)
  }

  // What the body of a scope finds: each listed name has its given value; every
  // other name is as it was with amend, and is gone without.
  ghost predicate Inside(vars: Vars, before: Env, env: Env) {
    && (forall n :: n in vars.names ==> n in env && env[n] == vars.value(n))
    && (forall n :: n !in vars.names ==>
          if vars.amend && n in before then n in env && env[n] == before[n] else n !in env)
  }

  // ---------- in place ----------

  class Process {
    var environ: Env
  }

  class WorkingEnv {
    const vars: Vars
    var prevVars: Env

    constructor (vars: Vars)
      ensures this.vars == vars
    {
      this.vars := vars;
      prevVars := map[];
    }

    method EnterScope(os: Process)
      modifies this, os
      ensures prevVars == old(os.environ)
      ensures os.environ == Entered(old(os.environ), vars)
      ensures Inside(vars, old(os.environ), os.environ)
    {
      prevVars := os.environ;
      if !vars.amend {
        ghost var kept := map n | n in os.environ && n in vars.names :: os.environ[n];
        var left := os.environ.Keys;
        while left != {}
          invariant left <= prevVars.Keys && prevVars == old(os.environ)
          invariant os.environ == map n | n in prevVars && (n in left || n in vars.names) :: prevVars[n]
        {
          var name :| name in left;
          if name !in vars.names {
            os.environ := os.environ - {name};
          }
          left := left - {name};
        }
        assert os.environ == kept;
      }
      ghost var base := os.environ;
      for i := 0 to |vars.names|
        invariant os.environ == SetAll(base, vars.names[..i], vars.value)
        invariant prevVars == old(os.environ)
      {
        assert vars.names[..i + 1][..i] == vars.names[..i];
        os.environ := os.environ[vars.names[i] := vars.value(vars.names[i])];
      }
      assert vars.names[..|vars.names|] == vars.names;
      EnteredAt(prevVars, vars);
    }

    // False stands for the KeyError of deleting a name that is gone.
    method ExitScope(os: Process) returns (ok: bool)
      modifies os
      ensures Result(os.environ, ok) == Left(prevVars, vars, old(os.environ))
    {
      var left := prevVars.Keys;
      while left != {}
        invariant left <= prevVars.Keys
        invariant os.environ == old(os.environ) + (map n | n in prevVars && n !in left :: prevVars[n])
      {
        var name :| name in left;
        os.environ := os.environ[name := prevVars[name]];
        left := left - {name};
      }
      assert os.environ == old(os.environ) + prevVars;
      for i := 0 to |vars.names|
        invariant DeleteNew(os.environ, vars.names[i..], prevVars) == Left(prevVars, vars, old(os.environ))
      {
        assert vars.names[i..][1..] == vars.names[i + 1..];
        if vars.names[i] !in prevVars {
          if vars.names[i] !in os.environ {
            return false;
          }
          os.environ := os.environ - {vars.names[i]};
        }
      }
      ok := true;
    }
  }

  // ---------- what entering and leaving do to each name ----------

  function Lookup(env: Env, n: string): set<string> {
    if n in env then {env[n]} else {}
  }

  lemma {:induction false} SetAllAt(env: Env, names: seq<string>, value: string -> string, n: string)
    ensures Lookup(SetAll(env, names, value), n) == if n in names then {value(n)} else Lookup(env, n)
  {
    if names != [] {
      var k := |names| - 1;
      SetAllAt(env, names[..k], value, n);
      assert names == names[..k] + [names[k]];
    }
  }

  // env without the listed names that were not there before.
  function Stripped(env: Env, names: seq<string>, before: Env): Env {
    map n | n in env && !(n in names && n !in before) :: env[n]
  }

  // The first listed name that was not there before and is gone.
  ghost predicate FirstGone(env: Env, names: seq<string>, before: Env, i: int) {
    && 0 <= i < |names| && names[i] !in before && names[i] !in env
    && forall j :: 0 <= j < i ==> names[j] in before || names[j] in env
  }

  lemma EnteredAt(before: Env, vars: Vars)
    ensures Inside(vars, before, Entered(before, vars))
  {
    var kept := if vars.amend then before else (map n | n in before && n in vars.names :: before[n]);
    forall n
      ensures Lookup(Entered(before, vars), n) == if n in vars.names then {vars.value(n)} else Lookup(kept, n)
      ensures n in Entered(before, vars) <==> n in vars.names || n in kept
    {
      SetAllAt(kept, vars.names, vars.value, n);
      assert Lookup(Entered(before, vars), n) != {} <==> n in Entered(before, vars);
    }
  }

  lemma {:induction false} DeleteNewAt(env: Env, names: seq<string>, before: Env)
    requires Distinct(names)
    ensures var r := DeleteNew(env, names, before);
            && (r.ok <==> forall n :: n in names && n !in before ==> n in env)
            && (r.ok ==> r.env == Stripped(env, names, before))
            && (!r.ok ==> exists i :: FirstGone(env, names, before, i) && r.env == Stripped(env, names[..i], before))
            && (forall n :: n in before && n in env ==> n in r.env && r.env[n] == env[n])
    decreases |names|
  {
    if names != [] {
      assert names == [names[0]] + names[1..];
      assert names[0] !in names[1..];
      if names[0] in before {
        DeleteNewAt(env, names[1..], before);
        OneLess(env, env, names, before);
      } else if names[0] in env {
        DeleteNewAt(env - {names[0]}, names[1..], before);
        OneLess(env, env - {names[0]}, names, before);
      } else {
        assert FirstGone(env, names, before, 0) && Stripped(env, names[..0], before) == env;
      }
    }
  }

  lemma OneLess(env: Env, next: Env, names: seq<string>, before: Env)
    requires Distinct(names) && names != []
    requires if names[0] in before then next == env else names[0] in env && next == env - {names[0]}
    ensures Stripped(next, names[1..], before) == Stripped(env, names, before)
    ensures forall i :: FirstGone(next, names[1..], before, i) ==>
      FirstGone(env, names, before, i + 1)
      && Stripped(next, names[1..][..i], before) == Stripped(env, names[..i + 1], before)
  {
    assert names == [names[0]] + names[1..];
    forall i | FirstGone(next, names[1..], before, i)
      ensures FirstGone(env, names, before, i + 1)
      ensures Stripped(next, names[1..][..i], before) == Stripped(env, names[..i + 1], before)
    {
      assert names[..i + 1] == [names[0]] + names[1..][..i];
      assert forall j :: 0 < j < i + 1 ==> names[j] == names[1..][j - 1] && names[j] != names[0];
    }
  }

  // Leaving fails just when a name that the scope had added is gone.  If it
  // does not fail, the environment is the one found on entry, laid over what
  // the body left without the names the scope had added.  If it
  // fails, only the names before the first missing one are taken out.
  lemma LeavingRestores(before: Env, vars: Vars, body: Env)
    requires Distinct(vars.names)
    ensures var r := Left(before, vars, body);
            && (r.ok <==> forall n :: n in vars.names && n !in before ==> n in body)
            && (r.ok ==> r.env == Stripped(body, vars.names, before) + before)
            && (!r.ok ==> exists i :: FirstGone(body, vars.names, before, i)
                                   && r.env == Stripped(body, vars.names[..i], before) + before)
  {
    DeleteNewAt(body + before, vars.names, before);
    LaidOver(body, before);
    hide DeleteNew, FirstGone, Stripped;
  }

  lemma LaidOver(body: Env, before: Env)
    ensures forall names, i :: FirstGone(body + before, names, before, i) <==> FirstGone(body, names, before, i)
    ensures forall names :: Stripped(body + before, names, before) == Stripped(body, names, before) + before
  {}

  // Failing or not, every variable found on entry has its value again.
  lemma OldValuesReturn(before: Env, vars: Vars, body: Env)
    requires Distinct(vars.names)
    ensures forall n :: n in before ==> Lookup(Left(before, vars, body).env, n) == Lookup(before, n)
  {
    DeleteNewAt(body + before, vars.names, before);
  }

  // ---------- programs ----------

  datatype Stmt =
    | Set(name: string, value: string)
    | Delete(name: string)
    | Raise
    | Catch(body: seq<Stmt>)
    | Scope(vars: Vars, scoped: seq<Stmt>)

  ghost predicate WellFormed(stmts: seq<Stmt>) {
    stmts != [] ==>
      && WellFormed(stmts[1..])
      && match stmts[0]
         case Catch(body) => WellFormed(body)
         case Scope(vars, body) => Distinct(vars.names) && WellFormed(body)
         case _ => true
  }

  // ok is false when an exception leaves the statements; scopes are left
  // either way.
  function Run(env: Env, stmts: seq<Stmt>): Result
    decreases stmts
  {
    if stmts == [] then Result(env, true)
    else
      var r := RunOne(env, stmts[0]);
      if r.ok then Run(r.env, stmts[1..]) else r
  }

  function RunOne(env: Env, s: Stmt): Result
    decreases s
  {
    match s
    case Set(n, v) => Result(env[n := v], true)
    case Delete(n) => Result(env - {n}, n in env)
    case Raise => Result(env, false)
    case Catch(body) => Result(Run(env, body).env, true)
    case Scope(vars, body) =>
      var inner := Run(Entered(env, vars), body);
      var left := Left(env, vars, inner.env);
      Result(left.env, left.ok && inner.ok)
  }

  // Statements that touch the environment through scopes alone.
  ghost predicate ScopesOnly(stmts: seq<Stmt>) {
    stmts != [] ==>
      && ScopesOnly(stmts[1..])
      && match stmts[0]
         case Set(_, _) => false
         case Delete(_) => false
         case Raise => true
         case Catch(body) => ScopesOnly(body)
         case Scope(_, body) => ScopesOnly(body)
  }

  // However scopes nest, amending or not, and whatever exceptions cross them,
  // the environment comes back exactly.
  lemma {:induction false} ScopesRestore(env: Env, stmts: seq<Stmt>)
    requires WellFormed(stmts) && ScopesOnly(stmts)
    ensures Run(env, stmts).env == env
    decreases stmts
  {
    if stmts != [] {
      match stmts[0] {
        case Catch(body) => ScopesRestore(env, body);
        case Scope(vars, body) =>
          ScopesRestore(Entered(env, vars), body);
          ScopeUndone(env, vars);
        case Raise =>
        case Set(_, _) =>
        case Delete(_) =>
      }
      if RunOne(env, stmts[0]).ok {
        ScopesRestore(env, stmts[1..]);
      }
    }
  }

  lemma ScopeUndone(env: Env, vars: Vars)
    requires Distinct(vars.names)
    ensures Left(env, vars, Entered(env, vars)) == Result(env, true)
  {
    var body := Entered(env, vars);
    LeavingRestores(env, vars, body);
    var kept := if vars.amend then env else (map n | n in env && n in vars.names :: env[n]);
    forall n ensures Lookup(body, n) == if n in vars.names then {vars.value(n)} else Lookup(kept, n) {
      SetAllAt(kept, vars.names, vars.value, n);
    }
    forall n ensures n in body <==> n in vars.names || n in kept {
      assert Lookup(body, n) == if n in vars.names then {vars.value(n)} else Lookup(kept, n);
    }
  }

  ghost predicate DeleteFree(stmts: seq<Stmt>) {
    stmts != [] ==>
      && DeleteFree(stmts[1..])
      && match stmts[0]
         case Delete(_) => false
         case Catch(body) => DeleteFree(body)
         case Scope(_, body) => DeleteFree(body)
         case _ => true
  }

  // Without deletes no name is lost, so leaving a scope never fails.
  lemma {:induction false} DeleteFreeKeepsNames(env: Env, stmts: seq<Stmt>)
    requires WellFormed(stmts) && DeleteFree(stmts)
    ensures env.Keys <= Run(env, stmts).env.Keys
    decreases stmts
  {
    if stmts != [] {
      match stmts[0] {
        case Set(_, _) =>
        case Delete(_) =>
        case Raise =>
        case Catch(body) => DeleteFreeKeepsNames(env, body);
        case Scope(vars, body) =>
          var inner := Run(Entered(env, vars), body).env;
          DeleteFreeKeepsNames(Entered(env, vars), body);
          LeavingRestores(env, vars, inner);
          OldValuesReturn(env, vars, inner);
          assert forall n :: n in env ==> Lookup(Left(env, vars, inner).env, n) == Lookup(env, n);
          assert forall n :: n in env ==> n in Left(env, vars, inner).env;
      }
      if RunOne(env, stmts[0]).ok {
        DeleteFreeKeepsNames(RunOne(env, stmts[0]).env, stmts[1..]);
      }
    }
  }

  lemma DeleteFreeLeaves(env: Env, vars: Vars, body: seq<Stmt>)
    requires Distinct(vars.names) && WellFormed(body) && DeleteFree(body)
    ensures Left(env, vars, Run(Entered(env, vars), body).env).ok
  {
    DeleteFreeKeepsNames(Entered(env, vars), body);
    LeavingRestores(env, vars, Run(Entered(env, vars), body).env);
    var kept := if vars.amend then env else (map n | n in env && n in vars.names :: env[n]);
    forall n | n in vars.names ensures n in Entered(env, vars) {
      SetAllAt(kept, vars.names, vars.value, n);
    }
  }
}
