// What a command's parameters are, field by field, and what the trace shows of
// a call's arguments.
module ParameterTheorems {
  import opened Common
  import opened Signatures
  import opened Calls
  import opened CallTheorems

  // ---------- the decorator's entries ----------

  predicate Absent(cparams: seq<CommandParameter>, name: string) {
    forall k :: 0 <= k < |cparams| ==> cparams[k].name != name
  }

  // Entry j is the last of that name.
  predicate IsLast(cparams: seq<CommandParameter>, name: string, j: nat) {
    j < |cparams| && cparams[j].name == name && forall k :: j < k < |cparams| ==> cparams[k].name != name
  }

  lemma LastInFront(cparams: seq<CommandParameter>, name: string, j: nat)
    requires cparams != [] && cparams[|cparams| - 1].name != name
    ensures IsLast(cparams, name, j) <==> IsLast(cparams[..|cparams| - 1], name, j)
  {}

  lemma {:induction false} DeclaredIs(cparams: seq<CommandParameter>, name: string)
    ensures Absent(cparams, name) ==> Declared(cparams, name) == CommandParameter(name, None, false, false, NoneValue)
    ensures forall j: nat :: IsLast(cparams, name, j) ==> Declared(cparams, name) == cparams[j]
  {
    if cparams != [] && cparams[|cparams| - 1].name != name {
      var front := cparams[..|cparams| - 1];
      DeclaredIs(front, name);
      assert Absent(cparams, name) ==> Absent(front, name);
      forall j: nat | IsLast(cparams, name, j) ensures Declared(cparams, name) == cparams[j] {
        LastInFront(cparams, name, j);
        assert cparams[j] == front[j];
      }
    }
  }

  // ---------- parameters taken from a signature ----------

  predicate HasOwnDefault(s: Parameter) {
    s.kind.KeywordOnly? || (s.kind.PositionalOrKeyword? && s.default != Empty)
  }

  // The default is the signature's, if it gives one, and the decorator's
  // otherwise; the positional flag is the decorator's where it is set, and
  // otherwise holds for *args and for a plain parameter without a default.
  predicate TakenFrom(p: CommandParameter, s: Parameter, positional: Option<bool>, default: Value) {
    && p.name == s.name
    && (p.optional <==> HasOwnDefault(s))
    && (p.multiple <==> s.kind.VarPositional?)
    && p.default == (if HasOwnDefault(s) then s.default else default)
    && p.positional == if positional.Some? then positional
                       else if s.kind.VarPositional? then Some(true)
                       else if s.kind.PositionalOrKeyword? && s.default == Empty then Some(true)
                       else None
  }

  lemma {:induction false} DerivedAre(cparams: seq<CommandParameter>, sig: seq<Parameter>, i: nat)
    requires WellFormed(sig)
    requires forall c :: c in cparams ==> !c.multiple && !c.optional
    ensures Describes(Derived(cparams, sig), sig)
    ensures i < |Derived(cparams, sig)| ==>
      var (p, s) := (Derived(cparams, sig)[i], sig[i]);
      && (Absent(cparams, s.name) ==> TakenFrom(p, s, None, NoneValue))
      && (forall j: nat :: IsLast(cparams, s.name, j) ==> TakenFrom(p, s, cparams[j].positional, cparams[j].default))
  {
    DerivedAt(cparams, sig);
    if i < |Derived(cparams, sig)| {
      DeclaredIs(cparams, sig[i].name);
      KindAt(cparams, sig, i);
      hide Derived, WellFormed, Declared, Absent, IsLast;
      var (p, s) := (Derived(cparams, sig)[i], sig[i]);
      assert p == FromSignature(Declared(cparams, s.name), s);
    }
  }

  // One parameter for each of the signature's but **kwargs.  What the decorator
  // says of it is in the last entry of its name.
  lemma ParametersAre(cparams: seq<CommandParameter>, sig: seq<Parameter>, i: nat)
    requires WellFormed(sig) && !(|sig| == 2 && sig[0].name == "args" && sig[1].name == "kwargs")
    requires forall c :: c in cparams ==> !c.multiple && !c.optional
    ensures |ParametersOf(cparams, sig)| == |sig| - (if sig != [] && sig[|sig| - 1].kind.VarKeyword? then 1 else 0)
    ensures i < |ParametersOf(cparams, sig)| ==>
      var (p, s) := (ParametersOf(cparams, sig)[i], sig[i]);
      && (Absent(cparams, s.name) ==> TakenFrom(p, s, None, NoneValue))
      && (forall j: nat :: IsLast(cparams, s.name, j) ==> TakenFrom(p, s, cparams[j].positional, cparams[j].default))
  {
    DerivedAre(cparams, sig, i);
    hide Derived, WellFormed, Absent, IsLast, TakenFrom;
  }

  lemma KindAt(cparams: seq<CommandParameter>, sig: seq<Parameter>, i: nat)
    requires WellFormed(sig) && Describes(Derived(cparams, sig), sig) && i < |Derived(cparams, sig)|
    ensures !sig[i].kind.VarKeyword?
  {
    var last := |sig| - 1;
    assert i <= last && Rank(sig[i].kind) <= Rank(sig[last].kind);
  }

  // ---------- parameters taken from the decorator alone ----------

  lemma {:induction false} PutNew(dict: seq<CommandParameter>, c: CommandParameter)
    requires Absent(dict, c.name)
    ensures Put(dict, c) == dict + [c]
  {
    if dict != [] {
      PutNew(dict[1..], c);
      assert dict == [dict[0]] + dict[1..];
    }
  }

  lemma {:induction false} PutOld(dict: seq<CommandParameter>, c: CommandParameter, a: nat)
    requires a < |dict| && dict[a].name == c.name && Absent(dict[..a], c.name)
    ensures Put(dict, c) == dict[a := c]
  {
    if a > 0 {
      assert dict[..a][0] == dict[0] && dict[..a][1..] == dict[1..][..a - 1];
      PutOld(dict[1..], c, a - 1);
      assert dict[a := c] == [dict[0]] + dict[1..][a - 1 := c];
    } else {
      assert dict[0 := c] == [c] + dict[1..];
    }
  }

  lemma PutEither(dict: seq<CommandParameter>, c: CommandParameter)
    requires Distinct(dict)
    ensures if Absent(dict, c.name) then Put(dict, c) == dict + [c]
            else exists a: nat :: a < |dict| && dict[a].name == c.name && Put(dict, c) == dict[a := c]
  {
    hide Put;
    if a: nat :| a < |dict| && dict[a].name == c.name {
      PutOld(dict, c, a);
    } else {
      PutNew(dict, c);
    }
  }

  predicate Distinct(dict: seq<CommandParameter>) {
    forall a, b :: 0 <= a < b < |dict| ==> dict[a].name != dict[b].name
  }

  // e is what the last entry of its name says.
  ghost predicate Holds(cparams: seq<CommandParameter>, e: CommandParameter) {
    exists j: nat :: IsLast(cparams, e.name, j) && cparams[j] == e
  }

  ghost predicate HoldsLast(dict: seq<CommandParameter>, cparams: seq<CommandParameter>) {
    forall a :: 0 <= a < |dict| ==> Holds(cparams, dict[a])
  }

  ghost predicate HoldsAll(dict: seq<CommandParameter>, cparams: seq<CommandParameter>) {
    forall c :: c in cparams ==> !Absent(dict, c.name)
  }

  // Before every entry named y comes one named x.
  ghost predicate AppearsBefore(cparams: seq<CommandParameter>, x: string, y: string) {
    forall j :: 0 <= j < |cparams| && cparams[j].name == y ==> !Absent(cparams[..j], x)
  }

  ghost predicate ByFirstAppearance(dict: seq<CommandParameter>, cparams: seq<CommandParameter>) {
    forall a, b :: 0 <= a < b < |dict| ==> AppearsBefore(cparams, dict[a].name, dict[b].name)
  }

  // For a function of the two parameters args and kwargs: one parameter for each
  // name in the decorator, as the last entry of that name says, in the order in
  // which the names first appear.
  lemma {:induction false} DictionaryIs(cparams: seq<CommandParameter>, sig: seq<Parameter>)
    requires |sig| == 2 && sig[0].name == "args" && sig[1].name == "kwargs"
    ensures var dict := ParametersOf(cparams, sig);
            Distinct(dict) && HoldsLast(dict, cparams) && HoldsAll(dict, cparams) && ByFirstAppearance(dict, cparams)
  {
    AsDictIs(cparams);
  }

  lemma {:induction false} AsDictIs(cparams: seq<CommandParameter>)
    ensures Distinct(AsDict(cparams)) && HoldsLast(AsDict(cparams), cparams)
    ensures HoldsAll(AsDict(cparams), cparams) && ByFirstAppearance(AsDict(cparams), cparams)
  {
    if cparams != [] {
      var n := |cparams| - 1;
      var (first, c) := (cparams[..n], cparams[n]);
      var dict := AsDict(first);
      assert cparams == first + [c];
      AsDictIs(first);
      assert AsDict(cparams) == Put(dict, c);
      PutEither(dict, c);
      hide *;
      if Absent(dict, c.name) {
        NewName(dict, first, c);
      } else {
        var a: nat :| a < |dict| && dict[a].name == c.name && Put(dict, c) == dict[a := c];
        OldName(dict, first, c, a);
      }
    }
  }

  lemma HoldsLonger(first: seq<CommandParameter>, c: CommandParameter, e: CommandParameter)
    requires e == c || (e.name != c.name && Holds(first, e))
    ensures Holds(first + [c], e)
  {
    if e == c {
      assert IsLast(first + [c], c.name, |first|);
    } else {
      var j: nat :| IsLast(first, e.name, j) && first[j] == e;
      assert IsLast(first + [c], e.name, j);
    }
  }

  lemma AppearsLonger(first: seq<CommandParameter>, c: CommandParameter, x: string, y: string)
    requires AppearsBefore(first, x, y) && (y == c.name ==> !Absent(first, x))
    ensures AppearsBefore(first + [c], x, y)
  {
    var all := first + [c];
    forall j | 0 <= j < |all| && all[j].name == y ensures !Absent(all[..j], x) {
      assert all[..j] == first[..j];
      assert j == |first| ==> all[..j] == first;
    }
  }

  lemma HeldNameAppears(first: seq<CommandParameter>, e: CommandParameter)
    requires Holds(first, e)
    ensures !Absent(first, e.name)
  {
    var j: nat :| IsLast(first, e.name, j) && first[j] == e;
    assert first[j].name == e.name;
  }

  lemma NameNotYet(dict: seq<CommandParameter>, first: seq<CommandParameter>, x: string, name: string)
    requires HoldsAll(dict, first) && Absent(dict, name)
    ensures AppearsBefore(first, x, name)
  {
    forall k | 0 <= k < |first| ensures first[k].name != name {
      assert first[k] in first;
    }
  }

  lemma KeepsAll(dict: seq<CommandParameter>, dict': seq<CommandParameter>, first: seq<CommandParameter>,
                 c: CommandParameter)
    requires HoldsAll(dict, first) && |dict| <= |dict'| && !Absent(dict', c.name)
    requires forall a :: 0 <= a < |dict| ==> dict'[a].name == dict[a].name
    ensures HoldsAll(dict', first + [c])
  {
    forall x | x in first + [c] ensures !Absent(dict', x.name) {
      if x in first {
        var a :| 0 <= a < |dict| && dict[a].name == x.name;
        assert dict'[a].name == x.name;
      }
    }
  }

  lemma {:induction false} NewName(dict: seq<CommandParameter>, first: seq<CommandParameter>, c: CommandParameter)
    requires Distinct(dict) && HoldsLast(dict, first) && HoldsAll(dict, first) && ByFirstAppearance(dict, first)
    requires Absent(dict, c.name)
    ensures var (dict', all) := (dict + [c], first + [c]);
            Distinct(dict') && HoldsLast(dict', all) && HoldsAll(dict', all) && ByFirstAppearance(dict', all)
  {
    var (dict', all) := (dict + [c], first + [c]);
    assert dict'[|dict|].name == c.name;
    KeepsAll(dict, dict', first, c);
    hide Holds, HoldsAll, AppearsBefore;
    forall a | 0 <= a < |dict'| ensures Holds(all, dict'[a]) {
      HoldsLonger(first, c, dict'[a]);
    }
    forall a, b | 0 <= a < b < |dict'| ensures AppearsBefore(all, dict'[a].name, dict'[b].name) {
      HeldNameAppears(first, dict[a]);
      NameNotYet(dict, first, dict[a].name, c.name);
      AppearsLonger(first, c, dict'[a].name, dict'[b].name);
    }
  }

  lemma {:induction false} OldName(dict: seq<CommandParameter>, first: seq<CommandParameter>, c: CommandParameter,
                                   at: nat)
    requires Distinct(dict) && HoldsLast(dict, first) && HoldsAll(dict, first) && ByFirstAppearance(dict, first)
    requires at < |dict| && dict[at].name == c.name
    ensures var (dict', all) := (dict[at := c], first + [c]);
            Distinct(dict') && HoldsLast(dict', all) && HoldsAll(dict', all) && ByFirstAppearance(dict', all)
  {
    var (dict', all) := (dict[at := c], first + [c]);
    assert dict'[at].name == c.name;
    KeepsAll(dict, dict', first, c);
    hide Holds, HoldsAll, AppearsBefore, Absent;
    forall a | 0 <= a < |dict'| ensures Holds(all, dict'[a]) {
      HoldsLonger(first, c, dict'[a]);
    }
    forall a, b | 0 <= a < b < |dict'| ensures AppearsBefore(all, dict'[a].name, dict'[b].name) {
      HeldNameAppears(first, dict[a]);
      AppearsLonger(first, c, dict'[a].name, dict'[b].name);
    }
  }

  // ---------- what the trace shows ----------

  // Parameter p, at index i, is shown as these.  An argument of a list parameter
  // stands bare, like a positional one; an optional one that equals its default
  // is left out, and so is a keyword argument that does; a keyword argument
  // stands under its own name.
  predicate ShownAs(p: CommandParameter, i: nat, args: seq<Value>, kwargs: map<string, Value>,
                    part: seq<ShownArgument>)
  {
    if p.positional == Some(true) && p.multiple then
      && |part| == (if i <= |args| then |args| - i else 0)
      && forall k :: 0 <= k < |part| ==> part[k] == Bare(args[i + k])
    else if p.positional == Some(true) then
      i < |args| && if p.optional && args[i] == p.default then part == [] else part == [Bare(args[i])]
    else if p.name in kwargs && kwargs[p.name] != p.default then
      part == [Named(p.name, kwargs[p.name])]
    else
      part == []
  }

  function Flattened(parts: seq<seq<ShownArgument>>): seq<ShownArgument> {
    if parts == [] then [] else parts[0] + Flattened(parts[1..])
  }

  // The display shows each parameter in turn.
  ghost predicate ShowsInTurn(params: seq<CommandParameter>, i: nat, args: seq<Value>, kwargs: map<string, Value>,
                              parts: seq<seq<ShownArgument>>)
  {
    && i + |parts| == |params|
    && forall k :: 0 <= k < |parts| ==> ShownAs(params[i + k], i + k, args, kwargs, parts[k])
  }

  lemma {:induction false} DisplayShows(params: seq<CommandParameter>, i: nat, args: seq<Value>,
                                        kwargs: map<string, Value>)
    requires i <= |params| && Display(params, i, args, kwargs).Some?
    ensures exists parts :: ShowsInTurn(params, i, args, kwargs, parts)
                         && Display(params, i, args, kwargs).value == Flattened(parts)
    decreases |params| - i
  {
    if i == |params| {
      assert ShowsInTurn(params, i, args, kwargs, []) && Flattened([]) == [];
    } else {
      DisplayShows(params, i + 1, args, kwargs);
      var rest :| ShowsInTurn(params, i + 1, args, kwargs, rest)
                  && Display(params, i + 1, args, kwargs).value == Flattened(rest);
      var part := DisplayOne(params[i], i, args, kwargs).value;
      OnePart(params[i], i, args, kwargs);
      hide ShownAs, DisplayOne;
      var parts := [part] + rest;
      assert parts[1..] == rest;
      forall k | 0 <= k < |parts| ensures ShownAs(params[i + k], i + k, args, kwargs, parts[k]) {
        assert k > 0 ==> ShownAs(params[i + 1 + (k - 1)], i + 1 + (k - 1), args, kwargs, rest[k - 1]);
      }
      assert ShowsInTurn(params, i, args, kwargs, parts);
    }
  }

  lemma OnePart(p: CommandParameter, i: nat, args: seq<Value>, kwargs: map<string, Value>)
    requires DisplayOne(p, i, args, kwargs).Some?
    ensures ShownAs(p, i, args, kwargs, DisplayOne(p, i, args, kwargs).value)
  {}
}
