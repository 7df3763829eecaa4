// From a Python signature to command parameters, from a parsed command line to
// a call, and what Python makes of that call.
module Signatures {
  import opened Common

  datatype Kind = PositionalOrKeyword | VarPositional | KeywordOnly | VarKeyword

  datatype Value = Empty | NoneValue | Atom(code: int) | Items(items: seq<Value>)

  // inspect.Parameter; default is Empty when there is none.
  datatype Parameter = Parameter(name: string, kind: Kind, default: Value)

  // CommandParameter, as far as calls depend on it.
  datatype CommandParameter =
    CommandParameter(name: string, positional: Option<bool>, optional: bool, multiple: bool, default: Value)

  // The name that carries unparsed arguments.
  const PASSTHROUGH := "passthrough_args"

  // ---------- _process_parameters ----------

  function Declared(cparams: seq<CommandParameter>, name: string): CommandParameter {
    if cparams == [] then CommandParameter(name, None, false, false, NoneValue)
    else if cparams[|cparams| - 1].name == name then cparams[|cparams| - 1]
    else Declared(cparams[..|cparams| - 1], name)
  }

  function OrTrue(positional: Option<bool>): Option<bool> {
    if positional.None? then Some(true) else positional
  }

  function FromSignature(c: CommandParameter, s: Parameter): CommandParameter {
    match s.kind
    case PositionalOrKeyword =>
      if s.default == Empty then c.(positional := OrTrue(c.positional)) else c.(optional := true, default := s.default)
    case VarPositional => c.(positional := OrTrue(c.positional), multiple := true)
    case KeywordOnly => c.(optional := true, default := s.default)
    case VarKeyword => c
  }

  // One entry for each parameter but **kwargs.
  function Derived(cparams: seq<CommandParameter>, sig: seq<Parameter>): seq<CommandParameter> {
    if sig == [] then []
    else
      (if sig[0].kind.VarKeyword? then [] else [FromSignature(Declared(cparams, sig[0].name), sig[0])])
      + Derived(cparams, sig[1..])
  }

  // A dictionary from the decorator's list: a later entry replaces an earlier one.
  function Put(dict: seq<CommandParameter>, c: CommandParameter): seq<CommandParameter> {
    if dict == [] then [c]
    else if dict[0].name == c.name then [c] + dict[1..]
    else [dict[0]] + Put(dict[1..], c)
  }

  function AsDict(cparams: seq<CommandParameter>): seq<CommandParameter> {
    if cparams == [] then [] else Put(AsDict(cparams[..|cparams| - 1]), cparams[|cparams| - 1])
  }

  predicate CatchAll(sig: seq<Parameter>) {
    |sig| == 2 && sig[0].name == "args" && sig[1].name == "kwargs"
  }

  lemma {:induction false} DerivedNext(cparams: seq<CommandParameter>, sig: seq<Parameter>, i: nat,
                                       out: seq<CommandParameter>)
    requires i < |sig|
    ensures out + Derived(cparams, sig[i..])
         == (if sig[i].kind.VarKeyword? then out else out + [FromSignature(Declared(cparams, sig[i].name), sig[i])])
            + Derived(cparams, sig[i + 1..])
  {
    assert sig[i..][1..] == sig[i + 1..];
  }

  function ParametersOf(cparams: seq<CommandParameter>, sig: seq<Parameter>): seq<CommandParameter> {
    if CatchAll(sig) then AsDict(cparams) else Derived(cparams, sig)
  }

  method ProcessParameters(cparams: seq<CommandParameter>, sig: seq<Parameter>) returns (out: seq<CommandParameter>)
    ensures out == ParametersOf(cparams, sig)
  {
    if CatchAll(sig) {
      return AsDict(cparams);
    }
    out := [];
    for i := 0 to |sig|
      invariant out + Derived(cparams, sig[i..]) == Derived(cparams, sig)
    {
      hide Derived;
      DerivedNext(cparams, sig, i, out);
      var s := sig[i];
      var c := Declared(cparams, s.name);
      match s.kind {
        case PositionalOrKeyword =>
          if s.default == Empty {
            if c.positional.None? {
              c := c.(positional := Some(true));
            }
          } else {
            c := c.(optional := true, default := s.default);
          }
        case VarPositional =>
          if c.positional.None? {
            c := c.(positional := Some(true));
          }
          c := c.(multiple := true);
        case VarKeyword =>
          continue;
        case KeywordOnly =>
          c := c.(optional := true, default := s.default);
      }
      out := out + [c];
    }
  }

  // ---------- init ----------

  // The parsed command line: a value for each parameter.
  type Namespace = string -> Value

  predicate ByPosition(p: CommandParameter) {
    p.positional == Some(true) && p.name != PASSTHROUGH
  }

  function ArgsOf(params: seq<CommandParameter>, ns: Namespace): seq<Value> {
    if params == [] then []
    else
      var p := params[0];
      (if !ByPosition(p) then [] else if p.multiple then ItemsOf(ns(p.name)) else [ns(p.name)])
      + ArgsOf(params[1..], ns)
  }

  function ItemsOf(v: Value): seq<Value> {
    if v.Items? then v.items else []
  }

  function KwargsOf(params: seq<CommandParameter>, ns: Namespace): map<string, Value> {
    map n | n in (set p | p in params && p.name != PASSTHROUGH && !ByPosition(p) :: p.name) :: ns(n)
  }

  function WithPassthrough(kwargs: map<string, Value>, passthrough: bool, rest: Value): map<string, Value> {
    if passthrough then kwargs[PASSTHROUGH := rest] else kwargs
  }

  lemma ArgsNext(params: seq<CommandParameter>, i: nat, ns: Namespace, args: seq<Value>)
    requires i < |params|
    ensures var p := params[i];
            args + ArgsOf(params[i..], ns)
            == (if !ByPosition(p) then args else if p.multiple then args + ItemsOf(ns(p.name)) else args + [ns(p.name)])
               + ArgsOf(params[i + 1..], ns)
  {
    hide ByPosition, ItemsOf;
    assert params[i..][1..] == params[i + 1..];
  }

  lemma KwargsNext(params: seq<CommandParameter>, i: nat, ns: Namespace)
    requires i < |params|
    ensures var p := params[i];
            KwargsOf(params[..i + 1], ns)
            == if p.name == PASSTHROUGH || ByPosition(p) then KwargsOf(params[..i], ns)
               else KwargsOf(params[..i], ns)[p.name := ns(p.name)]
  {
    hide ByPosition;
    assert forall p :: p in params[..i + 1] <==> p in params[..i] || p == params[i];
  }

  // unparsed arguments for a command that takes none are an error.
  method Init(params: seq<CommandParameter>, ns: Namespace, passthrough: bool, rest: Value)
    returns (ok: bool, args: seq<Value>, kwargs: map<string, Value>)
    ensures ok <==> passthrough || ItemsOf(rest) == []
    ensures ok ==> args == ArgsOf(params, ns)
    ensures ok ==> kwargs == WithPassthrough(KwargsOf(params, ns), passthrough, rest)
    ensures ok && passthrough ==> "passthrough_args" in kwargs && kwargs["passthrough_args"] == rest
  {
    args, kwargs := [], map[];
    if !passthrough && |ItemsOf(rest)| != 0 {
      return false, [], map[];
    }
    for i := 0 to |params|
      invariant args + ArgsOf(params[i..], ns) == ArgsOf(params, ns)
      invariant kwargs == KwargsOf(params[..i], ns)
    {
      hide KwargsOf, ArgsOf, ItemsOf;
      var p := params[i];
      ArgsNext(params, i, ns, args);
      KwargsNext(params, i, ns);
      if p.name == PASSTHROUGH {
        continue;
      }
      if p.positional == Some(true) {
        if p.multiple {
          args := args + ItemsOf(ns(p.name));
        } else {
          args := args + [ns(p.name)];
        }
      } else {
        kwargs := kwargs[p.name := ns(p.name)];
      }
    }
    assert params[..|params|] == params;
    if passthrough {
      kwargs := kwargs[PASSTHROUGH := rest];
    }
    ok := true;
  }

  // ---------- _get_display_args ----------

  datatype ShownArgument = Bare(value: Value) | Named(name: string, value: Value)

  // Parameter i's share of the display; None is an IndexError.
  function DisplayOne(p: CommandParameter, i: nat, args: seq<Value>, kwargs: map<string, Value>):
      Option<seq<ShownArgument>>
  {
    if p.positional == Some(true) then
      if p.multiple then Some(if i <= |args| then AllBare(args[i..]) else [])
      else if i >= |args| then None
      else if p.optional && args[i] == p.default then Some([])
      else Some([Bare(args[i])])
    else
      var value := if p.name in kwargs then kwargs[p.name] else p.default;
      Some(if value == p.default then [] else [Named(p.name, value)])
  }

  function AllBare(values: seq<Value>): seq<ShownArgument> {
    seq(|values|, k requires 0 <= k < |values| => Bare(values[k]))
  }

  // What is displayed for the parameters from i on.
  function Display(params: seq<CommandParameter>, i: nat, args: seq<Value>, kwargs: map<string, Value>):
      Option<seq<ShownArgument>>
    requires i <= |params|
    decreases |params| - i
  {
    if i == |params| then Some([])
    else
      match DisplayOne(params[i], i, args, kwargs)
      case None => None
      case Some(first) =>
        match Display(params, i + 1, args, kwargs)
        case None => None
        case Some(rest) => Some(first + rest)
  }

  method GetDisplayArgs(params: seq<CommandParameter>, args: seq<Value>, kwargs: map<string, Value>)
    returns (r: Option<seq<ShownArgument>>)
    ensures r == Display(params, 0, args, kwargs)
  {
    var shown: seq<ShownArgument> := [];
    ghost var all := Display(params, 0, args, kwargs);
    if all.Some? {
      assert [] + all.value == all.value;
    }
    for i := 0 to |params|
      invariant Display(params, 0, args, kwargs) == Prefixed(shown, Display(params, i, args, kwargs))
    {
      var p := params[i];
      PrefixedNext(params, i, args, kwargs, shown);
      assert shown + [] == shown;
      hide Display;
      if p.positional == Some(true) {
        if p.multiple {
          if i <= |args| {
            shown := shown + AllBare(args[i..]);
          }
        } else {
          if i >= |args| {
            return None;
          }
          if !(p.optional && args[i] == p.default) {
            shown := shown + [Bare(args[i])];
          }
        }
      } else {
        var value := if p.name in kwargs then kwargs[p.name] else p.default;
        if value != p.default {
          shown := shown + [Named(p.name, value)];
        }
      }
    }
    assert shown + [] == shown;
    r := Some(shown);
  }

  function Prefixed(shown: seq<ShownArgument>, rest: Option<seq<ShownArgument>>): Option<seq<ShownArgument>> {
    if rest.None? then None else Some(shown + rest.value)
  }

  lemma PrefixedNext(params: seq<CommandParameter>, i: nat, args: seq<Value>, kwargs: map<string, Value>,
                     shown: seq<ShownArgument>)
    requires i < |params|
    ensures var one := DisplayOne(params[i], i, args, kwargs);
            Prefixed(shown, Display(params, i, args, kwargs))
            == if one.None? then None else Prefixed(shown + one.value, Display(params, i + 1, args, kwargs))
  {
    hide DisplayOne;
    var one := DisplayOne(params[i], i, args, kwargs);
    var rest := Display(params, i + 1, args, kwargs);
    if one.Some? && rest.Some? {
      assert (shown + one.value) + rest.value == shown + (one.value + rest.value);
    }
  }
}
