// Python's rule for binding a call's arguments to parameters ("Calls", section
// 6.3.4 of the Python Language Reference), and when the calls that plano
// assembles bind every parameter to its own value.
module Calls {
  import opened Common
  import opened Signatures

  // ---------- what Python requires of a signature ----------

  function Rank(k: Kind): nat {
    match k
    case PositionalOrKeyword => 0
    case VarPositional => 1
    case KeywordOnly => 2
    case VarKeyword => 3
  }

  ghost predicate WellFormed(sig: seq<Parameter>) {
    && (forall i, j :: 0 <= i < j < |sig| ==> sig[i].name != sig[j].name)
    && (forall i, j :: 0 <= i < j < |sig| ==> Rank(sig[i].kind) <= Rank(sig[j].kind))
    && (forall i, j :: 0 <= i < j < |sig| && sig[i].kind == sig[j].kind ==>
          sig[i].kind.PositionalOrKeyword? || sig[i].kind.KeywordOnly?)
  }

  // The number of slots that positional arguments can fill.
  function Slots(sig: seq<Parameter>): (n: nat)
    ensures n <= |sig|
  {
    if sig == [] || !sig[0].kind.PositionalOrKeyword? then 0 else 1 + Slots(sig[1..])
  }

  predicate TakesKeyword(p: Parameter) {
    p.kind.PositionalOrKeyword? || p.kind.KeywordOnly?
  }

  predicate Has(sig: seq<Parameter>, k: Kind) {
    exists p :: p in sig && p.kind == k
  }

  // ---------- binding ----------

  // Argument i fills slot i.
  predicate FilledByPosition(sig: seq<Parameter>, args: seq<Value>, i: nat) {
    i < Slots(sig) && i < |args|
  }

  // The call raises no TypeError.
  ghost predicate Binds(sig: seq<Parameter>, args: seq<Value>, kwargs: map<string, Value>) {
    && (|args| <= Slots(sig) || Has(sig, VarPositional))
    && (forall i :: 0 <= i < |sig| && FilledByPosition(sig, args, i) ==> sig[i].name !in kwargs)
    && (forall n :: n in kwargs ==> (exists p :: p in sig && TakesKeyword(p) && p.name == n) || Has(sig, VarKeyword))
    && (forall i :: 0 <= i < |sig| && TakesKeyword(sig[i]) ==>
          FilledByPosition(sig, args, i) || sig[i].name in kwargs || sig[i].default != Empty)
  }

  // The value that parameter i receives; **kwargs aside.
  function Received(sig: seq<Parameter>, args: seq<Value>, kwargs: map<string, Value>, i: nat): Value
    requires i < |sig|
  {
    if sig[i].kind.VarPositional? then Items(if |args| <= Slots(sig) then [] else args[Slots(sig)..])
    else if FilledByPosition(sig, args, i) then args[i]
    else if sig[i].name in kwargs then kwargs[sig[i].name]
    else sig[i].default
  }

  // What **kwargs receives.
  function Extra(sig: seq<Parameter>, kwargs: map<string, Value>): map<string, Value> {
    map n | n in kwargs && !(exists p :: p in sig && TakesKeyword(p) && p.name == n) :: kwargs[n]
  }

  // ---------- plano's calls ----------

  // params describe sig, as _process_parameters makes them.
  ghost predicate Describes(params: seq<CommandParameter>, sig: seq<Parameter>) {
    && |params| == (if sig != [] && sig[|sig| - 1].kind.VarKeyword? then |sig| - 1 else |sig|)
    && forall i :: 0 <= i < |params| ==>
         params[i].name == sig[i].name && (params[i].multiple <==> sig[i].kind.VarPositional?)
  }

  // The namespace holds a list for a *args parameter.
  ghost predicate Fits(sig: seq<Parameter>, ns: Namespace) {
    forall p :: p in sig && p.kind.VarPositional? ==> ns(p.name).Items?
  }

  // Only a passthrough command declares passthrough_args, as a plain or
  // keyword-only parameter.
  ghost predicate PassthroughDeclared(sig: seq<Parameter>, passthrough: bool) {
    forall p :: p in sig && p.name == PASSTHROUGH ==> passthrough && TakesKeyword(p)
  }

  function OwnValue(ns: Namespace, rest: Value, name: string): Value {
    if name == PASSTHROUGH then rest else ns(name)
  }

  function OwnExtra(sig: seq<Parameter>, passthrough: bool, rest: Value): map<string, Value> {
    if passthrough && !(exists p :: p in sig && p.name == PASSTHROUGH) then map[PASSTHROUGH := rest] else map[]
  }

  // Every parameter gets its own value, and no other value goes anywhere.
  ghost predicate BindsOwn(sig: seq<Parameter>, ns: Namespace, passthrough: bool, rest: Value,
                           args: seq<Value>, kwargs: map<string, Value>)
  {
    && Binds(sig, args, kwargs)
    && (forall i :: 0 <= i < |sig| && !sig[i].kind.VarKeyword? ==>
          Received(sig, args, kwargs, i) == OwnValue(ns, rest, sig[i].name))
    && Extra(sig, kwargs) == OwnExtra(sig, passthrough, rest)
  }

  // The side conditions, readable off the declarations and the parsed line:
  // *args is positional and keyword-only parameters are not; nothing is given
  // by position after a plain parameter that is not; unparsed arguments have
  // somewhere to go.
  ghost predicate Assembles(params: seq<CommandParameter>, sig: seq<Parameter>, ns: Namespace, passthrough: bool)
    requires Describes(params, sig)
  {
    && (forall i :: 0 <= i < |params| && sig[i].kind.VarPositional? ==> ByPosition(params[i]))
    && NoKeywordOnlyByPosition(params, sig)
    && InOrder(params, sig, ns)
    && (passthrough ==> (exists p :: p in sig && p.name == PASSTHROUGH) || Has(sig, VarKeyword))
  }

  ghost predicate NoKeywordOnlyByPosition(params: seq<CommandParameter>, sig: seq<Parameter>)
    requires Describes(params, sig)
  {
    forall k :: 0 <= k < |params| && sig[k].kind.KeywordOnly? ==> !ByPosition(params[k])
  }

  // After a plain parameter that is passed by keyword, only an empty *args is
  // given by position.
  ghost predicate InOrder(params: seq<CommandParameter>, sig: seq<Parameter>, ns: Namespace)
    requires Describes(params, sig)
  {
    forall i, k | 0 <= i < k < |params| && sig[i].kind.PositionalOrKeyword? && !ByPosition(params[i]) ::
      ByPosition(params[k]) ==> sig[k].kind.VarPositional? && ItemsOf(ns(params[k].name)) == []
  }
}
