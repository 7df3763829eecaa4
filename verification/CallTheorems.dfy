// The calls that plano assembles are right just when Assembles says so.
module CallTheorems {
  import opened Common
  import opened Signatures
  import opened Calls

  // ---------- shapes ----------

  // The leading parameters given by position, among the first n.
  function Lead(params: seq<CommandParameter>, n: nat): (r: nat)
    ensures r <= n && r <= |params|
    ensures forall k :: 0 <= k < r ==> ByPosition(params[k])
    ensures r < n && r < |params| ==> !ByPosition(params[r])
  {
    if n > 0 && params != [] && ByPosition(params[0]) then
      var rest := Lead(params[1..], n - 1);
      assert forall k :: 1 <= k < 1 + rest ==> params[k] == params[1..][k - 1];
      1 + rest
    else 0
  }

  lemma {:induction false} SlotKinds(sig: seq<Parameter>)
    requires WellFormed(sig)
    ensures forall i :: 0 <= i < |sig| ==> (sig[i].kind.PositionalOrKeyword? <==> i < Slots(sig))
  {
    if sig != [] {
      assert WellFormed(sig[1..]);
      SlotKinds(sig[1..]);
      forall i | 0 <= i < |sig| ensures sig[i].kind.PositionalOrKeyword? <==> i < Slots(sig) {
        if i > 0 {
          assert sig[i] == sig[1..][i - 1];
          assert Rank(sig[0].kind) <= Rank(sig[i].kind);
        }
      }
    }
  }

  // *args, if there is one, comes right after the slots.
  lemma {:induction false} StarFollowsSlots(sig: seq<Parameter>, v: nat)
    requires WellFormed(sig) && v < |sig| && sig[v].kind.VarPositional?
    ensures v == Slots(sig)
  {
    SlotKinds(sig);
    var n := Slots(sig);
    assert n <= v && Rank(sig[n].kind) <= Rank(sig[v].kind);
    assert sig[n].kind == sig[v].kind;
  }

  lemma {:induction false} ArgsLead(params: seq<CommandParameter>, ns: Namespace, j: nat)
    requires j <= |params|
    requires forall k :: 0 <= k < j ==> ByPosition(params[k]) && !params[k].multiple
    ensures var args := ArgsOf(params, ns);
            && |args| == j + |ArgsOf(params[j..], ns)|
            && (forall k :: 0 <= k < j ==> args[k] == ns(params[k].name))
            && args[j..] == ArgsOf(params[j..], ns)
  {
    if j > 0 {
      ArgsLead(params[1..], ns, j - 1);
      assert params[1..][j - 1..] == params[j..];
      var args := ArgsOf(params, ns);
      assert args == [ns(params[0].name)] + ArgsOf(params[1..], ns);
      forall k | 0 <= k < j ensures args[k] == ns(params[k].name) {
        if k > 0 {
          assert params[k] == params[1..][k - 1];
        }
      }
    }
  }

  lemma {:induction false} NothingGiven(params: seq<CommandParameter>, ns: Namespace)
    ensures ArgsOf(params, ns) == [] <==>
      forall k :: 0 <= k < |params| && ByPosition(params[k]) ==> params[k].multiple && ItemsOf(ns(params[k].name)) == []
  {
    if params != [] {
      NothingGiven(params[1..], ns);
      assert forall k :: 1 <= k < |params| ==> params[k] == params[1..][k - 1];
    }
  }

  lemma KwargsAt(params: seq<CommandParameter>, ns: Namespace, passthrough: bool, rest: Value, n: string)
    ensures var kwargs := WithPassthrough(KwargsOf(params, ns), passthrough, rest);
            && (n in kwargs <==>
                  (n == PASSTHROUGH && passthrough)
                  || (n != PASSTHROUGH && exists p :: p in params && p.name == n && !ByPosition(p)))
            && (n in kwargs ==> kwargs[n] == OwnValue(ns, rest, n))
  {}

  // ---------- the arguments given by position ----------

  // Leading values in order, then what *args and misplaced parameters add.
  lemma ArgsShape(params: seq<CommandParameter>, sig: seq<Parameter>, ns: Namespace)
    requires WellFormed(sig) && Describes(params, sig)
    ensures Slots(sig) <= |params|
    ensures var (lead, args) := (Lead(params, Slots(sig)), ArgsOf(params, ns));
            && |args| == lead + |ArgsOf(params[lead..], ns)|
            && (forall k :: 0 <= k < lead ==> args[k] == ns(params[k].name))
            && args[lead..] == ArgsOf(params[lead..], ns)
  {
    SlotKinds(sig);
    var lead := Lead(params, Slots(sig));
    forall k | 0 <= k < lead ensures ByPosition(params[k]) && !params[k].multiple {
      assert sig[k].kind.PositionalOrKeyword?;
    }
    ArgsLead(params, ns, lead);
  }

  // The items that *args adds.
  ghost function StarItems(params: seq<CommandParameter>, sig: seq<Parameter>, ns: Namespace): seq<Value>
    requires Describes(params, sig)
  {
    var n := Slots(sig);
    if n < |params| && sig[n].kind.VarPositional? then ItemsOf(ns(sig[n].name)) else []
  }

  // With every slot given by position, what follows is *args's items and then
  // any keyword-only parameter given by position.
  lemma {:induction false} ArgsAfterSlots(params: seq<CommandParameter>, sig: seq<Parameter>, ns: Namespace)
    requires WellFormed(sig) && Describes(params, sig) && Slots(sig) <= |params|
    requires forall i :: 0 <= i < |params| && sig[i].kind.VarPositional? ==> ByPosition(params[i])
    ensures StarItems(params, sig, ns) <= ArgsOf(params[Slots(sig)..], ns)
    ensures ArgsOf(params[Slots(sig)..], ns) == StarItems(params, sig, ns) <==> NoKeywordOnlyByPosition(params, sig)
  {
    var n := Slots(sig);
    if n < |params| && sig[n].kind.VarPositional? {
      assert params[n..][1..] == params[n + 1..] && params[n..][0] == params[n];
      KeywordOnlyTail(params, sig, ns, n + 1);
      assert ArgsOf(params[n..], ns) == StarItems(params, sig, ns) + ArgsOf(params[n + 1..], ns);
    } else {
      KeywordOnlyTail(params, sig, ns, n);
    }
  }

  lemma {:induction false} KeywordOnlyTail(params: seq<CommandParameter>, sig: seq<Parameter>, ns: Namespace, m: nat)
    requires WellFormed(sig) && Describes(params, sig) && m <= |params|
    requires m == Slots(sig) || m == Slots(sig) + 1
    requires m == Slots(sig) ==> m < |params| ==> !sig[m].kind.VarPositional?
    requires m > Slots(sig) ==> sig[m - 1].kind.VarPositional?
    ensures ArgsOf(params[m..], ns) == [] <==> NoKeywordOnlyByPosition(params, sig)
  {
    forall k | 0 <= k < |params| ensures k >= m <==> sig[k].kind.KeywordOnly? {
      KindAfterSlots(params, sig, k);
    }
    NoneGivenFrom(params, ns, m);
    hide ArgsOf, ByPosition, WellFormed;
    assert forall k :: m <= k < |params| ==> !params[k].multiple;
  }

  lemma {:induction false} KindAfterSlots(params: seq<CommandParameter>, sig: seq<Parameter>, k: nat)
    requires WellFormed(sig) && Describes(params, sig) && k < |params|
    ensures var n := Slots(sig);
            sig[k].kind == if k < n then PositionalOrKeyword
                           else if k == n && sig[k].kind.VarPositional? then VarPositional
                           else KeywordOnly
  {
    SlotKinds(sig);
    if sig[k].kind.VarPositional? {
      StarFollowsSlots(sig, k);
    }
    var last := |sig| - 1;
    assert k <= last && Rank(sig[k].kind) <= Rank(sig[last].kind);
  }

  // ---------- the theorem ----------

  // What both directions start from.
  ghost predicate Given(params: seq<CommandParameter>, sig: seq<Parameter>, ns: Namespace, passthrough: bool) {
    WellFormed(sig) && Describes(params, sig) && Fits(sig, ns) && PassthroughDeclared(sig, passthrough)
  }

  ghost function TheKwargs(params: seq<CommandParameter>, ns: Namespace, passthrough: bool,
                           rest: Value): map<string, Value> {
    WithPassthrough(KwargsOf(params, ns), passthrough, rest)
  }

  lemma NamesTell(params: seq<CommandParameter>, sig: seq<Parameter>, i: nat, p: CommandParameter)
    requires WellFormed(sig) && Describes(params, sig) && i < |params|
    requires p in params && p.name == sig[i].name
    ensures p == params[i]
  {
    var k :| 0 <= k < |params| && params[k] == p;
    assert sig[k].name == sig[i].name;
  }

  // A parameter is passed by keyword just when it is not passed by position.
  lemma {:induction false} PassedByKeyword(params: seq<CommandParameter>, sig: seq<Parameter>, ns: Namespace,
                                           passthrough: bool, rest: Value, i: nat)
    requires Given(params, sig, ns, passthrough) && i < |params|
    ensures sig[i].name in TheKwargs(params, ns, passthrough, rest) <==> !ByPosition(params[i])
    ensures sig[i].name in TheKwargs(params, ns, passthrough, rest) ==>
              TheKwargs(params, ns, passthrough, rest)[sig[i].name] == OwnValue(ns, rest, sig[i].name)
  {
    KwargsAt(params, ns, passthrough, rest, sig[i].name);
    assert sig[i] in sig && params[i] in params && params[i].name == sig[i].name;
    assert sig[i].name == PASSTHROUGH ==> passthrough && !ByPosition(params[i]);
    hide WithPassthrough, KwargsOf, ByPosition, OwnValue, Fits, PassthroughDeclared, WellFormed, Describes;
    forall p | p in params && p.name == sig[i].name ensures p == params[i] {
      NamesTell(params, sig, i, p);
    }
  }

  // No slot filled by position is also passed by keyword, exactly when nothing
  // is given by position after the lead.
  lemma {:induction false} SlotsClear(params: seq<CommandParameter>, sig: seq<Parameter>, ns: Namespace,
                                      passthrough: bool, rest: Value)
    requires Given(params, sig, ns, passthrough) && Slots(sig) <= |params|
    ensures var args := ArgsOf(params, ns);
            var lead := Lead(params, Slots(sig));
            (forall i :: 0 <= i < |sig| && FilledByPosition(sig, args, i) ==>
               sig[i].name !in TheKwargs(params, ns, passthrough, rest))
            <==> (lead < Slots(sig) ==> |args| <= lead)
  {
    var args := ArgsOf(params, ns);
    var n := Slots(sig);
    var lead := Lead(params, n);
    forall i | 0 <= i < n ensures sig[i].name in TheKwargs(params, ns, passthrough, rest) <==> !ByPosition(params[i]) {
      PassedByKeyword(params, sig, ns, passthrough, rest, i);
    }
    if lead < n {
      assert FilledByPosition(sig, args, lead) <==> lead < |args|;
    }
  }

  ghost predicate NoneGiven(params: seq<CommandParameter>, ns: Namespace, m: nat) {
    forall k :: m <= k < |params| && ByPosition(params[k]) ==> params[k].multiple && ItemsOf(ns(params[k].name)) == []
  }

  lemma NoneGivenFrom(params: seq<CommandParameter>, ns: Namespace, m: nat)
    requires m <= |params|
    ensures ArgsOf(params[m..], ns) == [] <==> NoneGiven(params, ns, m)
  {
    NothingGiven(params[m..], ns);
    assert forall k :: 0 <= k < |params[m..]| ==> params[m..][k] == params[k + m];
    assert forall k :: m <= k < |params| ==> params[m..][k - m] == params[k];
  }

  // Nothing is given by position after the lead: the declarations' form of it.
  lemma NothingAfterLead(params: seq<CommandParameter>, sig: seq<Parameter>, ns: Namespace)
    requires WellFormed(sig) && Describes(params, sig) && Slots(sig) <= |params|
    requires Lead(params, Slots(sig)) < Slots(sig)
    ensures ArgsOf(params[Lead(params, Slots(sig))..], ns) == [] <==> InOrder(params, sig, ns)
  {
    var lead := Lead(params, Slots(sig));
    NoneGivenFrom(params, ns, lead);
    SlotKinds(sig);
    hide WellFormed, ArgsOf, ByPosition, ItemsOf;
    assert sig[lead].kind.PositionalOrKeyword? && !ByPosition(params[lead]);
    if InOrder(params, sig, ns) {
      forall k | lead <= k < |params| && ByPosition(params[k])
        ensures params[k].multiple && ItemsOf(ns(params[k].name)) == []
      {
        assert lead < k;
      }
    }
    if NoneGiven(params, ns, lead) {
      forall i, k | 0 <= i < k < |params| && sig[i].kind.PositionalOrKeyword?
                    && !ByPosition(params[i]) && ByPosition(params[k])
        ensures sig[k].kind.VarPositional? && ItemsOf(ns(params[k].name)) == []
      {
        assert lead <= i;
      }
    }
  }

  // The call binds every parameter to its own value if and only if the side
  // conditions hold.
  lemma CallIsRight(params: seq<CommandParameter>, sig: seq<Parameter>, ns: Namespace, passthrough: bool, rest: Value)
    requires Given(params, sig, ns, passthrough)
    ensures BindsOwn(sig, ns, passthrough, rest, ArgsOf(params, ns), TheKwargs(params, ns, passthrough, rest))
       <==> Assembles(params, sig, ns, passthrough)
  {
    if Assembles(params, sig, ns, passthrough) {
      AssembledIsRight(params, sig, ns, passthrough, rest);
    }
    if BindsOwn(sig, ns, passthrough, rest, ArgsOf(params, ns), TheKwargs(params, ns, passthrough, rest)) {
      RightIsAssembled(params, sig, ns, passthrough, rest);
    }
  }

  lemma AssembledIsRight(params: seq<CommandParameter>, sig: seq<Parameter>, ns: Namespace, passthrough: bool,
                         rest: Value)
    requires Given(params, sig, ns, passthrough) && Assembles(params, sig, ns, passthrough)
    ensures BindsOwn(sig, ns, passthrough, rest, ArgsOf(params, ns), TheKwargs(params, ns, passthrough, rest))
  {
    var args, kwargs := ArgsOf(params, ns), TheKwargs(params, ns, passthrough, rest);
    hide *;
    AssembledBinds(params, sig, ns, passthrough, rest);
    KeywordsGo(params, sig, ns, passthrough, rest);
    assert BindsOwn(sig, ns, passthrough, rest, args, kwargs) by {
      OwnValues(params, sig, ns, passthrough, rest);
    }
  }

  lemma OwnValues(params: seq<CommandParameter>, sig: seq<Parameter>, ns: Namespace, passthrough: bool, rest: Value)
    requires Given(params, sig, ns, passthrough) && Assembles(params, sig, ns, passthrough)
    requires var (args, kwargs) := (ArgsOf(params, ns), TheKwargs(params, ns, passthrough, rest));
             Binds(sig, args, kwargs) && Extra(sig, kwargs) == OwnExtra(sig, passthrough, rest)
    ensures BindsOwn(sig, ns, passthrough, rest, ArgsOf(params, ns), TheKwargs(params, ns, passthrough, rest))
  {
    hide TheKwargs, ArgsOf, Received, OwnValue, Extra, OwnExtra, Binds, WellFormed, Fits, PassthroughDeclared;
    hide Assembles;
    forall i | 0 <= i < |sig| && !sig[i].kind.VarKeyword?
      ensures Received(sig, ArgsOf(params, ns), TheKwargs(params, ns, passthrough, rest), i)
           == OwnValue(ns, rest, sig[i].name)
    {
      AssembledReceives(params, sig, ns, passthrough, rest, i);
    }
  }

  lemma AssembledBinds(params: seq<CommandParameter>, sig: seq<Parameter>, ns: Namespace, passthrough: bool,
                       rest: Value)
    requires Given(params, sig, ns, passthrough) && Assembles(params, sig, ns, passthrough)
    ensures Binds(sig, ArgsOf(params, ns), TheKwargs(params, ns, passthrough, rest))
  {
    ArgsShape(params, sig, ns);
    AssembledArgs(params, sig, ns, passthrough);
    hide Given, Assembles, TheKwargs, ArgsOf, FilledByPosition, Has, Lead, StarItems, WellFormed, Describes;
    NoneTwice(params, sig, ns, passthrough, rest);
    AllGiven(params, sig, ns, passthrough, rest);
    KeywordsGo(params, sig, ns, passthrough, rest);
  }

  lemma NoneTwice(params: seq<CommandParameter>, sig: seq<Parameter>, ns: Namespace, passthrough: bool, rest: Value)
    requires Given(params, sig, ns, passthrough) && Assembles(params, sig, ns, passthrough)
    ensures forall i :: 0 <= i < |sig| && FilledByPosition(sig, ArgsOf(params, ns), i) ==>
      sig[i].name !in TheKwargs(params, ns, passthrough, rest)
  {
    ArgsShape(params, sig, ns);
    AssembledArgs(params, sig, ns, passthrough);
    hide *;
    SlotsClear(params, sig, ns, passthrough, rest);
  }

  lemma AllGiven(params: seq<CommandParameter>, sig: seq<Parameter>, ns: Namespace, passthrough: bool, rest: Value)
    requires Given(params, sig, ns, passthrough) && Assembles(params, sig, ns, passthrough)
    ensures forall i :: 0 <= i < |sig| && TakesKeyword(sig[i]) ==>
      FilledByPosition(sig, ArgsOf(params, ns), i) || sig[i].name in TheKwargs(params, ns, passthrough, rest)
  {
    hide TheKwargs, ArgsOf, FilledByPosition, WellFormed, Fits, PassthroughDeclared, Assembles;
    forall i | 0 <= i < |sig| && TakesKeyword(sig[i])
      ensures FilledByPosition(sig, ArgsOf(params, ns), i) || sig[i].name in TheKwargs(params, ns, passthrough, rest)
    {
      AssembledReceives(params, sig, ns, passthrough, rest, i);
    }
  }

  lemma {:induction false} AssembledArgs(params: seq<CommandParameter>, sig: seq<Parameter>, ns: Namespace,
                                         passthrough: bool)
    requires Given(params, sig, ns, passthrough) && Assembles(params, sig, ns, passthrough)
    requires Slots(sig) <= |params|
    ensures var (lead, args) := (Lead(params, Slots(sig)), ArgsOf(params, ns));
            && lead <= |args|
            && args[lead..] == (if lead < Slots(sig) then [] else StarItems(params, sig, ns))
            && |args| == lead + (if lead < Slots(sig) then 0 else |StarItems(params, sig, ns)|)
            && (|args| <= Slots(sig) || Has(sig, VarPositional))
  {
    ArgsShape(params, sig, ns);
    var n := Slots(sig);
    if Lead(params, n) < n {
      NothingAfterLead(params, sig, ns);
    } else {
      ArgsAfterSlots(params, sig, ns);
      if n < |params| {
        assert sig[n] in sig;
      }
    }
  }

  lemma {:induction false} AssembledReceives(params: seq<CommandParameter>, sig: seq<Parameter>, ns: Namespace,
                                             passthrough: bool, rest: Value, i: nat)
    requires Given(params, sig, ns, passthrough) && Assembles(params, sig, ns, passthrough) && i < |params|
    ensures var (args, kwargs) := (ArgsOf(params, ns), TheKwargs(params, ns, passthrough, rest));
            && Received(sig, args, kwargs, i) == OwnValue(ns, rest, sig[i].name)
            && (TakesKeyword(sig[i]) ==> FilledByPosition(sig, args, i) || sig[i].name in kwargs)
  {
    hide TheKwargs, Lead, ArgsOf, StarItems;
    ArgsShape(params, sig, ns);
    AssembledArgs(params, sig, ns, passthrough);
    if sig[i].kind.VarPositional? {
      StarReceives(params, sig, ns, passthrough, rest, i);
    } else {
      hide Describes, WellFormed, Assembles;
      PassedByKeyword(params, sig, ns, passthrough, rest, i);
      PlainSplit(params, sig, ns, passthrough, i);
    }
  }

  // A parameter other than *args is passed by position just when it is in the lead.
  lemma {:induction false} PlainSplit(params: seq<CommandParameter>, sig: seq<Parameter>, ns: Namespace,
                                      passthrough: bool, i: nat)
    requires Given(params, sig, ns, passthrough) && Assembles(params, sig, ns, passthrough) && i < |params|
    requires !sig[i].kind.VarPositional? && Slots(sig) <= |params|
    ensures ByPosition(params[i]) <==> i < Lead(params, Slots(sig))
    ensures params[i].name == sig[i].name
    ensures i < Slots(sig) || (sig[i].kind.KeywordOnly? && !ByPosition(params[i]))
  {
    KindAfterSlots(params, sig, i);
    SlotKinds(sig);
    var lead := Lead(params, Slots(sig));
    assert lead < Slots(sig) ==> sig[lead].kind.PositionalOrKeyword? && !ByPosition(params[lead]);
  }

  lemma {:induction false} StarReceives(params: seq<CommandParameter>, sig: seq<Parameter>, ns: Namespace,
                                        passthrough: bool, rest: Value, i: nat)
    requires Given(params, sig, ns, passthrough) && Assembles(params, sig, ns, passthrough) && i < |params|
    requires sig[i].kind.VarPositional? && Slots(sig) <= |params|
    ensures Received(sig, ArgsOf(params, ns), TheKwargs(params, ns, passthrough, rest), i)
         == OwnValue(ns, rest, sig[i].name)
  {
    hide TheKwargs, ArgsOf;
    var n := Slots(sig);
    var lead := Lead(params, n);
    AssembledArgs(params, sig, ns, passthrough);
    StarFollowsSlots(sig, i);
    assert sig[i] in sig;
    if lead < n {
      SlotKinds(sig);
      assert sig[lead].kind.PositionalOrKeyword? && !ByPosition(params[lead]) && ByPosition(params[i]);
    }
  }

  // Every keyword reaches a parameter of its name, or it is the unparsed
  // arguments on their way to **kwargs.
  lemma {:induction false} KeywordsGo(params: seq<CommandParameter>, sig: seq<Parameter>, ns: Namespace,
                                      passthrough: bool, rest: Value)
    requires Given(params, sig, ns, passthrough) && Assembles(params, sig, ns, passthrough)
    ensures var kwargs := TheKwargs(params, ns, passthrough, rest);
            && (forall n :: n in kwargs ==>
                  (exists p :: p in sig && TakesKeyword(p) && p.name == n) || Has(sig, VarKeyword))
            && Extra(sig, kwargs) == OwnExtra(sig, passthrough, rest)
  {
    hide TheKwargs;
    var kwargs := TheKwargs(params, ns, passthrough, rest);
    forall n | n in kwargs
      ensures (exists p :: p in sig && TakesKeyword(p) && p.name == n)
           || (n == PASSTHROUGH && passthrough && kwargs[n] == rest && !(exists p :: p in sig && p.name == PASSTHROUGH))
    {
      KeywordTaken(params, sig, ns, passthrough, rest, n);
      PassthroughPassed(params, ns, passthrough, rest);
    }
    PassthroughPassed(params, ns, passthrough, rest);
  }

  lemma PassthroughPassed(params: seq<CommandParameter>, ns: Namespace, passthrough: bool, rest: Value)
    ensures PASSTHROUGH in TheKwargs(params, ns, passthrough, rest) <==> passthrough
    ensures passthrough ==> TheKwargs(params, ns, passthrough, rest)[PASSTHROUGH] == rest
  {}

  lemma {:induction false} KeywordTaken(params: seq<CommandParameter>, sig: seq<Parameter>, ns: Namespace,
                                        passthrough: bool, rest: Value, n: string)
    requires Given(params, sig, ns, passthrough)
    requires forall i :: 0 <= i < |params| && sig[i].kind.VarPositional? ==> ByPosition(params[i])
    requires n in TheKwargs(params, ns, passthrough, rest)
    ensures (exists p :: p in sig && TakesKeyword(p) && p.name == n)
         || (n == PASSTHROUGH && passthrough && !(exists p :: p in sig && p.name == PASSTHROUGH))
  {
    KwargsAt(params, ns, passthrough, rest, n);
    if n == PASSTHROUGH {
      if p :| p in sig && p.name == PASSTHROUGH {
        assert TakesKeyword(p);
      }
    } else {
      var p :| p in params && p.name == n && !ByPosition(p);
      var k :| 0 <= k < |params| && params[k] == p;
      KindAfterSlots(params, sig, k);
      assert sig[k] in sig && TakesKeyword(sig[k]) && sig[k].name == n;
    }
  }

  lemma RightIsAssembled(params: seq<CommandParameter>, sig: seq<Parameter>, ns: Namespace, passthrough: bool,
                         rest: Value)
    requires Given(params, sig, ns, passthrough)
    requires BindsOwn(sig, ns, passthrough, rest, ArgsOf(params, ns), TheKwargs(params, ns, passthrough, rest))
    ensures Assembles(params, sig, ns, passthrough)
  {
    StarIsGiven(params, sig, ns, passthrough, rest);
    RightIsInOrder(params, sig, ns, passthrough, rest);
    PassthroughGoes(params, sig, ns, passthrough, rest);
  }

  lemma PassthroughGoes(params: seq<CommandParameter>, sig: seq<Parameter>, ns: Namespace, passthrough: bool,
                        rest: Value)
    requires Binds(sig, ArgsOf(params, ns), TheKwargs(params, ns, passthrough, rest))
    ensures passthrough ==> (exists p :: p in sig && p.name == PASSTHROUGH) || Has(sig, VarKeyword)
  {
    PassthroughPassed(params, ns, passthrough, rest);
  }

  lemma RightIsInOrder(params: seq<CommandParameter>, sig: seq<Parameter>, ns: Namespace, passthrough: bool,
                       rest: Value)
    requires Given(params, sig, ns, passthrough)
    requires BindsOwn(sig, ns, passthrough, rest, ArgsOf(params, ns), TheKwargs(params, ns, passthrough, rest))
    ensures NoKeywordOnlyByPosition(params, sig) && InOrder(params, sig, ns)
  {
    hide TheKwargs, ArgsOf, Received, Fits, PassthroughDeclared, Extra, OwnExtra, Has;
    var n := Slots(sig);
    ArgsShape(params, sig, ns);
    if Lead(params, n) < n {
      LeadEndsArgs(params, sig, ns, passthrough, rest);
      NothingAfterLead(params, sig, ns);
      InOrderHasNoKeywordOnly(params, sig, ns);
    } else {
      StarIsGiven(params, sig, ns, passthrough, rest);
      ArgsAfterSlots(params, sig, ns);
      StarGetsItsItems(params, sig, ns, passthrough, rest);
      AllSlotsInOrder(params, sig, ns);
    }
  }

  // A call that binds gives nothing by position after the lead.
  lemma LeadEndsArgs(params: seq<CommandParameter>, sig: seq<Parameter>, ns: Namespace, passthrough: bool, rest: Value)
    requires Given(params, sig, ns, passthrough) && Lead(params, Slots(sig)) < Slots(sig) <= |params|
    requires Binds(sig, ArgsOf(params, ns), TheKwargs(params, ns, passthrough, rest))
    ensures ArgsOf(params[Lead(params, Slots(sig))..], ns) == []
  {
    hide TheKwargs, Lead;
    ArgsShape(params, sig, ns);
    SlotsClear(params, sig, ns, passthrough, rest);
  }

  lemma InOrderHasNoKeywordOnly(params: seq<CommandParameter>, sig: seq<Parameter>, ns: Namespace)
    requires WellFormed(sig) && Describes(params, sig) && Slots(sig) <= |params|
    requires Lead(params, Slots(sig)) < Slots(sig) && InOrder(params, sig, ns)
    ensures NoKeywordOnlyByPosition(params, sig)
  {
    var lead := Lead(params, Slots(sig));
    SlotKinds(sig);
    forall k | 0 <= k < |params| && sig[k].kind.KeywordOnly? ensures !ByPosition(params[k]) {
      assert sig[lead].kind.PositionalOrKeyword? && !ByPosition(params[lead]) && lead < k;
    }
  }

  lemma AllSlotsInOrder(params: seq<CommandParameter>, sig: seq<Parameter>, ns: Namespace)
    requires WellFormed(sig) && Describes(params, sig) && Lead(params, Slots(sig)) == Slots(sig)
    ensures InOrder(params, sig, ns)
  {
    SlotKinds(sig);
  }

  // *args cannot be passed by keyword.
  lemma {:induction false} StarIsGiven(params: seq<CommandParameter>, sig: seq<Parameter>, ns: Namespace,
                                       passthrough: bool, rest: Value)
    requires Given(params, sig, ns, passthrough)
    requires BindsOwn(sig, ns, passthrough, rest, ArgsOf(params, ns), TheKwargs(params, ns, passthrough, rest))
    ensures forall i :: 0 <= i < |params| && sig[i].kind.VarPositional? ==> ByPosition(params[i])
  {
    var kwargs := TheKwargs(params, ns, passthrough, rest);
    hide TheKwargs;
    forall i | 0 <= i < |params| && sig[i].kind.VarPositional? ensures ByPosition(params[i]) {
      PassedByKeyword(params, sig, ns, passthrough, rest, i);
      var name := sig[i].name;
      assert sig[i] in sig && name != PASSTHROUGH;
      assert name !in OwnExtra(sig, passthrough, rest);
      assert name in kwargs ==> name in Extra(sig, kwargs);
    }
  }

  // With all slots given by position, what is left over is what *args holds.
  lemma {:induction false} StarGetsItsItems(params: seq<CommandParameter>, sig: seq<Parameter>, ns: Namespace,
                                            passthrough: bool, rest: Value)
    requires Given(params, sig, ns, passthrough) && Slots(sig) <= |params|
    requires Lead(params, Slots(sig)) == Slots(sig) <= |ArgsOf(params, ns)|
    requires BindsOwn(sig, ns, passthrough, rest, ArgsOf(params, ns), TheKwargs(params, ns, passthrough, rest))
    ensures ArgsOf(params, ns)[Slots(sig)..] == StarItems(params, sig, ns)
  {
    var n := Slots(sig);
    if n < |params| && sig[n].kind.VarPositional? {
      assert Received(sig, ArgsOf(params, ns), TheKwargs(params, ns, passthrough, rest), n)
          == OwnValue(ns, rest, sig[n].name);
      assert sig[n] in sig;
    } else if Has(sig, VarPositional) {
      var p :| p in sig && p.kind.VarPositional?;
      var v :| 0 <= v < |sig| && sig[v] == p;
      StarFollowsSlots(sig, v);
    }
  }

  // A value given by position after a plain parameter that is passed by
  // keyword makes the call a TypeError.
  lemma {:induction false} MisplacedFails(params: seq<CommandParameter>, sig: seq<Parameter>, ns: Namespace,
                                          passthrough: bool, rest: Value, i: nat, k: nat)
    requires Given(params, sig, ns, passthrough) && i < k < |params|
    requires sig[i].kind.PositionalOrKeyword? && !ByPosition(params[i]) && ByPosition(params[k])
    requires params[k].multiple ==> ItemsOf(ns(params[k].name)) != []
    ensures !Binds(sig, ArgsOf(params, ns), TheKwargs(params, ns, passthrough, rest))
  {
    ArgsShape(params, sig, ns);
    SlotKinds(sig);
    NothingAfterLead(params, sig, ns);
    SlotsClear(params, sig, ns, passthrough, rest);
  }

  // ---------- derived parameters ----------

  // What _process_parameters makes of each parameter.
  lemma {:induction false} DerivedAt(cparams: seq<CommandParameter>, sig: seq<Parameter>)
    requires WellFormed(sig) && forall c :: c in cparams ==> !c.multiple
    ensures Describes(Derived(cparams, sig), sig)
    ensures forall i :: 0 <= i < |Derived(cparams, sig)| ==>
      Derived(cparams, sig)[i] == FromSignature(Declared(cparams, sig[i].name), sig[i])
  {
    if sig != [] {
      var first := FromSignature(Declared(cparams, sig[0].name), sig[0]);
      var rest := Derived(cparams, sig[1..]);
      if sig[0].kind.VarKeyword? {
        VarKeywordLast(sig);
        assert rest == [];
      } else {
        hide FromSignature, Declared, WellFormed;
        TailWellFormed(sig);
        DerivedFirst(cparams, sig[0]);
        DerivedAt(cparams, sig[1..]);
        assert Derived(cparams, sig) == [first] + rest;
        hide Derived;
        DescribesCons(first, rest, sig);
      }
    }
  }

  lemma DescribesCons(c: CommandParameter, rest: seq<CommandParameter>, sig: seq<Parameter>)
    requires sig != [] && !sig[0].kind.VarKeyword? && Describes(rest, sig[1..])
    requires c.name == sig[0].name && (c.multiple <==> sig[0].kind.VarPositional?)
    ensures Describes([c] + rest, sig)
  {
    assert forall i :: 1 <= i < |sig| ==> sig[i] == sig[1..][i - 1];
  }

  lemma TailWellFormed(sig: seq<Parameter>)
    requires WellFormed(sig) && sig != []
    ensures WellFormed(sig[1..])
  {}

  lemma VarKeywordLast(sig: seq<Parameter>)
    requires WellFormed(sig) && sig != [] && sig[0].kind.VarKeyword?
    ensures |sig| == 1
  {
    var last := |sig| - 1;
    assert Rank(sig[0].kind) <= Rank(sig[last].kind) && sig[0].kind == sig[last].kind;
    assert last == 0;
  }

  lemma DerivedFirst(cparams: seq<CommandParameter>, s: Parameter)
    requires forall c :: c in cparams ==> !c.multiple
    ensures var c := FromSignature(Declared(cparams, s.name), s);
            c.name == s.name && (c.multiple <==> s.kind.VarPositional?)
  {
    DeclaredAt(cparams, s.name);
  }

  lemma DeclaredAt(cparams: seq<CommandParameter>, name: string)
    requires forall c :: c in cparams ==> !c.multiple
    ensures Declared(cparams, name).name == name && !Declared(cparams, name).multiple
  {}

  // A function decorated with a plain @command is called right unless it takes
  // both defaulted parameters and *args and some *args are given, which is a
  // TypeError.  A function of the two parameters args and kwargs is called
  // with nothing.
  lemma {:induction false} UndecoratedCall(sig: seq<Parameter>, ns: Namespace, rest: Value)
    requires WellFormed(sig) && Fits(sig, ns) && forall p :: p in sig ==> p.name != PASSTHROUGH
    requires DefaultsLast(sig)
    ensures var params := ParametersOf([], sig);
            var (args, kwargs) := (ArgsOf(params, ns), TheKwargs(params, ns, false, rest));
            if CatchAll(sig) then
              && (BindsOwn(sig, ns, false, rest, args, kwargs) <==> NothingNeeded(sig, ns))
              && (Binds(sig, args, kwargs) <==> NothingRequired(sig))
            else
              && (BindsOwn(sig, ns, false, rest, args, kwargs) <==> !StarAfterDefault(sig, ns))
              && (Binds(sig, args, kwargs) <==> !StarAfterDefault(sig, ns))
  {
    hide Binds, Received, Extra, ArgsOf, TheKwargs, Fits, WellFormed, Derived, Assembles, Describes, StarAfterDefault;
    hide DefaultsLast, NothingRequired, NothingNeeded;
    if CatchAll(sig) {
      EmptyCall(sig, ns, rest);
    } else {
      UndecoratedPositions(sig);
      CallIsRight(Derived([], sig), sig, ns, false, rest);
      UndecoratedAssembles(Derived([], sig), sig, ns);
      if StarAfterDefault(sig, ns) {
        UndecoratedTypeError(sig, ns, rest);
      }
    }
  }

  // No parameter has to be given a value.
  ghost predicate NothingRequired(sig: seq<Parameter>) {
    forall i :: 0 <= i < |sig| && TakesKeyword(sig[i]) ==> sig[i].default != Empty
  }

  // ... and the values that all receive then are their own.
  ghost predicate NothingNeeded(sig: seq<Parameter>, ns: Namespace) {
    && NothingRequired(sig)
    && forall i :: 0 <= i < |sig| && !sig[i].kind.VarKeyword? ==>
         ns(sig[i].name) == if sig[i].kind.VarPositional? then Items([]) else sig[i].default
  }

  lemma EmptyCall(sig: seq<Parameter>, ns: Namespace, rest: Value)
    requires forall p :: p in sig ==> p.name != PASSTHROUGH
    ensures ArgsOf([], ns) == [] && TheKwargs([], ns, false, rest) == map[]
    ensures Binds(sig, [], map[]) <==> NothingRequired(sig)
    ensures BindsOwn(sig, ns, false, rest, [], map[]) <==> NothingNeeded(sig, ns)
  {
    assert Extra(sig, map[]) == map[];
    forall i | 0 <= i < |sig| && !sig[i].kind.VarKeyword?
      ensures Received(sig, [], map[], i) == if sig[i].kind.VarPositional? then Items([]) else sig[i].default
      ensures OwnValue(ns, rest, sig[i].name) == ns(sig[i].name)
    {
      assert sig[i] in sig;
    }
  }

  lemma UndecoratedTypeError(sig: seq<Parameter>, ns: Namespace, rest: Value)
    requires WellFormed(sig) && Fits(sig, ns) && forall p :: p in sig ==> p.name != PASSTHROUGH
    requires Describes(Derived([], sig), sig) && StarAfterDefault(sig, ns)
    ensures !Binds(sig, ArgsOf(Derived([], sig), ns), TheKwargs(Derived([], sig), ns, false, rest))
  {
    hide Binds, ArgsOf, TheKwargs, Derived, WellFormed;
    UndecoratedPositions(sig);
    var i, k :| 0 <= i < k < |sig| && sig[i].kind.PositionalOrKeyword? && sig[i].default != Empty
                && sig[k].kind.VarPositional? && ItemsOf(ns(sig[k].name)) != [];
    MisplacedFails(Derived([], sig), sig, ns, false, rest, i, k);
  }

  // def f(a, b=1, *c), called from the command line with more than two
  // arguments.
  lemma StarAfterDefaultHappens(a: string, b: string, c: string, v: Value, rest: Value)
    requires a != b && a != c && b != c && PASSTHROUGH !in [a, b, c]
    ensures var (sig, ns) := (StarSignature(a, b, c), StarNamespace(c, v));
            var params := Derived([], sig);
            && WellFormed(sig) && Fits(sig, ns) && DefaultsLast(sig) && StarAfterDefault(sig, ns)
            && !Binds(sig, ArgsOf(params, ns), TheKwargs(params, ns, false, rest))
  {
    hide Binds, ArgsOf, TheKwargs, Derived, Describes;
    var (sig, ns) := (StarSignature(a, b, c), StarNamespace(c, v));
    assert sig[1].default != Empty && ItemsOf(ns(sig[2].name)) == [v];
    UndecoratedPositions(sig);
    UndecoratedTypeError(sig, ns, rest);
  }

  function StarSignature(a: string, b: string, c: string): seq<Parameter> {
    [Parameter(a, PositionalOrKeyword, Empty), Parameter(b, PositionalOrKeyword, Atom(1)),
     Parameter(c, VarPositional, Empty)]
  }

  function StarNamespace(c: string, v: Value): Namespace {
    n => if n == c then Items([v]) else v
  }

  // A function declared with *args and **kwargs alone takes any call as it is.
  lemma TakesAnyCall(star: string, names: string, args: seq<Value>, kwargs: map<string, Value>)
    ensures var sig := [Parameter(star, VarPositional, Empty), Parameter(names, VarKeyword, Empty)];
            Binds(sig, args, kwargs) && Received(sig, args, kwargs, 0) == Items(args) && Extra(sig, kwargs) == kwargs
  {
    var sig := [Parameter(star, VarPositional, Empty), Parameter(names, VarKeyword, Empty)];
    assert sig[0] in sig && sig[1] in sig;
    assert Slots(sig) == 0 && args[0..] == args;
  }

  // A command with a parent takes the parent's parameters.  If its own function
  // is declared with *args and **kwargs alone and passes them on to parent(), the
  // parent's function is called right exactly when its own command would be.
  lemma RelaysCall(params: seq<CommandParameter>, sig: seq<Parameter>, star: string, names: string, ns: Namespace,
                   passthrough: bool, rest: Value)
    requires Given(params, sig, ns, passthrough)
    ensures var child := [Parameter(star, VarPositional, Empty), Parameter(names, VarKeyword, Empty)];
            var (args, kwargs) := (ArgsOf(params, ns), TheKwargs(params, ns, passthrough, rest));
            && Binds(child, args, kwargs)
            && (BindsOwn(sig, ns, passthrough, rest, ItemsOf(Received(child, args, kwargs, 0)), Extra(child, kwargs))
                <==> Assembles(params, sig, ns, passthrough))
  {
    hide Binds, BindsOwn, Received, Extra;
    TakesAnyCall(star, names, ArgsOf(params, ns), TheKwargs(params, ns, passthrough, rest));
    CallIsRight(params, sig, ns, passthrough, rest);
  }

  // Python has plain parameters without defaults come first.
  ghost predicate DefaultsLast(sig: seq<Parameter>) {
    forall i, k | 0 <= i < k < |sig| && sig[i].kind.PositionalOrKeyword? && sig[k].kind.PositionalOrKeyword? ::
      sig[i].default != Empty ==> sig[k].default != Empty
  }

  // A parameter is given by position if it has no default or is *args.
  ghost predicate GivenUnlessDefaulted(params: seq<CommandParameter>, sig: seq<Parameter>)
    requires Describes(params, sig)
  {
    forall i :: 0 <= i < |params| ==>
      (ByPosition(params[i]) <==>
         sig[i].kind.VarPositional? || (sig[i].kind.PositionalOrKeyword? && sig[i].default == Empty))
  }

  lemma {:induction false} UndecoratedPositions(sig: seq<Parameter>)
    requires WellFormed(sig) && forall p :: p in sig ==> p.name != PASSTHROUGH
    ensures Describes(Derived([], sig), sig) && GivenUnlessDefaulted(Derived([], sig), sig)
  {
    hide Derived, WellFormed;
    var params := Derived([], sig);
    DerivedAt([], sig);
    forall i | 0 <= i < |params|
      ensures ByPosition(params[i]) <==>
        sig[i].kind.VarPositional? || (sig[i].kind.PositionalOrKeyword? && sig[i].default == Empty)
    {
      assert sig[i] in sig;
      assert params[i] == FromSignature(Declared([], sig[i].name), sig[i]);
    }
  }

  // Some parameter with a default comes before *args that hold something.
  ghost predicate StarAfterDefault(sig: seq<Parameter>, ns: Namespace) {
    exists i, k :: 0 <= i < k < |sig| && sig[i].kind.PositionalOrKeyword? && sig[i].default != Empty
      && sig[k].kind.VarPositional? && ItemsOf(ns(sig[k].name)) != []
  }

  lemma {:induction false} UndecoratedAssembles(params: seq<CommandParameter>, sig: seq<Parameter>, ns: Namespace)
    requires Describes(params, sig) && GivenUnlessDefaulted(params, sig)
    requires DefaultsLast(sig)
    ensures Assembles(params, sig, ns, false) <==> !StarAfterDefault(sig, ns)
  {
    hide ByPosition;
    if i, k :| 0 <= i < k < |sig| && sig[i].kind.PositionalOrKeyword? && sig[i].default != Empty
               && sig[k].kind.VarPositional? && ItemsOf(ns(sig[k].name)) != []
    {
      assert !ByPosition(params[i]) && ByPosition(params[k]);
    }
  }

  // ---------- the arguments shown in the trace ----------

  predicate Flagged(p: CommandParameter) {
    p.positional == Some(true) && !p.multiple
  }

  // The display looks up args by the parameter's index.
  lemma {:induction false} DisplayLooksUp(params: seq<CommandParameter>, i: nat, args: seq<Value>,
                                          kwargs: map<string, Value>)
    requires i <= |params|
    ensures Display(params, i, args, kwargs).None? <==>
      exists k :: i <= k < |params| && Flagged(params[k]) && |args| <= k
    decreases |params| - i
  {
    if i < |params| {
      DisplayLooksUp(params, i + 1, args, kwargs);
      assert DisplayOne(params[i], i, args, kwargs).None? <==> Flagged(params[i]) && |args| <= i;
    }
  }

  // For every call, from the command line or from another command: the display
  // fails just when a positional parameter is not given by position, be it left
  // to its default or passed by keyword.  (A keyword-only parameter declared
  // positional is looked up among *args.)  If it does not fail, what it looks up
  // is what the parameter receives.
  lemma DisplayFailsExactly(params: seq<CommandParameter>, sig: seq<Parameter>, args: seq<Value>,
                            kwargs: map<string, Value>)
    requires WellFormed(sig) && Describes(params, sig)
    ensures Display(params, 0, args, kwargs).None? <==>
      || (exists i :: 0 <= i < |params| && sig[i].kind.PositionalOrKeyword? && Flagged(params[i])
            && !FilledByPosition(sig, args, i))
      || (exists i :: 0 <= i < |params| && sig[i].kind.KeywordOnly? && Flagged(params[i]) && |args| <= i)
    ensures Display(params, 0, args, kwargs).Some? ==>
      forall i :: 0 <= i < |params| && sig[i].kind.PositionalOrKeyword? && Flagged(params[i]) ==>
        i < |args| && Received(sig, args, kwargs, i) == args[i]
  {
    hide Display, Received;
    DisplayLooksUp(params, 0, args, kwargs);
    SlotKinds(sig);
    forall i | 0 <= i < |params| && Flagged(params[i])
      ensures sig[i].kind.PositionalOrKeyword? || sig[i].kind.KeywordOnly?
      ensures sig[i].kind.PositionalOrKeyword? ==> (FilledByPosition(sig, args, i) <==> i < |args|)
      ensures FilledByPosition(sig, args, i) ==> Received(sig, args, kwargs, i) == args[i]
    {
      KindAfterSlots(params, sig, i);
      FilledReceives(sig, args, kwargs, i);
    }
  }

  lemma FilledReceives(sig: seq<Parameter>, args: seq<Value>, kwargs: map<string, Value>, i: nat)
    requires WellFormed(sig) && i < |sig|
    ensures FilledByPosition(sig, args, i) ==> Received(sig, args, kwargs, i) == args[i]
  {
    SlotKinds(sig);
  }

  // def balderdash(a, b="malarkey", c="rubbish", **d).
  function Balderdash(a: string, b: string, c: string, d: string): seq<Parameter> {
    [Parameter(a, PositionalOrKeyword, Empty), Parameter(b, PositionalOrKeyword, Atom(1)),
     Parameter(c, PositionalOrKeyword, Atom(2)), Parameter(d, VarKeyword, Empty)]
  }

  // With b declared positional and called as balderdash(v): a call that Python
  // accepts and the display does not.
  lemma OmittedPositionalFails(a: string, b: string, c: string, d: string, v: Value)
    requires a != b && a != c && a != d && b != c && b != d && c != d
    ensures var (sig, cparams) := (Balderdash(a, b, c, d), [CommandParameter(b, Some(true), false, false, NoneValue)]);
            && WellFormed(sig) && Binds(sig, [v], map[])
            && Display(Derived(cparams, sig), 0, [v], map[]).None?
  {
    var (sig, cparams) := (Balderdash(a, b, c, d), [CommandParameter(b, Some(true), false, false, NoneValue)]);
    assert Slots(sig[3..]) == 0;
    hide Derived, Display;
    DerivedAt(cparams, sig);
    assert Declared(cparams, b) == cparams[0];
    DisplayLooksUp(Derived(cparams, sig), 0, [v], map[]);
    assert Flagged(Derived(cparams, sig)[1]);
  }

  // The arguments given by position number as many as the parameters that are,
  // if none takes a list.
  lemma {:induction false} OneArgumentEach(params: seq<CommandParameter>, ns: Namespace)
    requires forall p :: p in params ==> !p.multiple
    ensures |ArgsOf(params, ns)| <= |params|
    ensures |ArgsOf(params, ns)| == |params| <==> forall p :: p in params ==> ByPosition(p)
  {
    if params != [] {
      hide ByPosition;
      assert params == [params[0]] + params[1..];
      OneArgumentEach(params[1..], ns);
    }
  }

  lemma FirstArgs(params: seq<CommandParameter>, ns: Namespace)
    requires params != []
    ensures ArgsOf(params, ns) == ArgsOf([params[0]], ns) + ArgsOf(params[1..], ns)
  {
    hide ByPosition, ItemsOf;
    assert [params[0]][1..] == [];
    assert ArgsOf([], ns) == [];
  }

  lemma {:induction false} ArgsSplit(a: seq<CommandParameter>, b: seq<CommandParameter>, ns: Namespace)
    ensures ArgsOf(a + b, ns) == ArgsOf(a, ns) + ArgsOf(b, ns)
  {
    if a == [] {
      assert a + b == b;
    } else {
      ArgsSplit(a[1..], b, ns);
      FirstArgs(a, ns);
      FirstArgs(a + b, ns);
      assert (a + b)[1..] == a[1..] + b && (a + b)[0] == a[0];
      hide *;
      Associates(ArgsOf([a[0]], ns), ArgsOf(a[1..], ns), ArgsOf(b, ns));
    }
  }

  ghost predicate TooFewArguments(params: seq<CommandParameter>, ns: Namespace) {
    exists k :: 0 <= k < |params| && Flagged(params[k]) && |ArgsOf(params, ns)| <= k
  }

  // A parameter passed by keyword comes before a positional one, or is itself
  // one: passthrough_args.
  ghost predicate KeywordFirst(params: seq<CommandParameter>) {
    exists i, k :: 0 <= i <= k < |params| && !ByPosition(params[i]) && Flagged(params[k])
  }

  lemma {:induction false} TooFewIfKeywordFirst(params: seq<CommandParameter>, ns: Namespace)
    requires forall p :: p in params ==> !p.multiple
    ensures TooFewArguments(params, ns) <==> KeywordFirst(params)
  {
    if params != [] {
      var n := |params| - 1;
      var (first, p) := (params[..n], params[n]);
      assert params == first + [p];
      TooFewIfKeywordFirst(first, ns);
      OneArgumentEach(first, ns);
      ArgsSplit(first, [p], ns);
      OneMoreParameter(first, p, ns);
    }
  }

  lemma {:induction false} OneMoreParameter(first: seq<CommandParameter>, p: CommandParameter, ns: Namespace)
    requires !p.multiple && ArgsOf(first + [p], ns) == ArgsOf(first, ns) + ArgsOf([p], ns)
    requires TooFewArguments(first, ns) <==> KeywordFirst(first)
    requires |ArgsOf(first, ns)| <= |first|
    requires |ArgsOf(first, ns)| == |first| <==> forall q :: q in first ==> ByPosition(q)
    ensures TooFewArguments(first + [p], ns) <==> KeywordFirst(first + [p])
  {
    var params := first + [p];
    var n := |first|;
    assert params[n] == p && forall k :: 0 <= k < n ==> params[k] == first[k];
    assert |ArgsOf([p], ns)| == if ByPosition(p) then 1 else 0;
    hide ArgsOf;
    if Flagged(p) {
      if q :| q in first && !ByPosition(q) {
        var i :| 0 <= i < n && first[i] == q;
        assert !ByPosition(params[i]) && |ArgsOf(params, ns)| <= n;
      } else if !ByPosition(p) {
        assert |ArgsOf(params, ns)| <= n;
      } else {
        assert |ArgsOf(params, ns)| == n + 1;
        assert forall i :: 0 <= i < |params| ==> ByPosition(params[i]);
      }
    } else {
      assert !ByPosition(p);
      assert TooFewArguments(params, ns) <==> TooFewArguments(first, ns);
      assert KeywordFirst(params) <==> KeywordFirst(first);
    }
  }

  // Every call assembled from the command line: the display fails just when too
  // few arguments are given by position for some positional parameter.  Without
  // *args that can be read off the declarations.
  lemma DisplayFailsFromLine(params: seq<CommandParameter>, ns: Namespace, passthrough: bool, rest: Value)
    ensures var shown := Display(params, 0, ArgsOf(params, ns), TheKwargs(params, ns, passthrough, rest));
            && (shown.None? <==> exists k :: 0 <= k < |params| && Flagged(params[k]) && |ArgsOf(params, ns)| <= k)
            && ((forall p :: p in params ==> !p.multiple) ==> (shown.None? <==> KeywordFirst(params)))
  {
    DisplayLooksUp(params, 0, ArgsOf(params, ns), TheKwargs(params, ns, passthrough, rest));
    hide Display, ArgsOf, Flagged, KeywordFirst;
    if forall p :: p in params ==> !p.multiple {
      TooFewIfKeywordFirst(params, ns);
    }
  }

  // def f(a=1, b=2) with b declared positional: any command line calls it so
  // that the display fails, before the call can be the TypeError that it is.
  lemma KeywordFirstHappens(a: string, b: string, ns: Namespace, rest: Value)
    requires a != b && PASSTHROUGH !in [a, b]
    ensures var sig := [Parameter(a, PositionalOrKeyword, Atom(1)), Parameter(b, PositionalOrKeyword, Atom(2))];
            var params := Derived([CommandParameter(b, Some(true), false, false, NoneValue)], sig);
            var (args, kwargs) := (ArgsOf(params, ns), TheKwargs(params, ns, false, rest));
            && Given(params, sig, ns, false)
            && Display(params, 0, args, kwargs).None? && !Binds(sig, args, kwargs)
  {
    var sig := [Parameter(a, PositionalOrKeyword, Atom(1)), Parameter(b, PositionalOrKeyword, Atom(2))];
    var cparams := [CommandParameter(b, Some(true), false, false, NoneValue)];
    var params := Derived(cparams, sig);
    hide Derived, Display, ArgsOf, TheKwargs, Binds;
    DerivedAt(cparams, sig);
    assert Declared(cparams, b) == cparams[0];
    assert Declared(cparams, a) == CommandParameter(a, None, false, false, NoneValue) by {
      assert cparams[..0] == [];
    }
    assert !ByPosition(params[0]) && ByPosition(params[1]) && Flagged(params[1]);
    assert forall p :: p in params ==> !p.multiple;
    DisplayFailsFromLine(params, ns, false, rest);
    MisplacedFails(params, sig, ns, false, rest, 0, 1);
  }

  // A call assembled from the command line that is right: what is shown for each
  // parameter is its own, and the display fails just when passthrough_args itself
  // is declared positional (as a keyword-only parameter: and too few arguments
  // precede it).
  lemma DisplayShowsOwn(params: seq<CommandParameter>, sig: seq<Parameter>, ns: Namespace, passthrough: bool,
                        rest: Value)
    requires Given(params, sig, ns, passthrough) && Assembles(params, sig, ns, passthrough)
    ensures forall i :: 0 <= i < |params| && ByPosition(params[i]) && !params[i].multiple ==>
      i < |ArgsOf(params, ns)| && ArgsOf(params, ns)[i] == ns(params[i].name)
    ensures Display(params, 0, ArgsOf(params, ns), TheKwargs(params, ns, passthrough, rest)).None? <==>
      exists k :: 0 <= k < |params| && params[k].name == PASSTHROUGH && Flagged(params[k])
        && (sig[k].kind.PositionalOrKeyword? || |ArgsOf(params, ns)| <= k)
  {
    hide ArgsOf, TheKwargs, Display, Assembles, WellFormed, Fits;
    ArgsShape(params, sig, ns);
    AssembledArgs(params, sig, ns, passthrough);
    DisplayLooksUp(params, 0, ArgsOf(params, ns), TheKwargs(params, ns, passthrough, rest));
    forall i | 0 <= i < |params| && !params[i].multiple
      ensures ByPosition(params[i]) ==> i < |ArgsOf(params, ns)| && ArgsOf(params, ns)[i] == ns(params[i].name)
      ensures !ByPosition(params[i]) && sig[i].kind.PositionalOrKeyword? ==> |ArgsOf(params, ns)| <= i
      ensures Flagged(params[i]) && !ByPosition(params[i]) ==> params[i].name == PASSTHROUGH
    {
      hide Lead, StarItems;
      PlainSplit(params, sig, ns, passthrough, i);
      PlainBounded(params, sig, ns, passthrough, i);
    }
  }

  // A plain parameter out of the lead lies beyond all arguments.
  lemma PlainBounded(params: seq<CommandParameter>, sig: seq<Parameter>, ns: Namespace, passthrough: bool, i: nat)
    requires Given(params, sig, ns, passthrough) && Assembles(params, sig, ns, passthrough) && i < |params|
    ensures sig[i].kind.PositionalOrKeyword? && !ByPosition(params[i]) ==> |ArgsOf(params, ns)| <= i
  {
    ArgsShape(params, sig, ns);
    AssembledArgs(params, sig, ns, passthrough);
    SlotKinds(sig);
  }
}
