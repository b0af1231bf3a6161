/** The printer registry of `prettyprinter/prettyprinter.py`:
    `register_pretty`, `is_registered` and the predicate fallback
    `_repr_pretty`. Types are ids, each with its MRO (the type itself first)
    and its deferred key (`module.qualname`); printers and predicates are
    opaque tags. */
module Registry {
  import opened Wrappers
  import Utils

  type TypeId = nat

  /** A printer registered with `singledispatch`: `BaseDispatch` is the
      fallback registered for `object`, any other printer is a tag. */
  datatype Dispatched = BaseDispatch | PrinterFn(fn: nat)

  /** The `type` argument of `register_pretty`: a class or a `str` naming
      one. */
  datatype TypeArg = ByName(name: string) | ByClass(cls: TypeId)

  /** The three tables: the dispatch registry, printers deferred by name,
      and (predicate, printer) pairs in registration order. */
  datatype Registry = Registry(dispatch: map<TypeId, Dispatched>, deferred: map<string, nat>, predicates: seq<(nat, nat)>)

  datatype RegError =
    | MissingTypeOrPredicate
    | BothTypeAndPredicate
    | AssertionFailed          // `assert callable(predicate)` with no predicate
    | DeferredWithoutCheck     // `register_deferred` set while `check_deferred` is not

  /** `register_pretty(type, predicate)(fn)`. An empty name is a falsy
      `type`, which falls through to the predicate branch and fails its
      assertion. */
  function RegisterPretty(reg: Registry, typeArg: Option<TypeArg>, pred: Option<nat>, fn: nat): (r: Result<Registry, RegError>)
    ensures typeArg.None? && pred.None? <==> r == Failure(MissingTypeOrPredicate)
    ensures typeArg.Some? && pred.Some? <==> r == Failure(BothTypeAndPredicate)
    ensures r.Success? && typeArg.Some? && typeArg.value.ByName? ==>
              r.value == reg.(deferred := reg.deferred[typeArg.value.name := fn])
    ensures r.Success? && typeArg.Some? && typeArg.value.ByClass? ==>
              r.value == reg.(dispatch := reg.dispatch[typeArg.value.cls := PrinterFn(fn)])
    ensures r.Success? && pred.Some? ==>
              r.value == reg.(predicates := reg.predicates + [(pred.value, fn)])
    ensures typeArg == Some(ByName("")) && pred.None? ==> r == Failure(AssertionFailed)
  {
    if typeArg.None? && pred.None? then Failure(MissingTypeOrPredicate)
    else if typeArg.Some? && pred.Some? then Failure(BothTypeAndPredicate)
    else if typeArg.Some? && typeArg.value != ByName("") then
      match typeArg.value
      case ByName(n) => Success(reg.(deferred := reg.deferred[n := fn]))
      case ByClass(c) => Success(reg.(dispatch := reg.dispatch[c := PrinterFn(fn)]))
    else if pred.None? then Failure(AssertionFailed)
    else Success(reg.(predicates := reg.predicates + [(pred.value, fn)]))
  }

  /** `singledispatch`'s choice for a type: the printer of the first type of
      its MRO that has one. */
  function Dispatch(dispatch: map<TypeId, Dispatched>, mro: seq<TypeId>): (r: Option<Dispatched>)
    ensures r.None? <==> forall k :: 0 <= k < |mro| ==> mro[k] !in dispatch
    ensures r.Some? ==> exists k :: 0 <= k < |mro| && mro[k] in dispatch && r.value == dispatch[mro[k]] &&
                                    forall j :: 0 <= j < k ==> mro[j] !in dispatch
  {
    var k := Utils.FirstIndex((u: TypeId) => u in dispatch, mro);
    if k < |mro| then Some(dispatch[mro[k]]) else None
  }

  /** Moves the printer deferred under `key` into the dispatch registry for
      `cls`, as `register_pretty(cls)(deferred_dispatch)` after the `pop`. */
  function Promote(reg: Registry, key: string, cls: TypeId): (r: Registry)
    requires key in reg.deferred
    ensures key !in r.deferred && r.deferred.Keys == reg.deferred.Keys - {key}
    ensures cls in r.dispatch && r.dispatch[cls] == PrinterFn(reg.deferred[key])
    ensures forall k :: k in reg.deferred && k != key ==> k in r.deferred && r.deferred[k] == reg.deferred[k]
    ensures forall u :: u in reg.dispatch && u != cls ==> u in r.dispatch && r.dispatch[u] == reg.dispatch[u]
    ensures r.predicates == reg.predicates
  {
    reg.(deferred := reg.deferred - {key}, dispatch := reg.dispatch[cls := PrinterFn(reg.deferred[key])])
  }

  /** `is_registered(type, check_superclasses, check_deferred,
      register_deferred)` for a type with MRO `mro` (`mro[0]` is the type)
      and deferred keys `keyOf`: the answer and the registry afterwards. */
  function IsRegistered(reg: Registry, mro: seq<TypeId>, keyOf: TypeId -> string,
                        checkSuper: bool, checkDeferred: bool, registerDeferred: bool)
    : (r: Result<(bool, Registry), RegError>)
    requires |mro| >= 1
    ensures r.Failure? <==> registerDeferred && !checkDeferred
    ensures r.Success? && mro[0] in reg.dispatch ==> r.value == (true, reg)
    ensures r.Success? && mro[0] !in reg.dispatch && checkDeferred && keyOf(mro[0]) in reg.deferred ==>
              r.value == (true, if registerDeferred then Promote(reg, keyOf(mro[0]), mro[0]) else reg)
    ensures r.Success? && !registerDeferred ==> r.value.1 == reg
    ensures r.Success? && !checkSuper && mro[0] !in reg.dispatch && !(checkDeferred && keyOf(mro[0]) in reg.deferred) ==>
              r.value == (false, reg)
    ensures r.Success? && checkSuper && checkDeferred && mro[0] !in reg.dispatch && keyOf(mro[0]) !in reg.deferred ==>
              forall k :: 1 <= k < |mro| && keyOf(mro[k]) in reg.deferred &&
                          (forall j :: 1 <= j < k ==> keyOf(mro[j]) !in reg.deferred) ==>
                r.value == (true, if registerDeferred then Promote(reg, keyOf(mro[k]), mro[k]) else reg)
    ensures r.Success? && checkSuper && mro[0] !in reg.dispatch && !(checkDeferred && keyOf(mro[0]) in reg.deferred) &&
            (!checkDeferred || forall k :: 1 <= k < |mro| ==> keyOf(mro[k]) !in reg.deferred) ==>
              r.value == (Dispatch(reg.dispatch, mro).Some? && Dispatch(reg.dispatch, mro).value.PrinterFn?, reg)
    ensures r.Success? && r.value.1 != reg ==>
              exists k :: 0 <= k < |mro| && keyOf(mro[k]) in reg.deferred &&
                          r.value.1 == Promote(reg, keyOf(mro[k]), mro[k]) && r.value.0 &&
                          forall j :: 0 <= j < k ==> keyOf(mro[j]) !in reg.deferred
  {
    var t := mro[0];
    if !checkDeferred && registerDeferred then Failure(DeferredWithoutCheck)
    else if t in reg.dispatch then Success((true, reg))
    else if checkDeferred && keyOf(t) in reg.deferred then
      Success((true, if registerDeferred then Promote(reg, keyOf(t), t) else reg))
    else if !checkSuper then Success((false, reg))
    else SuperclassAnswer(reg, mro, keyOf, checkDeferred, registerDeferred)
  }

  /** The superclass path of `is_registered`: the first supertype with a
      deferred printer (promoted when asked), otherwise whether dispatch
      finds a printer other than the `object` fallback. */
  function SuperclassAnswer(reg: Registry, mro: seq<TypeId>, keyOf: TypeId -> string,
                            checkDeferred: bool, registerDeferred: bool)
    : (r: Result<(bool, Registry), RegError>)
    requires |mro| >= 1
    ensures r.Success?
    ensures checkDeferred ==>
              forall k :: 1 <= k < |mro| && keyOf(mro[k]) in reg.deferred &&
                          (forall j :: 1 <= j < k ==> keyOf(mro[j]) !in reg.deferred) ==>
                r.value == (true, if registerDeferred then Promote(reg, keyOf(mro[k]), mro[k]) else reg)
    ensures (!checkDeferred || forall k :: 1 <= k < |mro| ==> keyOf(mro[k]) !in reg.deferred) ==>
              r.value == (Dispatch(reg.dispatch, mro).Some? && Dispatch(reg.dispatch, mro).value.PrinterFn?, reg)
    ensures !registerDeferred ==> r.value.1 == reg
    ensures r.value.1 != reg ==>
              exists k :: 1 <= k < |mro| && keyOf(mro[k]) in reg.deferred &&
                          r.value.1 == Promote(reg, keyOf(mro[k]), mro[k]) && r.value.0 &&
                          forall j :: 1 <= j < k ==> keyOf(mro[j]) !in reg.deferred
  {
    var supers := mro[1..];
    var k := if checkDeferred then Utils.FirstIndex((u: TypeId) => keyOf(u) in reg.deferred, supers) else |supers|;
    assert forall j :: 0 <= j < |supers| ==> supers[j] == mro[j + 1];
    if k < |supers| then
      var s := supers[k];
      assert s == mro[k + 1];
      Success((true, if registerDeferred then Promote(reg, keyOf(s), s) else reg))
    else
      Success((Dispatch(reg.dispatch, mro).Some? && Dispatch(reg.dispatch, mro).value.PrinterFn?, reg))
  }

  /** Once `is_registered` has promoted a deferred printer, asking again for
      the promoted type answers from the registry and changes nothing. */
  lemma PromotedAnswersFromRegistry(reg: Registry, mro: seq<TypeId>, keyOf: TypeId -> string,
                                    checkSuper: bool, uMro: seq<TypeId>)
    requires |mro| >= 1 && |uMro| >= 1
    requires IsRegistered(reg, mro, keyOf, checkSuper, true, true).Success?
    requires IsRegistered(reg, mro, keyOf, checkSuper, true, true).value.1 != reg
    requires uMro[0] in mro
    requires keyOf(uMro[0]) in reg.deferred
    requires forall j :: 0 <= j < |mro| && mro[j] == uMro[0] ==> forall i :: 0 <= i < j ==> keyOf(mro[i]) !in reg.deferred
    ensures var reg' := IsRegistered(reg, mro, keyOf, checkSuper, true, true).value.1;
            uMro[0] in reg'.dispatch &&
            IsRegistered(reg', uMro, keyOf, checkSuper, true, true) == Success((true, reg'))
  {
    var reg' := IsRegistered(reg, mro, keyOf, checkSuper, true, true).value.1;
    var k :| 0 <= k < |mro| && keyOf(mro[k]) in reg.deferred &&
             reg' == Promote(reg, keyOf(mro[k]), mro[k]) &&
             forall j :: 0 <= j < k ==> keyOf(mro[j]) !in reg.deferred;
    var j :| 0 <= j < |mro| && mro[j] == uMro[0];
    // The promoted entry is the first deferred one, and no deferred entry
    // precedes the asked type, so the two are the same MRO position.
    assert j == k;
  }

  /** `_repr_pretty`: the printer of the first registered predicate the value
      satisfies, or None for the plain `repr` fallback. */
  function PredicateDispatch(predicates: seq<(nat, nat)>, holds: nat -> bool): (r: Option<nat>)
    ensures r.None? <==> forall k :: 0 <= k < |predicates| ==> !holds(predicates[k].0)
    ensures r.Some? ==> exists k :: 0 <= k < |predicates| && holds(predicates[k].0) && r.value == predicates[k].1 &&
                                    forall j :: 0 <= j < k ==> !holds(predicates[j].0)
  {
    var k := Utils.FirstIndex((p: (nat, nat)) => holds(p.0), predicates);
    if k < |predicates| then Some(predicates[k].1) else None
  }

  /** A predicate registered later never overrides an earlier one that
      already holds. */
  lemma LaterPredicateDoesNotOverride(reg: Registry, p: nat, fn: nat, holds: nat -> bool)
    requires PredicateDispatch(reg.predicates, holds).Some?
    ensures RegisterPretty(reg, None, Some(p), fn).Success?
    ensures PredicateDispatch(RegisterPretty(reg, None, Some(p), fn).value.predicates, holds) ==
              PredicateDispatch(reg.predicates, holds)
  {
    var ps := reg.predicates;
    var ps' := ps + [(p, fn)];
    var f := (q: (nat, nat)) => holds(q.0);
    var k := Utils.FirstIndex(f, ps);
    FirstIndexAppend(f, ps, [(p, fn)]);
    assert ps'[k] == ps[k];
  }

  lemma {:induction false} FirstIndexAppend<T>(f: T -> bool, xs: seq<T>, ys: seq<T>)
    requires Utils.FirstIndex(f, xs) < |xs|
    ensures Utils.FirstIndex(f, xs + ys) == Utils.FirstIndex(f, xs)
    decreases xs
  {
    assert (xs + ys)[0] == xs[0];
    if !f(xs[0]) {
      assert (xs + ys)[1..] == xs[1..] + ys;
      FirstIndexAppend(f, xs[1..], ys);
    }
  }
}
