/**
 * The memoisation helpers: a derived state is computed by running named
 * updaters in order, and each updater tests whether the props it depends on
 * changed.
 */
module Performance {
  import opened Js

  /** One entry of a `propUpdates` object: `(acc, key, prevProps, nextProps, context) => newAcc`. */
  type Updater<!S, -P, -C> = (S, string, P, P, C) -> S

  /** `stateFromPropUpdates`: a left fold of the updaters, in key order, starting from `state`. */
  function StateFromPropUpdates<S, P, C>(
    propUpdates: seq<(string, Updater<S, P, C>)>, prevProps: P, nextProps: P, state: S, context: C): S
    decreases |propUpdates|
  {
    if propUpdates == [] then state
    else
      var (key, update) := propUpdates[0];
      StateFromPropUpdates(propUpdates[1..], prevProps, nextProps, update(state, key, prevProps, nextProps, context), context)
  }

  /** The last updater receives what the earlier ones produced, with the same props and context. */
  lemma {:induction false} StateFromPropUpdatesSnoc<S, P, C>(
    propUpdates: seq<(string, Updater<S, P, C>)>, key: string, update: Updater<S, P, C>,
    prevProps: P, nextProps: P, state: S, context: C)
    ensures StateFromPropUpdates(propUpdates + [(key, update)], prevProps, nextProps, state, context)
         == update(StateFromPropUpdates(propUpdates, prevProps, nextProps, state, context), key, prevProps, nextProps, context)
    decreases |propUpdates|
  {
    if propUpdates != [] {
      var (k0, u0) := propUpdates[0];
      assert (propUpdates + [(key, update)])[1..] == propUpdates[1..] + [(key, update)];
      StateFromPropUpdatesSnoc(propUpdates[1..], key, update, prevProps, nextProps, u0(state, k0, prevProps, nextProps, context), context);
    } else {
      assert propUpdates + [(key, update)] == [(key, update)];
    }
  }

  /** When every updater hands back its accumulator for these props, the state is unchanged. */
  lemma {:induction false} StateFromPropUpdatesUnchanged<S, P, C>(
    propUpdates: seq<(string, Updater<S, P, C>)>, prevProps: P, nextProps: P, state: S, context: C)
    requires forall i, s :: 0 <= i < |propUpdates| ==> propUpdates[i].1(s, propUpdates[i].0, prevProps, nextProps, context) == s
    ensures StateFromPropUpdates(propUpdates, prevProps, nextProps, state, context) == state
    decreases |propUpdates|
  {
    if propUpdates != [] {
      assert propUpdates[0].1(state, propUpdates[0].0, prevProps, nextProps, context) == state;
      assert forall i, s :: 0 <= i < |propUpdates[1..]| ==>
        propUpdates[1..][i].1(s, propUpdates[1..][i].0, prevProps, nextProps, context) == s by {
        forall i, s | 0 <= i < |propUpdates[1..]|
          ensures propUpdates[1..][i].1(s, propUpdates[1..][i].0, prevProps, nextProps, context) == s {
          assert propUpdates[1..][i] == propUpdates[i + 1];
        }
      }
      StateFromPropUpdatesUnchanged(propUpdates[1..], prevProps, nextProps, state, context);
    }
  }

  /** lodash `eq`, on the values modelled here. */
  predicate Eq(a: Value, b: Value) {
    a == b
  }

  /** `propsToCompare || Object.keys(nextProps)`. */
  function Comparands(nextProps: Obj, propsToCompare: Option<seq<string>>): seq<string> {
    match propsToCompare
    case Some(names) => names
    case None => Keys(nextProps)
  }

  /** The `reduce` inside `propsChanged`: stays true while each prop is omitted or compares equal. */
  function AllSame(acc: bool, props: seq<string>, prevProps: Obj, nextProps: Obj, propsToOmit: seq<string>,
                   comparator: (Value, Value) -> bool): bool
    decreases |props|
  {
    if props == [] then acc
    else
      var p := props[0];
      AllSame(acc && (p in propsToOmit || comparator(Get(prevProps, p), Get(nextProps, p))),
              props[1..], prevProps, nextProps, propsToOmit, comparator)
  }

  /** `propsChanged`. */
  function PropsChanged(prevProps: Obj, nextProps: Obj, propsToCompare: Option<seq<string>>, propsToOmit: seq<string>,
                        comparator: (Value, Value) -> bool): bool
  {
    !AllSame(true, Comparands(nextProps, propsToCompare), prevProps, nextProps, propsToOmit, comparator)
  }

  /** A prop that makes `propsChanged` true: compared, not omitted, and different. */
  predicate Differs(prevProps: Obj, nextProps: Obj, propsToOmit: seq<string>, comparator: (Value, Value) -> bool, p: string) {
    p !in propsToOmit && !comparator(Get(prevProps, p), Get(nextProps, p))
  }

  lemma {:induction false} AllSameIff(acc: bool, props: seq<string>, prevProps: Obj, nextProps: Obj, propsToOmit: seq<string>,
                                      comparator: (Value, Value) -> bool)
    ensures AllSame(acc, props, prevProps, nextProps, propsToOmit, comparator)
        <==> acc && forall i :: 0 <= i < |props| ==> !Differs(prevProps, nextProps, propsToOmit, comparator, props[i])
    decreases |props|
  {
    if props != [] {
      var p := props[0];
      AllSameIff(acc && (p in propsToOmit || comparator(Get(prevProps, p), Get(nextProps, p))),
                 props[1..], prevProps, nextProps, propsToOmit, comparator);
      assert forall i :: 1 <= i < |props| ==> props[i] == props[1..][i - 1];
    }
  }

  /** `propsChanged` is true exactly when some compared prop outside the omit list fails the comparator. */
  lemma PropsChangedIff(prevProps: Obj, nextProps: Obj, propsToCompare: Option<seq<string>>, propsToOmit: seq<string>,
                        comparator: (Value, Value) -> bool)
    ensures PropsChanged(prevProps, nextProps, propsToCompare, propsToOmit, comparator)
        <==> exists i :: 0 <= i < |Comparands(nextProps, propsToCompare)|
               && Differs(prevProps, nextProps, propsToOmit, comparator, Comparands(nextProps, propsToCompare)[i])
  {
    AllSameIff(true, Comparands(nextProps, propsToCompare), prevProps, nextProps, propsToOmit, comparator);
  }

  /** The same props never count as changed under `eq`. */
  lemma PropsChangedSelf(props: Obj, propsToCompare: Option<seq<string>>, propsToOmit: seq<string>)
    ensures !PropsChanged(props, props, propsToCompare, propsToOmit, Eq)
  {
    PropsChangedIff(props, props, propsToCompare, propsToOmit, Eq);
  }

  /** Omitted props have no say: two pairs of props that agree on every compared, non-omitted prop give the same answer. */
  lemma PropsChangedIgnoresOmitted(prevProps: Obj, nextProps: Obj, prevProps': Obj, nextProps': Obj,
                                   names: seq<string>, propsToOmit: seq<string>, comparator: (Value, Value) -> bool)
    requires forall i :: 0 <= i < |names| && names[i] !in propsToOmit ==>
      Get(prevProps, names[i]) == Get(prevProps', names[i]) && Get(nextProps, names[i]) == Get(nextProps', names[i])
    ensures PropsChanged(prevProps, nextProps, Some(names), propsToOmit, comparator)
        == PropsChanged(prevProps', nextProps', Some(names), propsToOmit, comparator)
  {
    PropsChangedIff(prevProps, nextProps, Some(names), propsToOmit, comparator);
    PropsChangedIff(prevProps', nextProps', Some(names), propsToOmit, comparator);
    assert forall i :: 0 <= i < |names| ==>
      Differs(prevProps, nextProps, propsToOmit, comparator, names[i]) == Differs(prevProps', nextProps', propsToOmit, comparator, names[i]);
  }

  /** Without an explicit list only the keys of `nextProps` are compared: what `prevProps` holds elsewhere is ignored. */
  lemma PropsChangedIgnoresPrevOnly(prevProps: Obj, prevProps': Obj, nextProps: Obj, propsToOmit: seq<string>,
                                    comparator: (Value, Value) -> bool)
    requires forall i :: 0 <= i < |nextProps| ==> Get(prevProps, nextProps[i].0) == Get(prevProps', nextProps[i].0)
    ensures PropsChanged(prevProps, nextProps, None, propsToOmit, comparator)
        == PropsChanged(prevProps', nextProps, None, propsToOmit, comparator)
  {
    PropsChangedIff(prevProps, nextProps, None, propsToOmit, comparator);
    PropsChangedIff(prevProps', nextProps, None, propsToOmit, comparator);
    var ks := Keys(nextProps);
    assert forall i :: 0 <= i < |ks| ==>
      Differs(prevProps, nextProps, propsToOmit, comparator, ks[i]) == Differs(prevProps', nextProps, propsToOmit, comparator, ks[i]);
  }

  /** Against the empty `{}` of a first render, a listed prop counts as changed exactly when it is defined. */
  lemma PropsChangedFromEmpty(nextProps: Obj, names: seq<string>)
    ensures PropsChanged([], nextProps, Some(names), [], Eq)
        <==> exists i :: 0 <= i < |names| && Get(nextProps, names[i]) != Undefined
  {
    PropsChangedIff([], nextProps, Some(names), [], Eq);
  }
}
