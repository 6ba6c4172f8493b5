/**
 * The animation processor handed to react-move's `NodeGroup`: for each phase
 * (`start`, `enter`, `update`, `leave`) it turns a datum into the object or
 * list of transitions react-move animates, layering the user's `animate`
 * prop over the defaults.
 */
module Animate {
  import opened Js

  /** `(processedValue, datum, index) => PlainObject`: a user animation method. */
  type PhaseMethod<!D> = (Value, D, int) -> Obj

  /** What `animate[key]` may hold: a phase-agnostic method, or an object with
      per-phase methods and its own `events`/`timing` (`Undefined` when absent). */
  datatype AttrConfig<!D> =
    | AttrMethod(fn: PhaseMethod<D>)
    | AttrObject(start: Option<PhaseMethod<D>>, enter: Option<PhaseMethod<D>>,
                 update: Option<PhaseMethod<D>>, leave: Option<PhaseMethod<D>>,
                 events: Value, timing: Value)

  /** The `animate` prop: a boolean, or an object with root `events`/`timing` and one entry per attribute. */
  datatype AnimateProp<!D> =
    | AnimateBool(enabled: bool)
    | AnimateObject(events: Value, timing: Value, attrs: map<string, AttrConfig<D>>)

  datatype Phase = Start | Enter | Update | Leave

  /** What a phase processor returns: one object, or (lodash `map` over an object) one object per key. */
  datatype Transition = Plain(state: Obj) | PerKey(entries: seq<Obj>)

  /** `get(animate, [key, 'start'])`: only an attribute object can carry a `start` method. */
  function StartMethod<D>(animate: AnimateProp<D>, key: string): Option<PhaseMethod<D>> {
    match animate
    case AnimateBool(_) => None
    case AnimateObject(_, _, attrs) =>
      if key in attrs && attrs[key].AttrObject? then attrs[key].start else None
  }

  /** The state one processed entry contributes in the `start` phase:
      `{[key]: value, ...(userMethod && userMethod(value, data, index))}`. */
  function ResolvedStartState<D>(animate: AnimateProp<D>, key: string, value: Value, datum: D, index: int): Obj {
    var m := StartMethod(animate, key);
    Spread([(key, value)], if m.Some? then m.value(value, datum, index) else [])
  }

  /** The `reduce` of `animationStartFactory`, spreading each entry's resolved state over the accumulator. */
  function StartFold<D>(animate: AnimateProp<D>, processed: Obj, datum: D, index: int, acc: Obj): Obj
    decreases |processed|
  {
    if processed == [] then acc
    else
      var (key, value) := processed[0];
      StartFold(animate, processed[1..], datum, index, Spread(acc, ResolvedStartState(animate, key, value, datum, index)))
  }

  /** The resolved start states of all entries, one after the other. */
  function ResolvedStartStates<D>(animate: AnimateProp<D>, processed: Obj, datum: D, index: int): Obj
    decreases |processed|
  {
    if processed == [] then []
    else ResolvedStartState(animate, processed[0].0, processed[0].1, datum, index)
           + ResolvedStartStates(animate, processed[1..], datum, index)
  }

  /** `animationStartFactory(animate, processor)(datum, index)`: the resolved
      states of the entries spread, in key order, over `{}`. */
  function AnimationStart<D>(animate: AnimateProp<D>, processor: D -> Obj, datum: D, index: int): (r: Obj)
    ensures r == Spread([], ResolvedStartStates(animate, processor(datum), datum, index))
  {
    StartFoldSpreads(animate, processor(datum), datum, index, []);
    StartFold(animate, processor(datum), datum, index, [])
  }

  /** Spreading two objects in turn is spreading their concatenation. */
  lemma {:induction false} SpreadConcat(a: Obj, b: Obj, c: Obj)
    ensures Spread(Spread(a, b), c) == Spread(a, b + c)
    decreases |b|
  {
    if b == [] {
      assert b + c == c;
    } else {
      assert (b + c)[0] == b[0] && (b + c)[1..] == b[1..] + c;
      SpreadConcat(Set(a, b[0].0, b[0].1), b[1..], c);
    }
  }

  lemma {:induction false} StartFoldSpreads<D>(animate: AnimateProp<D>, processed: Obj, datum: D, index: int, acc: Obj)
    ensures StartFold(animate, processed, datum, index, acc) == Spread(acc, ResolvedStartStates(animate, processed, datum, index))
    decreases |processed|
  {
    if processed != [] {
      var (key, value) := processed[0];
      var s := ResolvedStartState(animate, key, value, datum, index);
      StartFoldSpreads(animate, processed[1..], datum, index, Spread(acc, s));
      SpreadConcat(acc, s, ResolvedStartStates(animate, processed[1..], datum, index));
    }
  }

  /** The start state is the spread of every entry's resolved state in key order, so a
      later entry (or its user method) overwrites what an earlier one wrote. */
  lemma StartIsLayered<D>(animate: AnimateProp<D>, processor: D -> Obj, datum: D, index: int, k: string)
    ensures Lookup(AnimationStart(animate, processor, datum, index), k)
         == Lookup(ResolvedStartStates(animate, processor(datum), datum, index), k)
  {
    StartFoldSpreads(animate, processor(datum), datum, index, []);
    SpreadLookup([], ResolvedStartStates(animate, processor(datum), datum, index), k);
  }

  lemma {:induction false} ResolvedWithoutMethods<D>(animate: AnimateProp<D>, processed: Obj, datum: D, index: int)
    requires forall i :: 0 <= i < |processed| ==> StartMethod(animate, processed[i].0).None?
    ensures ResolvedStartStates(animate, processed, datum, index) == processed
    decreases |processed|
  {
    if processed != [] {
      assert StartMethod(animate, processed[0].0).None?;
      assert forall i :: 0 <= i < |processed[1..]| ==> processed[1..][i] == processed[i + 1];
      ResolvedWithoutMethods(animate, processed[1..], datum, index);
      assert processed == [processed[0]] + processed[1..];
    }
  }

  /** Without `start` methods the start phase hands back the processed datum itself: values are never wrapped. */
  lemma StartWithoutMethods<D>(animate: AnimateProp<D>, processor: D -> Obj, datum: D, index: int)
    requires UniqueKeys(processor(datum))
    requires forall i :: 0 <= i < |processor(datum)| ==> StartMethod(animate, processor(datum)[i].0).None?
    ensures AnimationStart(animate, processor, datum, index) == processor(datum)
  {
    var p := processor(datum);
    StartFoldSpreads(animate, p, datum, index, []);
    ResolvedWithoutMethods(animate, p, datum, index);
    SpreadDisjoint([], p);
    assert [] + p == p;
  }

  /** `defaultProcessor`'s `reduce`: `{...accum, [key]: [value]}`. */
  function WrapFold(processed: Obj, acc: Obj): Obj
    decreases |processed|
  {
    if processed == [] then acc
    else WrapFold(processed[1..], Set(acc, processed[0].0, List([processed[0].1])))
  }

  /** Every value wrapped in a one-element array, keys unchanged. */
  function Wrapped(processed: Obj): (r: Obj)
    ensures |r| == |processed|
    ensures forall i :: 0 <= i < |r| ==> r[i] == (processed[i].0, List([processed[i].1]))
  {
    if processed == [] then [] else [(processed[0].0, List([processed[0].1]))] + Wrapped(processed[1..])
  }

  /** `defaultProcessor(processor)(datum)`: every processed value, wrapped, spread over `{}`. */
  function DefaultProcessor<D>(processor: D -> Obj, datum: D): (r: Obj)
    ensures r == Spread([], Wrapped(processor(datum)))
  {
    WrapFoldSpreads(processor(datum), []);
    WrapFold(processor(datum), [])
  }

  lemma {:induction false} WrapFoldSpreads(processed: Obj, acc: Obj)
    ensures WrapFold(processed, acc) == Spread(acc, Wrapped(processed))
    decreases |processed|
  {
    if processed != [] {
      WrapFoldSpreads(processed[1..], Set(acc, processed[0].0, List([processed[0].1])));
      assert Wrapped(processed)[1..] == Wrapped(processed[1..]);
    }
  }

  lemma {:induction false} WrappedUnique(processed: Obj)
    requires UniqueKeys(processed)
    ensures Keys(Wrapped(processed)) == Keys(processed) && UniqueKeys(Wrapped(processed))
    decreases |processed|
  {
    if processed != [] {
      WrappedUnique(processed[1..]);
      assert Wrapped(processed)[1..] == Wrapped(processed[1..]);
    }
  }

  /** The phase processor `animationProcessorFactory(animate, animatableKeys, processor, phase)` applied to a datum. */
  function AnimationProcess<D>(animate: AnimateProp<D>, animatableKeys: seq<string>, processor: D -> Obj,
                               phase: Phase, datum: D, index: int): (r: Transition)
    ensures r.PerKey? <==> phase != Start && animate.AnimateObject?
    ensures r.PerKey? ==> |r.entries| == |processor(datum)|
  {
    if phase == Start then Plain(AnimationStart(animate, processor, datum, index))
    else if animate.AnimateBool? then Plain(DefaultProcessor(processor, datum))
    else PerKey(Entries(animate, animatableKeys, phase, processor(datum), datum, index))
  }

  /** `start` is decided before the boolean check: a boolean `animate` leaves the start state unwrapped. */
  lemma StartBeforeBoolean<D>(enabled: bool, animatableKeys: seq<string>, processor: D -> Obj, datum: D, index: int)
    requires UniqueKeys(processor(datum))
    ensures AnimationProcess(AnimateBool(enabled), animatableKeys, processor, Start, datum, index) == Plain(processor(datum))
  {
    StartWithoutMethods(AnimateBool(enabled), processor, datum, index);
  }

  /** A boolean `animate` wraps every processed value as `[value]`, animatable or not, and adds no key. */
  lemma BooleanWrapsEveryKey<D>(enabled: bool, animatableKeys: seq<string>, processor: D -> Obj,
                                phase: Phase, datum: D, index: int)
    requires phase != Start && UniqueKeys(processor(datum))
    ensures AnimationProcess(AnimateBool(enabled), animatableKeys, processor, phase, datum, index) == Plain(Wrapped(processor(datum)))
  {
    var p := processor(datum);
    WrapFoldSpreads(p, []);
    WrappedUnique(p);
    var w := Wrapped(p);
    forall i | 0 <= i < |w| ensures w[i].0 !in Keys([]) { }
    SpreadDisjoint([], w);
    assert [] + w == w;
  }

  /** `get(specificAnimationMethods, [key, phase])`. */
  function PhaseField<D>(attrs: map<string, AttrConfig<D>>, key: string, phase: Phase): Option<PhaseMethod<D>> {
    if key in attrs && attrs[key].AttrObject? then
      match phase
      case Start => attrs[key].start
      case Enter => attrs[key].enter
      case Update => attrs[key].update
      case Leave => attrs[key].leave
    else None
  }

  /** `getMethodIfExists(methodMap, key)`: the entry when it is itself a function, otherwise nothing. */
  function GetMethodIfExists<D>(methodMap: map<string, AttrConfig<D>>, key: string): (r: Option<PhaseMethod<D>>)
    ensures r.Some? <==> key in methodMap && methodMap[key].AttrMethod?
  {
    if key in methodMap && methodMap[key].AttrMethod? then Some(methodMap[key].fn) else None
  }

  /** The user method for `key` in `phase`: `animate[key][phase]` if defined, else `animate[key]` when that is a function. */
  function UserMethod<D>(attrs: map<string, AttrConfig<D>>, key: string, phase: Phase): (r: Option<PhaseMethod<D>>)
    ensures key !in attrs ==> r.None?
    ensures key in attrs && attrs[key].AttrMethod? ==> r == Some(attrs[key].fn)
    ensures key in attrs && attrs[key].AttrObject? ==> r == PhaseField(attrs, key, phase)
  {
    var specific := PhaseField(attrs, key, phase);
    if specific.Some? then specific else GetMethodIfExists(attrs, key)
  }

  /** `get(specificAnimationMethods, [key, field], rootValue)`: the attribute's own value unless it is undefined. */
  function Override<D>(attrs: map<string, AttrConfig<D>>, key: string, own: AttrConfig<D> -> Value, rootValue: Value): (r: Value)
    ensures key in attrs && attrs[key].AttrObject? && own(attrs[key]) != Undefined ==> r == own(attrs[key])
    ensures !(key in attrs && attrs[key].AttrObject? && own(attrs[key]) != Undefined) ==> r == rootValue
  {
    if key in attrs && attrs[key].AttrObject? && own(attrs[key]) != Undefined then own(attrs[key]) else rootValue
  }

  function EventsOf<D>(c: AttrConfig<D>): Value { if c.AttrObject? then c.events else Undefined }
  function TimingOf<D>(c: AttrConfig<D>): Value { if c.AttrObject? then c.timing else Undefined }

  /** The user method's result for one entry, `{}` when there is none. */
  function UserResult<D>(attrs: map<string, AttrConfig<D>>, key: string, phase: Phase, value: Value, datum: D, index: int): Obj {
    var m := UserMethod(attrs, key, phase);
    if m.Some? then m.value(value, datum, index) else []
  }

  /** The transition for one processed entry of an object `animate`: for an animatable
      key `{[key]: [value], events, timing, ...userResult}`, otherwise `{[key]: value}`. */
  function Entry<D>(animate: AnimateProp<D>, animatableKeys: seq<string>, phase: Phase,
                    key: string, value: Value, datum: D, index: int): (r: Obj)
    requires animate.AnimateObject?
    ensures Lookup(r, key).Some?
  {
    if key in animatableKeys then
      var events := Override(animate.attrs, key, EventsOf, animate.events);
      var timing := Override(animate.attrs, key, TimingOf, animate.timing);
      var o1 := [(key, List([value]))];
      var o2 := Set(o1, "events", events);
      var o3 := Set(o2, "timing", timing);
      var u := UserResult(animate.attrs, key, phase, value, datum, index);
      SetFacts(o1, "events", events);
      SetFacts(o2, "timing", timing);
      SpreadLookup(o3, u, key);
      Spread(o3, u)
    else [(key, value)]
  }

  /** The lodash `map` over the processed datum. */
  function Entries<D>(animate: AnimateProp<D>, animatableKeys: seq<string>, phase: Phase,
                      processed: Obj, datum: D, index: int): (r: seq<Obj>)
    requires animate.AnimateObject?
    ensures |r| == |processed|
    ensures forall i :: 0 <= i < |r| ==> r[i] == Entry(animate, animatableKeys, phase, processed[i].0, processed[i].1, datum, index)
    decreases |processed|
  {
    if processed == [] then []
    else [Entry(animate, animatableKeys, phase, processed[0].0, processed[0].1, datum, index)]
         + Entries(animate, animatableKeys, phase, processed[1..], datum, index)
  }

  /** An object `animate` gives one transition per processed key, in key order, each defining its key. */
  lemma ObjectOneEntryPerKey<D>(animate: AnimateProp<D>, animatableKeys: seq<string>, processor: D -> Obj,
                                phase: Phase, datum: D, index: int)
    requires phase != Start && animate.AnimateObject?
    ensures var r := AnimationProcess(animate, animatableKeys, processor, phase, datum, index);
            r.PerKey? && |r.entries| == |processor(datum)|
            && forall i :: 0 <= i < |r.entries| ==> Lookup(r.entries[i], processor(datum)[i].0).Some?
  {
  }

  /** A key outside `animatableKeys` keeps its raw value and consults no user method. */
  lemma NonAnimatableEntry<D>(animate: AnimateProp<D>, animatableKeys: seq<string>, phase: Phase,
                              key: string, value: Value, datum: D, index: int)
    requires animate.AnimateObject? && key !in animatableKeys
    ensures Entry(animate, animatableKeys, phase, key, value, datum, index) == [(key, value)]
  {
  }

  /**
   * How an animatable entry reads back: the user method's result wins on every
   * key it sets; otherwise the key holds `[value]`, `events` and `timing` hold the
   * attribute's own setting or else the root one, and nothing else is set.
   */
  lemma AnimatableEntry<D>(animate: AnimateProp<D>, animatableKeys: seq<string>, phase: Phase,
                           key: string, value: Value, datum: D, index: int, j: string)
    requires animate.AnimateObject? && key in animatableKeys
    ensures var e := Entry(animate, animatableKeys, phase, key, value, datum, index);
            var u := UserResult(animate.attrs, key, phase, value, datum, index);
            Lookup(e, j) == if Lookup(u, j).Some? then Lookup(u, j)
                            else if j == "timing" then Some(Override(animate.attrs, key, TimingOf, animate.timing))
                            else if j == "events" then Some(Override(animate.attrs, key, EventsOf, animate.events))
                            else if j == key then Some(List([value]))
                            else None
  {
    var events := Override(animate.attrs, key, EventsOf, animate.events);
    var timing := Override(animate.attrs, key, TimingOf, animate.timing);
    var o1 := [(key, List([value]))];
    var o2 := Set(o1, "events", events);
    var o3 := Set(o2, "timing", timing);
    SetFacts(o1, "events", events);
    SetFacts(o2, "timing", timing);
    assert Lookup(o1, j) == if j == key then Some(List([value])) else None;
    SpreadLookup(o3, UserResult(animate.attrs, key, phase, value, datum, index), j);
  }
}
