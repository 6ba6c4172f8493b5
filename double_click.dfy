/**
 * The double-click disambiguator the treemap components share. A first click
 * arms a timer that will report it as a single click; a second click before
 * the timer fires is reported as a double-click instead, and the armed single
 * click is dropped. The timer firing is an explicit `Expire` event, so no
 * clock is modelled. `A` stands for the `(event, data, component)` arguments
 * a click hands on to the callbacks.
 */
module DoubleClick {
  import opened Js

  /** `defaultProps.doubleClickTiming`, in milliseconds. */
  const DefaultTiming: real := 250.0

  /**
   * `clickTimeout`: `Unset` before `componentDidMount` assigns it (JavaScript's
   * `undefined`), `Cleared` once it is `null`, or a timer armed for `delay`
   * milliseconds whose callback will report the click `args`.
   */
  datatype Timeout<A> = Unset | Cleared | Pending(args: A, delay: real)

  /** A click handed to `handleClicks`, or the armed timer firing. */
  datatype Event<A> = Click(args: A) | Expire

  /** A callback invoked on the props: `onClick` or `onDoubleClick` with its arguments. */
  datatype Fired<A> = Single(args: A) | Double(args: A)

  /** `clickTimeout` after one event, and the callback the event invoked, if any. */
  datatype Outcome<A> = Outcome(timeout: Timeout<A>, fired: Option<Fired<A>>)

  /**
   * One event. A click while `clickTimeout !== null` (armed, or still
   * `undefined` before mount) is a double-click carrying this click's arguments;
   * a click with `null` arms the timer with this click's arguments. The timer
   * firing reports the click that armed it. Whatever fires leaves `null` behind.
   */
  function Step<A(==)>(t: Timeout<A>, e: Event<A>, timing: real): (r: Outcome<A>)
    ensures r.fired.Some? ==> r.timeout == Cleared
    ensures e.Click? && !t.Cleared? ==> r.fired == Some(Double(e.args))
    ensures e.Click? && t.Cleared? ==> r.fired.None? && r.timeout == Pending(e.args, timing)
    ensures e.Expire? && t.Pending? ==> r.fired == Some(Single(t.args))
    ensures e.Expire? && !t.Pending? ==> r.fired.None? && r.timeout == t
  {
    match e
    case Click(a) =>
      if t.Cleared? then Outcome(Pending(a, timing), None) else Outcome(Cleared, Some(Double(a)))
    case Expire =>
      if t.Pending? then Outcome(Cleared, Some(Single(t.args))) else Outcome(t, None)
  }

  /** The field and the callbacks invoked so far, oldest first. */
  datatype Trace<A> = Trace(timeout: Timeout<A>, fired: seq<Fired<A>>)

  function Emitted<A>(f: Option<Fired<A>>): (s: seq<Fired<A>>)
    ensures |s| <= 1
  {
    if f.Some? then [f.value] else []
  }

  /** A trace extended by one more event. */
  function After<A(==)>(tr: Trace<A>, e: Event<A>, timing: real): Trace<A> {
    var o := Step(tr.timeout, e, timing);
    Trace(o.timeout, tr.fired + Emitted(o.fired))
  }

  /** A sequence of events from `t`, processed first to last. */
  function Run<A(==)>(t: Timeout<A>, es: seq<Event<A>>, timing: real): Trace<A>
    decreases |es|
  {
    if es == [] then Trace(t, [])
    else
      var o := Step(t, es[0], timing);
      var rest := Run(o.timeout, es[1..], timing);
      Trace(rest.timeout, Emitted(o.fired) + rest.fired)
  }

  /** Running one more event is extending the trace by that event: the
      component's step-by-step handlers reproduce `Run`. */
  lemma {:induction false} RunSnoc<A>(t: Timeout<A>, es: seq<Event<A>>, e: Event<A>, timing: real)
    ensures Run(t, es + [e], timing) == After(Run(t, es, timing), e, timing)
    decreases |es|
  {
    if es == [] {
      assert [e][1..] == [];
    } else {
      var o := Step(t, es[0], timing);
      assert (es + [e])[1..] == es[1..] + [e];
      RunSnoc(o.timeout, es[1..], e, timing);
    }
  }

  function Armed<A>(t: Timeout<A>): nat {
    if t.Pending? then 1 else 0
  }

  function Clicks<A>(es: seq<Event<A>>): (n: nat)
    ensures n <= |es|
    decreases |es|
  {
    if es == [] then 0 else (if es[0].Click? then 1 else 0) + Clicks(es[1..])
  }

  /** At most one callback per click: every callback uses up a click, either
      the one that fired it or the one whose timer it was. */
  lemma {:induction false} OneCallbackPerClick<A>(t: Timeout<A>, es: seq<Event<A>>, timing: real)
    ensures |Run(t, es, timing).fired| + Armed(Run(t, es, timing).timeout) <= Clicks(es) + Armed(t)
    decreases |es|
  {
    if es != [] {
      var o := Step(t, es[0], timing);
      OneCallbackPerClick(o.timeout, es[1..], timing);
    }
  }

  /** `es[i]` is a click with arguments `a`. */
  predicate ClickedWith<A(==)>(es: seq<Event<A>>, a: A) {
    exists i :: 0 <= i < |es| && es[i] == Click(a)
  }

  /** Every callback reports a click that happened: one of the events, or the
      click whose timer was already armed at the start. */
  lemma {:induction false} CallbacksReportClicks<A>(t: Timeout<A>, es: seq<Event<A>>, timing: real)
    ensures forall f :: f in Run(t, es, timing).fired ==>
      ClickedWith(es, f.args) || (t.Pending? && f == Single(t.args))
    decreases |es|
  {
    if es != [] {
      var o := Step(t, es[0], timing);
      CallbacksReportClicks(o.timeout, es[1..], timing);
      forall f | f in Run(t, es, timing).fired
        ensures ClickedWith(es, f.args) || (t.Pending? && f == Single(t.args))
      {
        if f in Emitted(o.fired) {
          if es[0].Click? {
            assert es[0] == Click(f.args);
          }
        } else {
          assert f in Run(o.timeout, es[1..], timing).fired;
          if ClickedWith(es[1..], f.args) {
            var i :| 0 <= i < |es[1..]| && es[1..][i] == Click(f.args);
            assert es[i + 1] == Click(f.args);
          } else {
            assert o.timeout.Pending? && f == Single(o.timeout.args);
            assert es[0] == Click(f.args);
          }
        }
      }
    }
  }

  /**
   * A pending single click cancelled by a second click never fires: the second
   * click fires `onDoubleClick` with its own arguments, and afterwards only
   * later clicks can be reported (here, none of them is the cancelled one).
   */
  lemma CancelledClickNeverFires<A>(a: A, delay: real, b: A, rest: seq<Event<A>>, timing: real)
    requires !ClickedWith(rest, a)
    ensures var tr := Run(Pending(a, delay), [Click(b)] + rest, timing);
            tr.fired[0] == Double(b) && Single(a) !in tr.fired
  {
    var es := [Click(b)] + rest;
    assert es[1..] == rest;
    var tr := Run(Pending(a, delay), es, timing);
    assert tr.fired == [Double(b)] + Run(Cleared, rest, timing).fired;
    CallbacksReportClicks(Cleared, rest, timing);
  }

  /** Two clicks in a row from `null`: `onDoubleClick` fires once, with the
      second click's arguments, and nothing is left pending. */
  lemma DoubleClickFiresOnce<A>(a: A, b: A, timing: real)
    ensures Run(Cleared, [Click(a), Click(b)], timing) == Trace(Cleared, [Double(b)])
  {
    var es: seq<Event<A>> := [Click(a), Click(b)];
    assert es[1..] == [Click(b)] && es[1..][1..] == [];
    assert Run(Pending(a, timing), [Click(b)], timing) == Trace(Cleared, [Double(b)]);
  }

  /** A click whose timer fires: `onClick` fires once, with that click's
      arguments, and nothing is left pending. */
  lemma SingleClickAfterExpiry<A>(a: A, timing: real)
    ensures Run(Cleared, [Click(a), Expire], timing) == Trace(Cleared, [Single(a)])
  {
    var es: seq<Event<A>> := [Click(a), Expire];
    assert es[1..] == [Expire] && es[1..][1..] == [];
    assert Run(Pending(a, timing), [Expire], timing) == Trace(Cleared, [Single(a)]);
  }

  /** A timer left armed after a run is the one the run's last click set. */
  lemma PendingIsLastClick<A>(t: Timeout<A>, es: seq<Event<A>>, timing: real)
    requires es != [] && Run(t, es, timing).timeout.Pending?
    ensures es[|es| - 1] == Click(Run(t, es, timing).timeout.args)
    ensures Run(t, es, timing).timeout.delay == timing
  {
    var n := |es| - 1;
    assert es == es[..n] + [es[n]];
    RunSnoc(t, es[..n], es[n], timing);
  }

  /**
   * One event when the props may lack `onDoubleClick`. The base class's
   * defaultProps supply a noop, but a subclass's defaultProps replace them,
   * and the older component has no default at all. Without the callback, a
   * click while `clickTimeout !== null` throws a TypeError at the call, before
   * `clearAndNullTimeout` runs: nothing fires and `clickTimeout` is left as it
   * was, so an armed timer still reports its click. Every other event is `Step`.
   */
  function StepWith<A(==)>(t: Timeout<A>, e: Event<A>, timing: real, hasOnDoubleClick: bool): (r: Outcome<A>)
    ensures hasOnDoubleClick ==> r == Step(t, e, timing)
    ensures r.fired.Some? && r.fired.value.Double? ==> hasOnDoubleClick
    ensures !hasOnDoubleClick && e.Click? && !t.Cleared? ==> r.fired.None? && r.timeout == t
    ensures !hasOnDoubleClick && t.Pending? ==> r.timeout.Pending? || r.fired == Some(Single(t.args))
  {
    if !hasOnDoubleClick && e.Click? && !t.Cleared? then Outcome(t, None) else Step(t, e, timing)
  }

  /** A trace extended by one more event, `onDoubleClick` present or not. */
  function AfterWith<A(==)>(tr: Trace<A>, e: Event<A>, timing: real, hasOnDoubleClick: bool): Trace<A> {
    var o := StepWith(tr.timeout, e, timing, hasOnDoubleClick);
    Trace(o.timeout, tr.fired + Emitted(o.fired))
  }

  /** A sequence of events from `t`, `onDoubleClick` present or not. */
  function RunWith<A(==)>(t: Timeout<A>, es: seq<Event<A>>, timing: real, hasOnDoubleClick: bool): Trace<A>
    decreases |es|
  {
    if es == [] then Trace(t, [])
    else
      var o := StepWith(t, es[0], timing, hasOnDoubleClick);
      var rest := RunWith(o.timeout, es[1..], timing, hasOnDoubleClick);
      Trace(rest.timeout, Emitted(o.fired) + rest.fired)
  }

  /** With `onDoubleClick` present, the runs are the ones `Run` describes, so
      every property proved about `Run` holds for them. */
  lemma {:induction false} RunWithCallback<A>(t: Timeout<A>, es: seq<Event<A>>, timing: real)
    ensures RunWith(t, es, timing, true) == Run(t, es, timing)
    decreases |es|
  {
    if es != [] {
      var o := Step(t, es[0], timing);
      RunWithCallback(o.timeout, es[1..], timing);
    }
  }

  /** Without `onDoubleClick`, no run ever reports a double-click: every
      callback that fires is `onClick`. */
  lemma {:induction false} MissingOnDoubleClickOnlySingles<A>(t: Timeout<A>, es: seq<Event<A>>, timing: real)
    ensures forall f :: f in RunWith(t, es, timing, false).fired ==> f.Single?
    decreases |es|
  {
    if es != [] {
      var o := StepWith(t, es[0], timing, false);
      MissingOnDoubleClickOnlySingles(o.timeout, es[1..], timing);
    }
  }

  /**
   * Two clicks and the timer: with `onDoubleClick` the second click is a
   * double-click and the timer has nothing left to fire; without it the
   * second click throws, and the timer still reports the first click.
   */
  lemma MissingOnDoubleClickKeepsFirstClick<A>(a: A, b: A, timing: real)
    ensures Run(Cleared, [Click(a), Click(b), Expire], timing) == Trace(Cleared, [Double(b)])
    ensures RunWith(Cleared, [Click(a), Click(b), Expire], timing, false) == Trace(Cleared, [Single(a)])
  {
    var es: seq<Event<A>> := [Click(a), Click(b), Expire];
    assert es[1..] == [Click(b), Expire] && es[1..][1..] == [Expire] && es[1..][1..][1..] == [];
    assert Run<A>(Cleared, [Expire], timing) == Trace(Cleared, []);
    assert RunWith(Pending(a, timing), [Expire], timing, false) == Trace(Cleared, [Single(a)]);
  }

  /** The disambiguating component, with the callbacks it has invoked on its props. */
  class DoubleClickReactComponent<A(==)> {
    var clickTimeout: Timeout<A>
    var doubleClickTiming: real
    var hasOnDoubleClick: bool
    var fired: seq<Fired<A>>

    /** Construction: `clickTimeout` is still `undefined`; `doubleClickTiming`
        defaults to 250 when the props leave it out. `hasOnDoubleClick` says
        whether the props end up with an `onDoubleClick` after defaultProps. */
    constructor(doubleClickTiming: Option<real>, hasOnDoubleClick: bool)
      ensures clickTimeout == Unset && fired == [] && this.hasOnDoubleClick == hasOnDoubleClick
      ensures doubleClickTiming.None? ==> this.doubleClickTiming == DefaultTiming
      ensures doubleClickTiming.Some? ==> this.doubleClickTiming == doubleClickTiming.value
    {
      clickTimeout := Unset;
      this.doubleClickTiming := if doubleClickTiming.Some? then doubleClickTiming.value else DefaultTiming;
      this.hasOnDoubleClick := hasOnDoubleClick;
      fired := [];
    }

    function State(): Trace<A>
      reads this
    {
      Trace(clickTimeout, fired)
    }

    /** `componentDidMount`: no click is pending after mount. */
    method ComponentDidMount()
      modifies this
      ensures clickTimeout == Cleared
      ensures fired == old(fired) && doubleClickTiming == old(doubleClickTiming)
      ensures hasOnDoubleClick == old(hasOnDoubleClick)
    {
      clickTimeout := Cleared;
    }

    /** `clearAndNullTimeout`: cancels the armed timer, if any. */
    method ClearAndNullTimeout()
      modifies this
      ensures clickTimeout == Cleared
      ensures fired == old(fired) && doubleClickTiming == old(doubleClickTiming)
      ensures hasOnDoubleClick == old(hasOnDoubleClick)
    {
      clickTimeout := Cleared;
    }

    /** `onClick`: `props.onClick(...)`, then clear. */
    method OnClick(args: A)
      modifies this
      ensures fired == old(fired) + [Single(args)] && clickTimeout == Cleared
      ensures doubleClickTiming == old(doubleClickTiming) && hasOnDoubleClick == old(hasOnDoubleClick)
    {
      fired := fired + [Single(args)];
      ClearAndNullTimeout();
    }

    /** `onDoubleClick`: `props.onDoubleClick(...)`, then clear. Without the
        callback the call throws before the clear, and nothing changes. */
    method OnDoubleClick(args: A)
      modifies this
      ensures hasOnDoubleClick ==> fired == old(fired) + [Double(args)] && clickTimeout == Cleared
      ensures !hasOnDoubleClick ==> fired == old(fired) && clickTimeout == old(clickTimeout)
      ensures doubleClickTiming == old(doubleClickTiming) && hasOnDoubleClick == old(hasOnDoubleClick)
    {
      if hasOnDoubleClick {
        fired := fired + [Double(args)];
        ClearAndNullTimeout();
      }
    }

    /** `handleClicks(event, data, component)`. */
    method HandleClicks(args: A)
      modifies this
      ensures State() == AfterWith(old(State()), Click(args), doubleClickTiming, hasOnDoubleClick)
      ensures hasOnDoubleClick ==> State() == After(old(State()), Click(args), doubleClickTiming)
      ensures doubleClickTiming == old(doubleClickTiming) && hasOnDoubleClick == old(hasOnDoubleClick)
    {
      if !clickTimeout.Cleared? {
        OnDoubleClick(args);
      } else {
        clickTimeout := Pending(args, doubleClickTiming);
      }
    }

    /** The armed timer's callback, `() => this.onClick(event, data, component)`;
        with no timer armed there is nothing to fire. */
    method TimerFires()
      modifies this
      ensures State() == After(old(State()), Expire, doubleClickTiming)
      ensures State() == AfterWith(old(State()), Expire, doubleClickTiming, hasOnDoubleClick)
      ensures doubleClickTiming == old(doubleClickTiming) && hasOnDoubleClick == old(hasOnDoubleClick)
    {
      if clickTimeout.Pending? {
        OnClick(clickTimeout.args);
      }
    }
  }
}
