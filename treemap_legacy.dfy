/**
 * The older, self-contained `Treemap` component: it keeps the d3 layout, the
 * nodes to draw and the two scales in its state, recomputes all of them on
 * every new set of props, and tells single clicks from double-clicks with a
 * fixed 250 ms timer. Its node search and its domains and ranges are the same
 * as the container's (`Hierarchy.GetNodeById`, `Scales.DomainsAndRanges`).
 */
module TreemapLegacy {
  import opened Js
  import opened Hierarchy
  import opened Scales
  import opened Layout
  import TreemapContainer
  import TreemapCell
  import opened DoubleClick
  import opened JsNumber

  /** `DOUBLE_CLICK_TIMING`, in milliseconds. */
  const LegacyClickTiming: real := 250.0

  /** The props the processed state depends on, and whether an `onDoubleClick`
      was passed: it is optional and, unlike `onClick`, has no default. */
  datatype LegacyProps = LegacyProps(width: real, height: real, layoutOptions: LayoutOptions, rootNodeId: Id, showToDepth: int,
                                     hasOnDoubleClick: bool)

  /** `{ layout, processedData, xScale, yScale }`. */
  datatype LegacyState = LegacyState(layout: TreemapLayout, processedData: seq<nat>, xScale: Scale, yScale: Scale)

  /**
   * `processDataWithLayout`: the descendants of the laid-out tree, in `order`,
   * that are no deeper than `showToDepth`. Unlike the container's filter this
   * keeps the internal nodes above the frontier too.
   */
  function ProcessDataWithLayout(t: Tree, order: seq<nat>, showToDepth: int): (r: seq<nat>)
    requires InRange(t, order)
    ensures InRange(t, r) && multiset(r) <= multiset(order)
    ensures forall i :: 0 <= i < |r| ==> t.nodes[r[i]].depth <= showToDepth
    ensures forall k :: k in r <==> k in order && k < |t.nodes| && t.nodes[k].depth <= showToDepth
    decreases |order|
  {
    if order == [] then []
    else
      assert order == [order[0]] + order[1..];
      var rest := ProcessDataWithLayout(t, order[1..], showToDepth);
      if t.nodes[order[0]].depth <= showToDepth then [order[0]] + rest else rest
  }

  /**
   * The two filters compared, with the container's isolation switched off by a
   * falsy `rootNodeId`: whatever the container draws the older component draws
   * too, and the older component draws exactly one kind of node more, the
   * internal nodes above `showToDepth`.
   */
  lemma LegacyAddsInternalAncestors(t: Tree, order: seq<nat>, showToDepth: int, rootNodeId: Id, k: nat)
    requires Valid(t) && InRange(t, order) && !Truthy(rootNodeId)
    ensures k in TreemapContainer.Filtered(t, order, showToDepth, rootNodeId) ==>
      k in ProcessDataWithLayout(t, order, showToDepth)
    ensures k in ProcessDataWithLayout(t, order, showToDepth) ==>
      (k !in TreemapContainer.Filtered(t, order, showToDepth, rootNodeId)
       <==> t.nodes[k].depth < showToDepth && t.nodes[k].children != [])
  {
    if k < |t.nodes| {
      TreemapContainer.AncestorTestIff(rootNodeId, t, k);
    }
  }

  /**
   * `getProcessedState(props, state)`: the layout first (the one in `state`
   * resized, or a new one), then the nodes to draw, then the scales (the ones
   * in `state` reset in place, or the defaults, here new scale objects).
   * `t` is the tree the layout lays out and `order` its descendants order.
   */
  method GetProcessedState(props: LegacyProps, t: Tree, order: seq<nat>, prev: Option<LegacyState>)
    returns (r: LegacyState)
    requires Valid(t) && InRange(t, order)
    modifies if prev.Some? then {prev.value.layout} else {}
    modifies if prev.Some? then {prev.value.xScale, prev.value.yScale} else {}
    ensures r.layout.width == props.width && r.layout.height == props.height
    ensures r.processedData == ProcessDataWithLayout(t, order, props.showToDepth)
    ensures r.yScale.Value() == ScalesFor(props.width, props.height, props.rootNodeId, t).1
    ensures r.xScale != r.yScale ==> r.xScale.Value() == ScalesFor(props.width, props.height, props.rootNodeId, t).0
    ensures prev.Some? ==> r.layout == prev.value.layout && r.xScale == prev.value.xScale && r.yScale == prev.value.yScale
    ensures prev.Some? ==> r.layout.tile == old(prev.value.layout.tile) && r.layout.round == old(prev.value.layout.round)
                           && r.layout.padding == old(prev.value.layout.padding)
    ensures prev.None? ==> fresh(r.layout) && fresh(r.xScale) && fresh(r.yScale) && r.xScale != r.yScale
    ensures prev.None? ==> r.layout.tile == props.layoutOptions.tile && r.layout.round == props.layoutOptions.round
                           && r.layout.padding == props.layoutOptions.padding
  {
    var layout := GetLayout(props.width, props.height, props.layoutOptions, if prev.Some? then prev.value.layout else null);
    var processedData := ProcessDataWithLayout(t, order, props.showToDepth);
    var xScale: Scale, yScale: Scale;
    if prev.Some? {
      xScale, yScale := prev.value.xScale, prev.value.yScale;
    } else {
      xScale := new Scale();
      yScale := new Scale();
    }
    GetScales(props.width, props.height, props.rootNodeId, t, xScale, yScale);
    r := LegacyState(layout, processedData, xScale, yScale);
  }

  /**
   * `attrWidth`: no bar without the attribution field, otherwise the share
   * `value` of the cell's width measured on screen through `xScale`, `value`
   * converted to a number by the multiplication. `None` is the NaN of a
   * `value` that does not convert.
   */
  function AttrWidth(xScale: Linear, data: Obj, attributionName: string, x0: real, x1: real): (r: Option<real>)
    ensures !TruthyValue(Get(data, attributionName)) ==> r == Some(0.0)
    ensures TruthyValue(Get(data, attributionName)) && ToNumber(Member(Get(data, attributionName), "value")).Some? ==>
      r.Some? && r.value == (Apply(xScale, x1) - Apply(xScale, x0)) * ToNumber(Member(Get(data, attributionName), "value")).value
    ensures TruthyValue(Get(data, attributionName)) && Member(Get(data, attributionName), "value").Num? ==>
      r.Some? && r.value == (Apply(xScale, x1) - Apply(xScale, x0)) * Member(Get(data, attributionName), "value").r
    ensures r.None? <==> TruthyValue(Get(data, attributionName)) && ToNumber(Member(Get(data, attributionName), "value")).None?
  {
    var left, right := Apply(xScale, x0), Apply(xScale, x1);
    TreemapCell.AttributionWidth(data, attributionName, left, right)
  }

  /** On the isolated root, once zoomed, the bar's width is the share of the whole viewport. */
  lemma RootAttributionSpansViewport(width: real, height: real, rootNodeId: Id, t: Tree, data: Obj, attributionName: string)
    requires Valid(t) && NodeById(t, rootNodeId).Some?
    requires var n := t.nodes[NodeById(t, rootNodeId).value]; n.x0 < n.x1 && n.y0 < n.y1
    requires TruthyValue(Get(data, attributionName)) && Member(Get(data, attributionName), "value").Num?
    ensures var n := t.nodes[NodeById(t, rootNodeId).value];
            var w := AttrWidth(ScalesFor(width, height, rootNodeId, t).0, data, attributionName, n.x0, n.x1);
            w.Some? && w.value == width * Member(Get(data, attributionName), "value").r
  {
    ZoomFillsViewport(width, height, rootNodeId, t);
  }

  /** The component, with the callbacks it has invoked on its props. */
  class LegacyTreemap<A(==)> {
    var props: LegacyProps
    var state: LegacyState
    var clickTimeout: Timeout<A>
    var fired: seq<Fired<A>>

    /** `constructor(props)`: the processed state with no earlier state to reuse. */
    constructor(props: LegacyProps, t: Tree, order: seq<nat>)
      requires Valid(t) && InRange(t, order)
      ensures this.props == props && clickTimeout == Unset && fired == []
      ensures fresh(state.layout) && fresh(state.xScale) && fresh(state.yScale) && state.xScale != state.yScale
      ensures state.layout.width == props.width && state.layout.height == props.height
      ensures state.processedData == ProcessDataWithLayout(t, order, props.showToDepth)
      ensures state.xScale.Value() == ScalesFor(props.width, props.height, props.rootNodeId, t).0
      ensures state.yScale.Value() == ScalesFor(props.width, props.height, props.rootNodeId, t).1
    {
      var s := GetProcessedState(props, t, order, None);
      this.props := props;
      state := s;
      clickTimeout := Unset;
      fired := [];
    }

    /** `componentDidMount`: no click is pending after mount. */
    method ComponentDidMount()
      modifies this
      ensures clickTimeout == Cleared
      ensures props == old(props) && state == old(state) && fired == old(fired)
    {
      clickTimeout := Cleared;
    }

    /** `componentWillReceiveProps(nextProps)`: everything is recomputed, reusing
        the layout and the scale objects of the current state. */
    method ComponentWillReceiveProps(nextProps: LegacyProps, t: Tree, order: seq<nat>)
      requires Valid(t) && InRange(t, order)
      modifies this, state.layout, state.xScale, state.yScale
      ensures props == nextProps && clickTimeout == old(clickTimeout) && fired == old(fired)
      ensures state.layout == old(state.layout) && state.xScale == old(state.xScale) && state.yScale == old(state.yScale)
      ensures state.layout.width == nextProps.width && state.layout.height == nextProps.height
      ensures state.layout.tile == old(state.layout.tile) && state.layout.round == old(state.layout.round)
              && state.layout.padding == old(state.layout.padding)
      ensures state.processedData == ProcessDataWithLayout(t, order, nextProps.showToDepth)
      ensures state.yScale.Value() == ScalesFor(nextProps.width, nextProps.height, nextProps.rootNodeId, t).1
      ensures state.xScale != state.yScale ==>
        state.xScale.Value() == ScalesFor(nextProps.width, nextProps.height, nextProps.rootNodeId, t).0
    {
      var s := GetProcessedState(nextProps, t, order, Some(state));
      state := s;
      props := nextProps;
    }

    function Clicks(): Trace<A>
      reads this
    {
      Trace(clickTimeout, fired)
    }

    /** `clearAndNullTimout`. */
    method ClearAndNullTimeout()
      modifies this
      ensures clickTimeout == Cleared
      ensures props == old(props) && state == old(state) && fired == old(fired)
    {
      clickTimeout := Cleared;
    }

    /** `handleClicks`: the shared disambiguation, with the fixed timing. With
        no `onDoubleClick` in the props, a second click throws at the call
        before the clear, and nothing changes. */
    method HandleClicks(args: A)
      modifies this
      ensures Clicks() == AfterWith(old(Clicks()), Click(args), LegacyClickTiming, props.hasOnDoubleClick)
      ensures props.hasOnDoubleClick ==> Clicks() == After(old(Clicks()), Click(args), LegacyClickTiming)
      ensures props == old(props) && state == old(state)
    {
      if !clickTimeout.Cleared? {
        if props.hasOnDoubleClick {
          fired := fired + [Double(args)];
          ClearAndNullTimeout();
        }
      } else {
        clickTimeout := Pending(args, LegacyClickTiming);
      }
    }

    /** The armed timer's callback: `onClick(...)`, then clear. */
    method TimerFires()
      modifies this
      ensures Clicks() == After(old(Clicks()), Expire, LegacyClickTiming)
      ensures props == old(props) && state == old(state)
    {
      if clickTimeout.Pending? {
        fired := fired + [Single(clickTimeout.args)];
        ClearAndNullTimeout();
      }
    }
  }
}
