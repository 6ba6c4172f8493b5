/**
 * `TreemapCell`: the per-cell datum processor (scaled bounds and size) and
 * the geometry of the attribution bar drawn inside a cell.
 */
module TreemapCell {
  import opened Js
  import opened Hierarchy
  import opened Scales
  import opened JsNumber

  /** `TreemapCell.animatable`. */
  const Animatable: seq<string> := ["x0", "x1", "y0", "y1", "opacity", "height", "width"]

  /** The object `getDatumProcessor` builds, field by field. */
  datatype CellState = CellState(x0: real, x1: real, y0: real, y1: real, opacity: real, height: real, width: real)

  /** The cell state as the plain object it is, keys in literal order. */
  function CellObj(c: CellState): (r: Obj)
    ensures Keys(r) == Animatable
  {
    var r := [("x0", Num(c.x0)), ("x1", Num(c.x1)), ("y0", Num(c.y0)), ("y1", Num(c.y1)),
              ("opacity", Num(c.opacity)), ("height", Num(c.height)), ("width", Num(c.width))];
    assert forall i :: 0 <= i < 7 ==> Keys(r)[i] == Animatable[i];
    r
  }

  /** Reading the cell object back gives the state's fields. */
  lemma CellObjFields(c: CellState)
    ensures Get(CellObj(c), "x0") == Num(c.x0) && Get(CellObj(c), "x1") == Num(c.x1)
    ensures Get(CellObj(c), "y0") == Num(c.y0) && Get(CellObj(c), "y1") == Num(c.y1)
    ensures Get(CellObj(c), "opacity") == Num(c.opacity)
    ensures Get(CellObj(c), "height") == Num(c.height) && Get(CellObj(c), "width") == Num(c.width)
  {
    CellObjAt(c, 0);
    CellObjAt(c, 1);
    CellObjAt(c, 2);
    CellObjAt(c, 3);
    CellObjAt(c, 4);
    CellObjAt(c, 5);
    CellObjAt(c, 6);
  }

  lemma CellObjAt(c: CellState, i: nat)
    requires i < 7
    ensures Get(CellObj(c), Animatable[i]) == CellObj(c)[i].1
  {
    var r := CellObj(c);
    assert forall j :: 0 <= j < 7 ==> r[j].0 == Animatable[j];
    LookupAt(r, i);
  }

  /** `TreemapCell.getDatumProcessor({ xScale, yScale })(datum)`: the scale images
      of the bounds, the size over the scaled values, and a zero opacity to fade in from. */
  function ProcessDatum(xScale: Linear, yScale: Linear, datum: Node): (r: CellState)
    ensures r.x0 == Apply(xScale, datum.x0) && r.x1 == Apply(xScale, datum.x1)
    ensures r.y0 == Apply(yScale, datum.y0) && r.y1 == Apply(yScale, datum.y1)
    ensures r.width == r.x1 - r.x0 && r.height == r.y1 - r.y0
    ensures r.opacity == 0.0
  {
    var x0 := Apply(xScale, datum.x0);
    var x1 := Apply(xScale, datum.x1);
    var y0 := Apply(yScale, datum.y0);
    var y1 := Apply(yScale, datum.y1);
    CellState(x0, x1, y0, y1, 0.0, y1 - y0, x1 - x0)
  }

  /** A cell laid out inside its scale's domain keeps a non-negative size on screen. */
  lemma CellSizeNonNegative(xScale: Linear, yScale: Linear, datum: Node)
    requires xScale.domain.lo < xScale.domain.hi && xScale.range.lo <= xScale.range.hi
    requires yScale.domain.lo < yScale.domain.hi && yScale.range.lo <= yScale.range.hi
    requires datum.x0 <= datum.x1 && datum.y0 <= datum.y1
    ensures ProcessDatum(xScale, yScale, datum).width >= 0.0
    ensures ProcessDatum(xScale, yScale, datum).height >= 0.0
  {
    ApplyMonotone(xScale, datum.x0, datum.x1);
    ApplyMonotone(yScale, datum.y0, datum.y1);
  }

  /** The isolated root's own cell covers the whole viewport once `getScales` has zoomed onto it. */
  lemma RootCellFillsViewport(width: real, height: real, rootNodeId: Id, t: Tree)
    requires Valid(t) && NodeById(t, rootNodeId).Some?
    requires var n := t.nodes[NodeById(t, rootNodeId).value]; n.x0 < n.x1 && n.y0 < n.y1
    ensures var (xs, ys) := ScalesFor(width, height, rootNodeId, t);
            var r := ProcessDatum(xs, ys, t.nodes[NodeById(t, rootNodeId).value]);
            r.x0 == 0.0 && r.y0 == 0.0 && r.width == width && r.height == height
  {
    ZoomFillsViewport(width, height, rootNodeId, t);
  }

  /**
   * `attributionWidth`: no bar when the datum lacks the attribution field,
   * otherwise the share `value` of the cell's width, `value` converted to a
   * number by the multiplication. `None` stands for the NaN of a `value` that
   * does not convert.
   */
  function AttributionWidth(data: Obj, attributionName: string, x0: real, x1: real): (r: Option<real>)
    ensures !TruthyValue(Get(data, attributionName)) ==> r == Some(0.0)
    ensures TruthyValue(Get(data, attributionName)) && ToNumber(Member(Get(data, attributionName), "value")).Some? ==>
      r.Some? && r.value == (x1 - x0) * ToNumber(Member(Get(data, attributionName), "value")).value
    ensures TruthyValue(Get(data, attributionName)) && Member(Get(data, attributionName), "value").Num? ==>
      r.Some? && r.value == (x1 - x0) * Member(Get(data, attributionName), "value").r
    ensures r.None? <==> TruthyValue(Get(data, attributionName)) && ToNumber(Member(Get(data, attributionName), "value")).None?
  {
    var field := Get(data, attributionName);
    if TruthyValue(field) then
      var value := Member(field, "value");
      var share := ToNumber(value);
      if value.Num? then NumberIsItself(value); Some((x1 - x0) * share.value)
      else if share.Some? then Some((x1 - x0) * share.value) else None
    else Some(0.0)
  }

  /** A `null` share draws no bar, `true` draws the whole width, and the string `"0.5"` draws half of it. */
  lemma AttributionCoercions(x0: real, x1: real)
    ensures AttributionWidth([("attribution", Object([("value", Null)]))], "attribution", x0, x1) == Some(0.0)
    ensures AttributionWidth([("attribution", Object([("value", Bool(true))]))], "attribution", x0, x1) == Some(x1 - x0)
    ensures AttributionWidth([("attribution", Object([("value", Str("0.5"))]))], "attribution", x0, x1) == Some((x1 - x0) * 0.5)
  {
    SingleEntry("attribution", Object([("value", Null)]));
    SingleEntry("value", Null);
    SingleEntry("attribution", Object([("value", Bool(true))]));
    SingleEntry("value", Bool(true));
    SingleEntry("attribution", Object([("value", Str("0.5"))]));
    SingleEntry("value", Str("0.5"));
    HalfString();
  }

  /** A one-entry object reads back its entry. */
  lemma SingleEntry(k: string, v: Value)
    ensures Get([(k, v)], k) == v
  {
  }

  /** A share between 0 and 1 keeps the attribution bar within the cell. */
  lemma AttributionWithinCell(data: Obj, attributionName: string, x0: real, x1: real)
    requires x0 <= x1
    requires Member(Get(data, attributionName), "value").Num?
    requires 0.0 <= Member(Get(data, attributionName), "value").r <= 1.0
    ensures AttributionWidth(data, attributionName, x0, x1).Some?
    ensures 0.0 <= AttributionWidth(data, attributionName, x0, x1).value <= x1 - x0
  {
    var v := Member(Get(data, attributionName), "value").r;
    MulMonotone(x1 - x0, 0.0, v);
    MulMonotone(x1 - x0, v, 1.0);
    var w := AttributionWidth(data, attributionName, x0, x1);
    if TruthyValue(Get(data, attributionName)) {
      assert w.value == (x1 - x0) * v;
    }
  }

  /** The attribution rectangle: its `translate` offset and its size, each `None` where it is NaN. */
  datatype AttributionBox = AttributionBox(offset: Option<real>, height: Option<real>, width: Option<real>)

  /** `renderAttribution`: `Number(strokeWidth)` is half the shift on both axes, and
      the rectangle is that much shorter than the cell and narrower than the bar.
      A stroke width that converts to NaN makes all three NaN, and a NaN bar width
      makes the width NaN. */
  function AttributionRect(strokeWidth: Value, cellHeight: real, barWidth: Option<real>): (r: AttributionBox)
    ensures ToNumber(strokeWidth).None? ==> r.offset.None? && r.height.None? && r.width.None?
    ensures ToNumber(strokeWidth).Some? ==>
      r.offset.Some? && r.height.Some? && r.offset.value * 2.0 == ToNumber(strokeWidth).value
      && r.offset.value + r.height.value + r.offset.value == cellHeight
    ensures r.width.Some? <==> ToNumber(strokeWidth).Some? && barWidth.Some?
    ensures r.width.Some? ==> r.offset.Some? && r.offset.value + r.width.value + r.offset.value == barWidth.value
  {
    var stroke := ToNumber(strokeWidth);
    if stroke.None? then AttributionBox(None, None, None)
    else
      var transformBy := stroke.value / 2.0;
      AttributionBox(Some(transformBy), Some(cellHeight - stroke.value),
                     if barWidth.Some? then Some(barWidth.value - stroke.value) else None)
  }

  /** A numeric string stroke width works like the number, and one with a unit draws a NaN rectangle. */
  lemma StrokeWidthStrings(cellHeight: real, barWidth: real)
    ensures var r := AttributionRect(Str("2"), cellHeight, Some(barWidth));
            r.offset == Some(1.0) && r.height == Some(cellHeight - 2.0) && r.width == Some(barWidth - 2.0)
    ensures AttributionRect(Str("2px"), cellHeight, Some(barWidth)) == AttributionBox(None, None, None)
  {
  }
}
