/**
 * The x/y scales of the treemap. A d3 linear scale is a mutable object whose
 * `domain` and `range` the treemap resets in place on every update; its
 * evaluation is the affine map d3 documents for a linear scale (unclamped,
 * with the midpoint of the range when the domain has zero width).
 */
module Scales {
  import opened Js
  import opened Hierarchy

  /** A two-element `[lo, hi]` array of numbers. */
  datatype Extent = Extent(lo: real, hi: real)

  /** A linear scale as a value: its domain and range. */
  datatype Linear = Linear(domain: Extent, range: Extent)

  /** Evaluation of a d3 `scaleLinear()`: the position of `x` in the domain,
      carried into the range; a zero-width domain maps everything to the middle
      of the range. */
  function Apply(s: Linear, x: real): real {
    var d0, d1, r0, r1 := s.domain.lo, s.domain.hi, s.range.lo, s.range.hi;
    var t := if d1 - d0 != 0.0 then (x - d0) / (d1 - d0) else 0.5;
    r0 * (1.0 - t) + r1 * t
  }

  /** A scale carries the ends of its domain to the ends of its range. */
  lemma ApplyEndpoints(s: Linear)
    requires s.domain.lo != s.domain.hi
    ensures Apply(s, s.domain.lo) == s.range.lo
    ensures Apply(s, s.domain.hi) == s.range.hi
  {
    var d0, d1 := s.domain.lo, s.domain.hi;
    assert (d1 - d0) / (d1 - d0) == 1.0;
  }

  /** An increasing domain onto a non-decreasing range preserves order. */
  lemma ApplyMonotone(s: Linear, x: real, y: real)
    requires s.domain.lo < s.domain.hi && s.range.lo <= s.range.hi && x <= y
    ensures Apply(s, x) <= Apply(s, y)
  {
    var d0, d1, r0, r1 := s.domain.lo, s.domain.hi, s.range.lo, s.range.hi;
    var tx, ty := (x - d0) / (d1 - d0), (y - d0) / (d1 - d0);
    assert tx <= ty by {
      assert y - d0 >= x - d0;
      DivMonotone(x - d0, y - d0, d1 - d0);
    }
    assert Apply(s, x) == r0 + (r1 - r0) * tx;
    assert Apply(s, y) == r0 + (r1 - r0) * ty;
    MulMonotone(r1 - r0, tx, ty);
  }

  lemma DivMonotone(a: real, b: real, c: real)
    requires a <= b && c > 0.0
    ensures a / c <= b / c
  {
    assert b / c - a / c == (b - a) / c;
  }

  lemma MulMonotone(k: real, a: real, b: real)
    requires k >= 0.0 && a <= b
    ensures k * a <= k * b
  {
    assert k * b - k * a == k * (b - a);
  }

  /** A d3 linear scale object, whose domain and range are reset in place. */
  class Scale {
    var domain: Extent
    var range: Extent

    /** `scaleLinear()`: domain and range both `[0, 1]`. */
    constructor()
      ensures domain == Extent(0.0, 1.0) && range == Extent(0.0, 1.0)
    {
      domain := Extent(0.0, 1.0);
      range := Extent(0.0, 1.0);
    }

    function Value(): Linear
      reads this
    {
      Linear(domain, range)
    }

    /** `scale.domain(d).range(r)`: both are replaced on this object, which is returned. */
    method SetDomainRange(d: Extent, r: Extent)
      modifies this
      ensures domain == d && range == r
    {
      domain := d;
      range := r;
    }
  }

  /** `{ xDomain, xRange, yDomain, yRange }`. */
  datatype DomainRangeSet = DomainRangeSet(xDomain: Extent, xRange: Extent, yDomain: Extent, yRange: Extent)

  /** `getDomainsAndRangesFromProps`: the viewport, `[0, width]` and `[0, height]`, as both domain and range. */
  function DomainsAndRangesFromProps(width: real, height: real): (r: DomainRangeSet)
    ensures r.xDomain == r.xRange == Extent(0.0, width)
    ensures r.yDomain == r.yRange == Extent(0.0, height)
  {
    var x := Extent(0.0, width);
    var y := Extent(0.0, height);
    DomainRangeSet(x, x, y, y)
  }

  /** `getDomainsAndRanges`: the viewport set, with the domains overridden by the
      bounds of the isolated root node when there is one. */
  function DomainsAndRanges(width: real, height: real, rootNode: Option<Node>): (r: DomainRangeSet)
    ensures r.xRange == Extent(0.0, width) && r.yRange == Extent(0.0, height)
    ensures rootNode.Some? ==>
      r.xDomain == Extent(rootNode.value.x0, rootNode.value.x1) && r.yDomain == Extent(rootNode.value.y0, rootNode.value.y1)
    ensures rootNode.None? ==> r.xDomain == Extent(0.0, width) && r.yDomain == Extent(0.0, height)
  {
    var fromProps := DomainsAndRangesFromProps(width, height);
    match rootNode
    case None => fromProps
    case Some(n) => fromProps.(xDomain := Extent(n.x0, n.x1), yDomain := Extent(n.y0, n.y1))
  }

  function NodeAt(t: Tree, found: Option<nat>): Option<Node>
    requires found.Some? ==> found.value < |t.nodes|
  {
    if found.Some? then Some(t.nodes[found.value]) else None
  }

  /** The x and y scales `getScales` leaves behind for `rootNodeId`, as values. */
  function ScalesFor(width: real, height: real, rootNodeId: Id, t: Tree): (Linear, Linear)
    requires Valid(t)
  {
    var drs := DomainsAndRanges(width, height, NodeAt(t, NodeById(t, rootNodeId)));
    (Linear(drs.xDomain, drs.xRange), Linear(drs.yDomain, drs.yRange))
  }

  /**
   * `getScales`: finds the isolated root node with the strict `getNodeById`
   * and resets the two given scale objects in place. When both names denote the
   * same object the y settings, written last, are what remains.
   */
  method GetScales(width: real, height: real, rootNodeId: Id, t: Tree, xScale: Scale, yScale: Scale)
    requires Valid(t)
    modifies xScale, yScale
    ensures yScale.Value() == ScalesFor(width, height, rootNodeId, t).1
    ensures xScale != yScale ==> xScale.Value() == ScalesFor(width, height, rootNodeId, t).0
  {
    var node := GetNodeById(rootNodeId, t, t.root);
    var drs := DomainsAndRanges(width, height, NodeAt(t, node));
    xScale.SetDomainRange(drs.xDomain, drs.xRange);
    yScale.SetDomainRange(drs.yDomain, drs.yRange);
  }

  /** Zooming works: once a root node is found, its box fills the viewport. */
  lemma ZoomFillsViewport(width: real, height: real, rootNodeId: Id, t: Tree)
    requires Valid(t) && NodeById(t, rootNodeId).Some?
    requires var n := t.nodes[NodeById(t, rootNodeId).value]; n.x0 < n.x1 && n.y0 < n.y1
    ensures var n := t.nodes[NodeById(t, rootNodeId).value];
            var (xs, ys) := ScalesFor(width, height, rootNodeId, t);
            Apply(xs, n.x0) == 0.0 && Apply(xs, n.x1) == width
            && Apply(ys, n.y0) == 0.0 && Apply(ys, n.y1) == height
  {
    var (xs, ys) := ScalesFor(width, height, rootNodeId, t);
    ApplyEndpoints(xs);
    ApplyEndpoints(ys);
  }

  /** Without a node carrying `rootNodeId` the scales are the identity on the viewport. */
  lemma NoRootIdentity(width: real, height: real, rootNodeId: Id, t: Tree, x: real, y: real)
    requires Valid(t) && width != 0.0 && height != 0.0
    requires forall j :: 0 <= j < |t.nodes| ==> !Matches(t, j, rootNodeId)
    ensures Apply(ScalesFor(width, height, rootNodeId, t).0, x) == x
    ensures Apply(ScalesFor(width, height, rootNodeId, t).1, y) == y
  {
    NodeByIdNoneIff(t, rootNodeId);
    assert width * (x / width) == x;
    assert height * (y / height) == y;
  }
}
