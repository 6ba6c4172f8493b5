/**
 * `TreemapView`: the zoom state of the treemap. A click on a cell zooms into
 * it, a double-click zooms back out, and the state is `{rootNodeId, showToDepth}`.
 */
module TreemapView {
  import opened Js
  import opened Hierarchy
  import TreemapContainer

  /** `{rootNodeId, showToDepth}`; an absent `rootNodeId` is `IdUndefined`. */
  datatype ViewState = ViewState(rootNodeId: Id, showToDepth: int)

  /** The state the constructor sets: `{ showToDepth: 0 }`. */
  const Initial: ViewState := ViewState(IdUndefined, 0)

  /** `onClick(_, data)`: isolate the clicked node, and show its children when it has any. */
  function ZoomIn(s: ViewState, t: Tree, k: nat): (r: ViewState)
    requires k < |t.nodes|
    ensures r.rootNodeId == IdStr(t.nodes[k].id)
    ensures t.nodes[k].height > 0 ==> r.showToDepth == t.nodes[k].depth + 1
    ensures t.nodes[k].height == 0 ==> r.showToDepth == s.showToDepth
  {
    var n := t.nodes[k];
    ViewState(IdStr(n.id), if n.height > 0 then n.depth + 1 else s.showToDepth)
  }

  /** `data.parent && data.parent.parent || data.parent || data`. */
  function ZoomOutTarget(t: Tree, k: nat): (a: nat)
    requires Valid(t) && k < |t.nodes|
    ensures a < |t.nodes|
    ensures t.nodes[k].parent.None? ==> a == k
    ensures t.nodes[k].parent.Some? && t.nodes[t.nodes[k].parent.value].parent.None? ==> a == t.nodes[k].parent.value
    ensures t.nodes[k].parent.Some? && t.nodes[t.nodes[k].parent.value].parent.Some? ==>
      a == t.nodes[t.nodes[k].parent.value].parent.value
  {
    assert Linked(t, k);
    match t.nodes[k].parent
    case None => k
    case Some(p) =>
      assert Linked(t, p);
      match t.nodes[p].parent
      case None => p
      case Some(g) => g
  }

  /** `onDoubleClick(_, data)`: isolate the grandparent (or the parent, or the node
      itself), and show one level less unless the node is the root. */
  function ZoomOut(s: ViewState, t: Tree, k: nat): (r: ViewState)
    requires Valid(t) && k < |t.nodes|
    ensures r.rootNodeId == IdStr(t.nodes[ZoomOutTarget(t, k)].id)
    ensures t.nodes[k].depth > 0 ==> r.showToDepth == t.nodes[k].depth - 1
    ensures t.nodes[k].depth == 0 ==> r.showToDepth == s.showToDepth
  {
    var n := t.nodes[k];
    ViewState(IdStr(t.nodes[ZoomOutTarget(t, k)].id), if n.depth > 0 then n.depth - 1 else s.showToDepth)
  }

  /** A click or a double-click on the cell of node `node`. */
  datatype Gesture = Click(node: nat) | DoubleClick(node: nat)

  predicate OnTree(t: Tree, gs: seq<Gesture>) {
    forall i :: 0 <= i < |gs| ==> gs[i].node < |t.nodes|
  }

  /** The state after a sequence of gestures. */
  function Run(s: ViewState, t: Tree, gs: seq<Gesture>): ViewState
    requires Valid(t) && OnTree(t, gs)
    decreases |gs|
  {
    if gs == [] then s
    else
      var next := match gs[0]
        case Click(k) => ZoomIn(s, t, k)
        case DoubleClick(k) => ZoomOut(s, t, k);
      Run(next, t, gs[1..])
  }

  /** `showToDepth` never goes negative, whatever the user clicks, starting from the initial state. */
  lemma {:induction false} RunKeepsDepthNonNegative(s: ViewState, t: Tree, gs: seq<Gesture>)
    requires Valid(t) && OnTree(t, gs) && s.showToDepth >= 0
    ensures Run(s, t, gs).showToDepth >= 0
    decreases |gs|
  {
    if gs != [] {
      var next := match gs[0]
        case Click(k) => ZoomIn(s, t, k)
        case DoubleClick(k) => ZoomOut(s, t, k);
      assert OnTree(t, gs[1..]) by {
        forall i | 0 <= i < |gs[1..]| ensures gs[1..][i].node < |t.nodes| {
          assert gs[1..][i] == gs[i + 1];
        }
      }
      RunKeepsDepthNonNegative(next, t, gs[1..]);
    }
  }

  lemma InitialRunNonNegative(t: Tree, gs: seq<Gesture>)
    requires Valid(t) && OnTree(t, gs)
    ensures Run(Initial, t, gs).showToDepth >= 0
  {
    RunKeepsDepthNonNegative(Initial, t, gs);
  }

  /**
   * Zooming in and back out: showing the children of `p`, a click on its
   * internal child `a` followed by a double-click on a child `c` of `a` returns
   * to showing the children of `p`.
   */
  lemma ZoomRoundTrip(t: Tree, p: nat, a: nat, c: nat)
    requires Valid(t) && p < |t.nodes| && a < |t.nodes| && c < |t.nodes|
    requires t.nodes[a].parent == Some(p) && t.nodes[c].parent == Some(a)
    ensures var s := ViewState(IdStr(t.nodes[p].id), t.nodes[p].depth + 1);
            ZoomOut(ZoomIn(s, t, a), t, c) == s
  {
    assert Linked(t, a) && Linked(t, c);
    assert t.nodes[a].children != [];
  }

  /**
   * After a click on an internal node `a` with a non-empty id, the cells the
   * treemap draws are exactly `a`'s children (ids being unique).
   */
  lemma ZoomedFrontierIsChildren(s: ViewState, t: Tree, a: nat, k: nat)
    requires Valid(t) && UniqueIds(t) && a < |t.nodes| && k < |t.nodes|
    requires t.nodes[a].height > 0 && t.nodes[a].id != ""
    ensures var z := ZoomIn(s, t, a);
            TreemapContainer.Keep(t, k, z.showToDepth, z.rootNodeId) <==> t.nodes[k].parent == Some(a)
  {
    var z := ZoomIn(s, t, a);
    var d := t.nodes[a].depth;
    var chain := Ancestors(t, k);
    TreemapContainer.AncestorTestIff(z.rootNodeId, t, k);
    assert Linked(t, k) && Linked(t, a);
    if TreemapContainer.Keep(t, k, z.showToDepth, z.rootNodeId) {
      var i :| 0 <= i < |chain| && t.nodes[chain[i]].id == t.nodes[a].id;
      assert chain[i] == a;
      if t.nodes[k].depth == d + 1 {
        assert i == 1;
        match t.nodes[k].parent
        case Some(q) =>
          assert chain == [k] + Ancestors(t, q);
      }
    }
    if t.nodes[k].parent == Some(a) {
      assert chain == [k] + Ancestors(t, a);
      assert chain[1] == a;
    }
  }

  /** The zoom state as the component holds it. */
  class View {
    var rootNodeId: Id
    var showToDepth: int

    /** `constructor`: `this.state = { showToDepth: 0 }`. */
    constructor()
      ensures rootNodeId == Initial.rootNodeId && showToDepth == Initial.showToDepth
    {
      rootNodeId := IdUndefined;
      showToDepth := 0;
    }

    function State(): ViewState
      reads this
    {
      ViewState(rootNodeId, showToDepth)
    }

    /** `onClick`: `setState({ rootNodeId: data.id, showToDepth })`. */
    method OnClick(t: Tree, k: nat)
      requires k < |t.nodes|
      modifies this
      ensures State() == ZoomIn(old(State()), t, k)
    {
      var n := t.nodes[k];
      var depth := if n.height > 0 then n.depth + 1 else showToDepth;
      rootNodeId := IdStr(n.id);
      showToDepth := depth;
    }

    /** `onDoubleClick`: `setState({ rootNodeId: ancestor.id, showToDepth })`. */
    method OnDoubleClick(t: Tree, k: nat)
      requires Valid(t) && k < |t.nodes|
      modifies this
      ensures State() == ZoomOut(old(State()), t, k)
    {
      var n := t.nodes[k];
      var depth := if n.depth > 0 then n.depth - 1 else showToDepth;
      var ancestor := ZoomOutTarget(t, k);
      rootNodeId := IdStr(t.nodes[ancestor].id);
      showToDepth := depth;
    }
  }
}
