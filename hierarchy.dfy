/**
 * The laid-out d3 hierarchy the treemap works on, as an arena: nodes are
 * addressed by their index, `parent` and `children` hold indices, and every
 * node carries the fields d3's `hierarchy`, `sum` and `treemap` computed for it
 * (depth, height, value, x0/x1/y0/y1). The tiling itself is not modelled; a
 * laid-out tree is an input.
 */
module Hierarchy {
  import opened Js

  datatype Node = Node(
    id: string,          // `node.id`, the string id d3's stratify assigns
    datumId: Id,         // the raw datum's id field, `metaDatum[dataAccessors.id]`
    data: Obj,           // the raw datum, `node.data`
    parent: Option<nat>,
    children: seq<nat>,  // empty when d3 leaves `children` undefined
    depth: nat,
    height: nat,
    value: real,         // the aggregate d3's `sum` assigned
    x0: real, x1: real, y0: real, y1: real)

  datatype Tree = Tree(nodes: seq<Node>, root: nat)

  /** Child indices exist and children are lower than their parent, so recursion down the tree ends. */
  predicate Shaped(t: Tree) {
    forall k :: 0 <= k < |t.nodes| ==> Below(t, t.nodes[k].children, t.nodes[k].height)
  }

  /** Every index of `cs` exists and its node is lower than `h`. */
  predicate Below(t: Tree, cs: seq<nat>, h: nat) {
    forall i :: 0 <= i < |cs| ==> cs[i] < |t.nodes| && t.nodes[cs[i]].height < h
  }

  /** Parent and child links agree, depth grows by one per level, and a node is a leaf exactly when its height is 0. */
  predicate Linked(t: Tree, k: nat)
    requires k < |t.nodes|
  {
    var n := t.nodes[k];
    && (n.parent.None? ==> k == t.root)
    && (n.parent.Some? ==>
          n.parent.value < |t.nodes|
          && k in t.nodes[n.parent.value].children
          && n.depth == t.nodes[n.parent.value].depth + 1)
    && (forall c :: c in n.children ==> c < |t.nodes| && t.nodes[c].parent == Some(k))
    && (n.children == [] <==> n.height == 0)
  }

  /** A tree as d3 produces it: one root at depth 0, consistent links. */
  predicate Valid(t: Tree) {
    && t.root < |t.nodes|
    && t.nodes[t.root].parent == None
    && t.nodes[t.root].depth == 0
    && Shaped(t)
    && forall k :: 0 <= k < |t.nodes| ==> Linked(t, k)
  }

  predicate UniqueIds(t: Tree) {
    forall a, b :: 0 <= a < |t.nodes| && 0 <= b < |t.nodes| && t.nodes[a].id == t.nodes[b].id ==> a == b
  }

  predicate InRange(t: Tree, s: seq<nat>) {
    forall i :: 0 <= i < |s| ==> s[i] < |t.nodes|
  }

  /** The subtree of `k` in pre-order: the node itself, then each child's subtree left to right. */
  function Preorder(t: Tree, k: nat): (s: seq<nat>)
    requires Shaped(t) && k < |t.nodes|
    ensures |s| > 0 && s[0] == k && InRange(t, s)
    decreases t.nodes[k].height, 1, 0
  {
    [k] + Forest(t, t.nodes[k].children, t.nodes[k].height)
  }

  /** The pre-order of the subtrees of `cs`, one after the other. */
  function Forest(t: Tree, cs: seq<nat>, h: nat): (s: seq<nat>)
    requires Shaped(t) && Below(t, cs, h)
    ensures InRange(t, s)
    decreases h, 0, |cs|
  {
    if cs == [] then []
    else Forest(t, cs[..|cs| - 1], h) + Preorder(t, cs[|cs| - 1])
  }

  /** The strict `node.id === id` test of `getNodeById`: a numeric id never equals a string id. */
  predicate Matches(t: Tree, j: nat, q: Id)
    requires j < |t.nodes|
  {
    q == IdStr(t.nodes[j].id)
  }

  /** The first node of `s` that matches `q`. */
  function FirstMatch(t: Tree, s: seq<nat>, q: Id): (r: Option<nat>)
    requires InRange(t, s)
    ensures r.Some? ==> r.value in s && r.value < |t.nodes| && Matches(t, r.value, q)
    ensures r.None? <==> forall j :: j in s ==> !Matches(t, j, q)
  {
    if s == [] then None
    else if Matches(t, s[0], q) then Some(s[0])
    else FirstMatch(t, s[1..], q)
  }

  /** `getNodeById(id, hierarchy)` on the whole tree, as a value. */
  function NodeById(t: Tree, q: Id): Option<nat>
    requires Valid(t)
  {
    FirstMatch(t, Preorder(t, t.root), q)
  }

  lemma {:induction false} FirstMatchAppend(t: Tree, a: seq<nat>, b: seq<nat>, q: Id)
    requires InRange(t, a) && InRange(t, b)
    ensures FirstMatch(t, a + b, q) == if FirstMatch(t, a, q).Some? then FirstMatch(t, a, q) else FirstMatch(t, b, q)
  {
    if a != [] {
      assert (a + b)[1..] == a[1..] + b;
      FirstMatchAppend(t, a[1..], b, q);
    } else {
      assert a + b == b;
    }
  }

  /** Everything before the first match fails to match. */
  lemma {:induction false} FirstMatchIsFirst(t: Tree, s: seq<nat>, q: Id, i: nat)
    requires InRange(t, s) && FirstMatch(t, s, q).Some? && i < |s|
    requires Matches(t, s[i], q)
    ensures exists i' :: (0 <= i' <= i && s[i'] == FirstMatch(t, s, q).value
                          && forall i'' :: 0 <= i'' < i' ==> !Matches(t, s[i''], q))
  {
    if !Matches(t, s[0], q) {
      FirstMatchIsFirst(t, s[1..], q, i - 1);
      var i' :| 0 <= i' <= i - 1 && s[1..][i'] == FirstMatch(t, s[1..], q).value
        && forall i'' :: 0 <= i'' < i' ==> !Matches(t, s[1..][i''], q);
      assert s[i' + 1] == FirstMatch(t, s, q).value;
      forall i'' | 0 <= i'' < i' + 1 ensures !Matches(t, s[i''], q) {
        if i'' > 0 { assert s[i''] == s[1..][i'' - 1]; }
      }
    } else {
      assert s[0] == FirstMatch(t, s, q).value;
    }
  }

  /**
   * `getNodeById`: checks the node, then searches the children left to right,
   * returning the first hit of a recursive search. It finds the first node of
   * the pre-order that matches.
   */
  method GetNodeById(q: Id, t: Tree, k: nat) returns (r: Option<nat>)
    requires Shaped(t) && k < |t.nodes|
    ensures r == FirstMatch(t, Preorder(t, k), q)
    decreases t.nodes[k].height
  {
    if Matches(t, k, q) {
      return Some(k);
    }
    var cs := t.nodes[k].children;
    var h := t.nodes[k].height;
    var i := 0;
    while i < |cs|
      invariant 0 <= i <= |cs|
      invariant FirstMatch(t, Forest(t, cs[..i], h), q) == None
    {
      var found := GetNodeById(q, t, cs[i]);
      SearchStep(t, cs, h, i, q);
      if found.Some? {
        FirstMatchAppend(t, [k], Forest(t, cs, h), q);
        return found;
      }
      i := i + 1;
    }
    assert cs[..i] == cs;
    FirstMatchAppend(t, [k], Forest(t, cs, h), q);
    return None;
  }

  /** One step of the search over the children: when nothing matched in the
      first `i` subtrees, the forest's first match is the `i`-th subtree's, if any,
      and otherwise nothing matched in the first `i + 1`. */
  lemma SearchStep(t: Tree, cs: seq<nat>, h: nat, i: nat, q: Id)
    requires Shaped(t) && Below(t, cs, h) && i < |cs|
    requires FirstMatch(t, Forest(t, cs[..i], h), q) == None
    ensures FirstMatch(t, Preorder(t, cs[i]), q).Some? ==>
      FirstMatch(t, Forest(t, cs, h), q) == FirstMatch(t, Preorder(t, cs[i]), q)
    ensures FirstMatch(t, Preorder(t, cs[i]), q).None? ==> FirstMatch(t, Forest(t, cs[..i + 1], h), q) == None
  {
    ForestSnoc(t, cs, h, i);
    FirstMatchAppend(t, Forest(t, cs[..i], h), Preorder(t, cs[i]), q);
    if FirstMatch(t, Preorder(t, cs[i]), q).Some? {
      ForestPrefix(t, cs, h, i + 1);
      FirstMatchAppend(t, Forest(t, cs[..i + 1], h), Forest(t, cs[i + 1..], h), q);
    }
  }

  /** The forest of the first `i + 1` roots extends that of the first `i` by the `i`-th subtree. */
  lemma ForestSnoc(t: Tree, cs: seq<nat>, h: nat, i: nat)
    requires Shaped(t) && Below(t, cs, h) && i < |cs|
    ensures Below(t, cs[..i], h) && Below(t, cs[..i + 1], h)
    ensures Forest(t, cs[..i + 1], h) == Forest(t, cs[..i], h) + Preorder(t, cs[i])
  {
    assert cs[..i + 1][..i] == cs[..i];
  }

  lemma {:induction false} ForestAppend(t: Tree, a: seq<nat>, b: seq<nat>, h: nat)
    requires Shaped(t) && Below(t, a, h) && Below(t, b, h)
    ensures Below(t, a + b, h)
    ensures Forest(t, a + b, h) == Forest(t, a, h) + Forest(t, b, h)
    decreases |b|
  {
    if b == [] {
      assert a + b == a;
    } else {
      var b' := b[..|b| - 1];
      assert (a + b)[..|a + b| - 1] == a + b';
      assert (a + b)[|a + b| - 1] == b[|b| - 1];
      ForestAppend(t, a, b', h);
    }
  }

  lemma ForestPrefix(t: Tree, cs: seq<nat>, h: nat, i: nat)
    requires Shaped(t) && i <= |cs|
    requires Below(t, cs, h)
    ensures Forest(t, cs, h) == Forest(t, cs[..i], h) + Forest(t, cs[i..], h)
  {
    assert cs == cs[..i] + cs[i..];
    ForestAppend(t, cs[..i], cs[i..], h);
  }

  /** Each child's subtree is part of the forest of its siblings. */
  lemma {:induction false} ForestContains(t: Tree, cs: seq<nat>, h: nat, c: nat)
    requires Shaped(t)
    requires Below(t, cs, h)
    requires c in cs
    ensures forall y :: y in Preorder(t, c) ==> y in Forest(t, cs, h)
    decreases |cs|
  {
    if cs[|cs| - 1] != c {
      assert c in cs[..|cs| - 1];
      ForestContains(t, cs[..|cs| - 1], h, c);
    }
  }

  /** Anything in a forest lies in the subtree of one of its roots. */
  lemma {:induction false} ForestMember(t: Tree, cs: seq<nat>, h: nat, x: nat)
    requires Shaped(t)
    requires Below(t, cs, h)
    requires x in Forest(t, cs, h)
    ensures exists c :: c in cs && x in Preorder(t, c)
    decreases |cs|
  {
    var last := cs[|cs| - 1];
    if x !in Preorder(t, last) {
      ForestMember(t, cs[..|cs| - 1], h, x);
      var c :| c in cs[..|cs| - 1] && x in Preorder(t, c);
      assert c in cs;
    }
  }

  /** Subtrees nest: the subtree of any node of `r`'s subtree lies inside `r`'s subtree. */
  lemma {:induction false} SubtreeClosed(t: Tree, r: nat, x: nat)
    requires Shaped(t) && r < |t.nodes|
    requires x in Preorder(t, r)
    ensures forall y :: y in Preorder(t, x) ==> y in Preorder(t, r)
    decreases t.nodes[r].height
  {
    if x != r {
      var cs := t.nodes[r].children;
      var h := t.nodes[r].height;
      ForestMember(t, cs, h, x);
      var c :| c in cs && x in Preorder(t, c);
      SubtreeClosed(t, c, x);
      ForestContains(t, cs, h, c);
    }
  }

  /** Every node of a valid tree appears in the pre-order of its root. */
  lemma {:induction false} PreorderCovers(t: Tree, j: nat)
    requires Valid(t) && j < |t.nodes|
    ensures j in Preorder(t, t.root)
    decreases t.nodes[j].depth
  {
    assert Linked(t, j);
    match t.nodes[j].parent
    case None =>
      assert Preorder(t, t.root)[0] == j;
    case Some(p) =>
      PreorderCovers(t, p);
      var cs := t.nodes[p].children;
      ForestContains(t, cs, t.nodes[p].height, j);
      assert Preorder(t, j)[0] == j;
      assert j in Preorder(t, p);
      SubtreeClosed(t, t.root, p);
  }

  /** `getNodeById` on the root finds nothing exactly when no node of the tree has the id. */
  lemma NodeByIdNoneIff(t: Tree, q: Id)
    requires Valid(t)
    ensures NodeById(t, q).None? <==> forall j :: 0 <= j < |t.nodes| ==> !Matches(t, j, q)
  {
    forall j | 0 <= j < |t.nodes| ensures j in Preorder(t, t.root) {
      PreorderCovers(t, j);
    }
  }

  /** A numeric or undefined id never finds a node: node ids are strings and the test is strict. */
  lemma NodeByIdNeedsString(t: Tree, q: Id)
    requires Valid(t) && !q.IdStr?
    ensures NodeById(t, q) == None
  {
  }

  /** The chain from `k` up to the root, inclusive: `node`, `node.parent`, `node.parent.parent`, ... */
  function Ancestors(t: Tree, k: nat): (s: seq<nat>)
    requires Valid(t) && k < |t.nodes|
    ensures |s| == t.nodes[k].depth + 1 && s[0] == k && InRange(t, s)
    ensures forall i :: 0 <= i < |s| ==> t.nodes[s[i]].depth == t.nodes[k].depth - i
    decreases t.nodes[k].depth
  {
    assert Linked(t, k);
    match t.nodes[k].parent
    case None => [k]
    case Some(p) => [k] + Ancestors(t, p)
  }
}
