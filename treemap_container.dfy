/**
 * The containers' `Treemap` component: which laid-out nodes are drawn (the
 * depth frontier under the isolated root, stacked so that selected and
 * focused cells come last), the accessors it hands to d3 for summing and
 * sorting, the gating that recomputes its derived state only when a data prop
 * changed, and how a cell's processed datum is assembled.
 */
module TreemapContainer {
  import opened Js
  import opened Hierarchy
  import opened Scales
  import opened Performance
  import TreemapCell
  import TreemapText
  import Animate
  import JsNumber

  // ---------------------------------------------------------------------------
  // Isolation: `nodeHasRootAsAncestor`
  // ---------------------------------------------------------------------------

  /** `nodeHasRootAsAncestor(rootNodeId, node)`: a falsy id isolates nothing;
      otherwise the walk up the parents looks for the id `String(rootNodeId)`. */
  predicate NodeHasRootAsAncestor(rootNodeId: Id, t: Tree, k: nat)
    requires Valid(t) && k < |t.nodes|
    decreases t.nodes[k].depth
  {
    if !Truthy(rootNodeId) then true
    else if t.nodes[k].id == ToJsString(rootNodeId) then true
    else match t.nodes[k].parent
      case None => false
      case Some(p) => assert Linked(t, k); NodeHasRootAsAncestor(rootNodeId, t, p)
  }

  /** Some node on the chain from `k` up to the root, inclusive, carries `name`. */
  predicate ChainHasId(t: Tree, k: nat, name: string)
    requires Valid(t) && k < |t.nodes|
  {
    var chain := Ancestors(t, k);
    exists i :: 0 <= i < |chain| && t.nodes[chain[i]].id == name
  }

  /** The ancestor test, stated over the chain of ancestors: true for a falsy
      id, and otherwise true exactly when the chain holds `String(rootNodeId)`. */
  lemma {:induction false} AncestorTestIff(rootNodeId: Id, t: Tree, k: nat)
    requires Valid(t) && k < |t.nodes|
    ensures !Truthy(rootNodeId) ==> NodeHasRootAsAncestor(rootNodeId, t, k)
    ensures Truthy(rootNodeId) ==>
      (NodeHasRootAsAncestor(rootNodeId, t, k) <==> ChainHasId(t, k, ToJsString(rootNodeId)))
    decreases t.nodes[k].depth
  {
    if Truthy(rootNodeId) {
      var name := ToJsString(rootNodeId);
      var chain := Ancestors(t, k);
      assert chain[0] == k;
      assert Linked(t, k);
      match t.nodes[k].parent
      case None =>
        assert chain == [k];
      case Some(p) =>
        AncestorTestIff(rootNodeId, t, p);
        var up := Ancestors(t, p);
        assert chain == [k] + up;
        if ChainHasId(t, p, name) {
          var i :| 0 <= i < |up| && t.nodes[up[i]].id == name;
          assert chain[i + 1] == up[i];
        }
        if ChainHasId(t, k, name) && t.nodes[k].id != name {
          var i :| 0 <= i < |chain| && t.nodes[chain[i]].id == name;
          assert i > 0 && up[i - 1] == chain[i];
        }
    }
  }

  /** An id that no node carries, once it is truthy, isolates every node away. */
  lemma UnknownRootExcludesAll(rootNodeId: Id, t: Tree, k: nat)
    requires Valid(t) && k < |t.nodes| && Truthy(rootNodeId)
    requires forall j :: 0 <= j < |t.nodes| ==> t.nodes[j].id != ToJsString(rootNodeId)
    ensures !NodeHasRootAsAncestor(rootNodeId, t, k)
  {
    AncestorTestIff(rootNodeId, t, k);
  }

  // ---------------------------------------------------------------------------
  // The filter of `layoutData`
  // ---------------------------------------------------------------------------

  /** The filter's test on one node: at `showToDepth`, or a leaf above it, and under the isolated root. */
  predicate Keep(t: Tree, k: nat, showToDepth: int, rootNodeId: Id)
    requires Valid(t) && k < |t.nodes|
  {
    var n := t.nodes[k];
    (n.depth == showToDepth || (n.depth < showToDepth && n.children == []))
    && NodeHasRootAsAncestor(rootNodeId, t, k)
  }

  /** `descendants().filter(...)` over the traversal order `order`. */
  function Filtered(t: Tree, order: seq<nat>, showToDepth: int, rootNodeId: Id): (r: seq<nat>)
    requires Valid(t) && InRange(t, order)
    ensures InRange(t, r) && |r| <= |order|
    ensures forall i :: 0 <= i < |r| ==> Keep(t, r[i], showToDepth, rootNodeId)
    ensures forall k :: k in r <==> k in order && k < |t.nodes| && Keep(t, k, showToDepth, rootNodeId)
    ensures multiset(r) <= multiset(order)
    decreases |order|
  {
    if order == [] then []
    else
      assert order == [order[0]] + order[1..];
      var rest := Filtered(t, order[1..], showToDepth, rootNodeId);
      if Keep(t, order[0], showToDepth, rootNodeId) then [order[0]] + rest else rest
  }

  /** Nothing drawn lies deeper than `showToDepth`, and a node drawn above it is a leaf. */
  lemma FilteredFrontier(t: Tree, order: seq<nat>, showToDepth: int, rootNodeId: Id)
    requires Valid(t) && InRange(t, order)
    ensures var r := Filtered(t, order, showToDepth, rootNodeId);
            forall i :: 0 <= i < |r| ==>
              t.nodes[r[i]].depth <= showToDepth
              && (t.nodes[r[i]].depth < showToDepth ==> t.nodes[r[i]].height == 0)
  {
    var r := Filtered(t, order, showToDepth, rootNodeId);
    forall i | 0 <= i < |r|
      ensures t.nodes[r[i]].depth <= showToDepth
      ensures t.nodes[r[i]].depth < showToDepth ==> t.nodes[r[i]].height == 0
    {
      assert Keep(t, r[i], showToDepth, rootNodeId);
      assert Linked(t, r[i]);
    }
  }

  // ---------------------------------------------------------------------------
  // The stacking sort of `layoutData`
  // ---------------------------------------------------------------------------

  /** lodash `findIndex(list, item => item === x)`: the first position of `x`, or -1. */
  function FindIndex(list: seq<Id>, x: Id): (r: int)
    ensures -1 <= r < |list|
    ensures r == -1 <==> x !in list
    ensures r >= 0 ==> list[r] == x && forall j :: 0 <= j < r ==> list[j] != x
    decreases |list|
  {
    if list == [] then -1
    else if list[0] == x then 0
    else
      var rest := FindIndex(list[1..], x);
      if rest == -1 then -1 else rest + 1
  }

  /** `[...(selection || []), focused]`; an absent selection is `None`. */
  function SelectedAndFocused(selection: Option<seq<Id>>, focused: Id): (r: seq<Id>)
    ensures |r| >= 1 && r[|r| - 1] == focused
  {
    (if selection.Some? then selection.value else []) + [focused]
  }

  /** The position of node `k`'s id in the list: its id is a string and the test is strict. */
  function StackIndex(t: Tree, list: seq<Id>, k: nat): int {
    if k < |t.nodes| then FindIndex(list, IdStr(t.nodes[k].id)) else -1
  }

  /** The key `sortBy` is given. */
  function StackingKey(t: Tree, list: seq<Id>): nat -> int {
    (k: nat) => StackIndex(t, list, k)
  }

  /** Inserting `x` before the first element whose key is at least its own. */
  function Insert<T>(x: T, s: seq<T>, key: T -> int): (r: seq<T>)
    ensures multiset(r) == multiset(s) + multiset{x}
    decreases |s|
  {
    if s == [] then [x]
    else if key(x) <= key(s[0]) then [x] + s
    else
      assert s == [s[0]] + s[1..];
      [s[0]] + Insert(x, s[1..], key)
  }

  /** lodash `sortBy(s, key)`, an insertion sort that keeps equal keys in their original order. */
  function SortBy<T>(s: seq<T>, key: T -> int): (r: seq<T>)
    ensures multiset(r) == multiset(s)
    decreases |s|
  {
    if s == [] then []
    else
      assert s == [s[0]] + s[1..];
      Insert(s[0], SortBy(s[1..], key), key)
  }

  predicate SortedBy<T>(s: seq<T>, key: T -> int) {
    forall i, j :: 0 <= i < j < |s| ==> key(s[i]) <= key(s[j])
  }

  /** The elements of `s` whose key is `v`, in their order in `s`. */
  function WithKey<T>(s: seq<T>, key: T -> int, v: int): seq<T>
    decreases |s|
  {
    if s == [] then []
    else (if key(s[0]) == v then [s[0]] else []) + WithKey(s[1..], key, v)
  }

  lemma {:induction false} InsertSorted<T>(x: T, s: seq<T>, key: T -> int)
    requires SortedBy(s, key)
    ensures SortedBy(Insert(x, s, key), key)
    decreases |s|
  {
    if s != [] && key(x) > key(s[0]) {
      var rest := Insert(x, s[1..], key);
      SortedTail(s, key);
      InsertSorted(x, s[1..], key);
      InsertAbove(x, s, key);
      SortedCons(s[0], rest, key);
      assert Insert(x, s, key) == [s[0]] + rest;
    }
  }

  lemma SortedTail<T>(s: seq<T>, key: T -> int)
    requires s != [] && SortedBy(s, key)
    ensures SortedBy(s[1..], key)
  {
    forall i, j | 0 <= i < j < |s[1..]| ensures key(s[1..][i]) <= key(s[1..][j]) {
      assert s[1..][i] == s[i + 1] && s[1..][j] == s[j + 1];
    }
  }

  /** When `x` passes the head of a sorted `s`, everything inserted after the head has at least the head's key. */
  lemma InsertAbove<T>(x: T, s: seq<T>, key: T -> int)
    requires s != [] && SortedBy(s, key) && key(x) > key(s[0])
    ensures forall i :: 0 <= i < |Insert(x, s[1..], key)| ==> key(s[0]) <= key(Insert(x, s[1..], key)[i])
  {
    var rest := Insert(x, s[1..], key);
    forall i | 0 <= i < |rest| ensures key(s[0]) <= key(rest[i]) {
      assert rest[i] in multiset(rest);
      if rest[i] != x {
        assert rest[i] in multiset(s[1..]);
        var j :| 0 <= j < |s[1..]| && s[1..][j] == rest[i];
        assert s[1..][j] == s[j + 1];
      }
    }
  }

  /** A head no larger than anything in a sorted tail keeps the sequence sorted. */
  lemma SortedCons<T>(h: T, rest: seq<T>, key: T -> int)
    requires SortedBy(rest, key)
    requires forall i :: 0 <= i < |rest| ==> key(h) <= key(rest[i])
    ensures SortedBy([h] + rest, key)
  {
    var r := [h] + rest;
    forall i, j | 0 <= i < j < |r| ensures key(r[i]) <= key(r[j]) {
      if i > 0 { assert r[i] == rest[i - 1]; }
      assert r[j] == rest[j - 1];
    }
  }

  /** The result of the sort is in key order. */
  lemma {:induction false} SortBySorted<T>(s: seq<T>, key: T -> int)
    ensures SortedBy(SortBy(s, key), key)
    decreases |s|
  {
    if s != [] {
      SortBySorted(s[1..], key);
      InsertSorted(s[0], SortBy(s[1..], key), key);
    }
  }

  lemma {:induction false} WithKeyAppend<T>(a: seq<T>, b: seq<T>, key: T -> int, v: int)
    ensures WithKey(a + b, key, v) == WithKey(a, key, v) + WithKey(b, key, v)
    decreases |a|
  {
    if a == [] {
      assert a + b == b;
    } else {
      var h := if key(a[0]) == v then [a[0]] else [];
      assert (a + b)[0] == a[0] && (a + b)[1..] == a[1..] + b;
      assert WithKey(a + b, key, v) == h + WithKey(a[1..] + b, key, v);
      WithKeyAppend(a[1..], b, key, v);
      assert WithKey(a, key, v) == h + WithKey(a[1..], key, v);
      assert h + (WithKey(a[1..], key, v) + WithKey(b, key, v)) == (h + WithKey(a[1..], key, v)) + WithKey(b, key, v);
    }
  }

  /** Inserting `x` passes only elements with a smaller key, so among the elements
      with its key it comes first. */
  lemma {:induction false} InsertWithKey<T>(x: T, s: seq<T>, key: T -> int, v: int)
    ensures WithKey(Insert(x, s, key), key, v) == (if key(x) == v then [x] else []) + WithKey(s, key, v)
    decreases |s|
  {
    if s == [] || key(x) <= key(s[0]) {
      assert Insert(x, s, key) == [x] + s;
      WithKeyAppend([x], s, key, v);
      assert WithKey([x], key, v) == (if key(x) == v then [x] else []) + WithKey([], key, v);
    } else {
      InsertWithKey(x, s[1..], key, v);
      InsertPassesHead(x, s, key, v);
    }
  }

  /** When `x` passes the head of `s`, the head joins the result in front of the rest. */
  lemma InsertPassesHead<T>(x: T, s: seq<T>, key: T -> int, v: int)
    requires s != [] && key(x) > key(s[0])
    requires WithKey(Insert(x, s[1..], key), key, v) == (if key(x) == v then [x] else []) + WithKey(s[1..], key, v)
    ensures WithKey(Insert(x, s, key), key, v) == (if key(x) == v then [x] else []) + WithKey(s, key, v)
  {
    var rest := Insert(x, s[1..], key);
    var h0 := if key(s[0]) == v then [s[0]] else [];
    assert Insert(x, s, key) == [s[0]] + rest;
    WithKeyAppend([s[0]], rest, key, v);
    assert WithKey([s[0]], key, v) == h0 + WithKey([], key, v);
    assert WithKey(s, key, v) == h0 + WithKey(s[1..], key, v);
    AtMostOneHead(h0, if key(x) == v then [x] else [], WithKey(s[1..], key, v));
  }

  /** Two prefixes of which one is empty can be swapped. */
  lemma AtMostOneHead<T>(a: seq<T>, b: seq<T>, w: seq<T>)
    requires a == [] || b == []
    ensures a + (b + w) == b + (a + w)
  {
    if a == [] {
      assert a + (b + w) == b + w == b + (a + w);
    } else {
      assert a + (b + w) == a + w == b + (a + w);
    }
  }

  /** The sort is stable: for every key, the elements carrying it keep their original order. */
  lemma {:induction false} SortByStable<T>(s: seq<T>, key: T -> int, v: int)
    ensures WithKey(SortBy(s, key), key, v) == WithKey(s, key, v)
    decreases |s|
  {
    if s != [] {
      SortByStable(s[1..], key, v);
      InsertWithKey(s[0], SortBy(s[1..], key), key, v);
    }
  }

  /** What `layoutData` returns: the filtered nodes, stacked by their position in `[...selection, focused]`. */
  function LayoutData(t: Tree, order: seq<nat>, showToDepth: int, rootNodeId: Id,
                      selection: Option<seq<Id>>, focused: Id): seq<nat>
    requires Valid(t) && InRange(t, order)
  {
    SortBy(Filtered(t, order, showToDepth, rootNodeId), StackingKey(t, SelectedAndFocused(selection, focused)))
  }

  /**
   * The stacking order: a permutation of the filtered nodes in which unlisted
   * nodes (key -1) come first, listed ones follow by their first list position,
   * and nodes with the same position keep the traversal order.
   */
  lemma LayoutDataStacking(t: Tree, order: seq<nat>, showToDepth: int, rootNodeId: Id,
                           selection: Option<seq<Id>>, focused: Id, v: int)
    requires Valid(t) && InRange(t, order)
    ensures var f := Filtered(t, order, showToDepth, rootNodeId);
            var key := StackingKey(t, SelectedAndFocused(selection, focused));
            var r := LayoutData(t, order, showToDepth, rootNodeId, selection, focused);
            multiset(r) == multiset(f)
            && (forall i, j :: 0 <= i < j < |r| ==> key(r[i]) <= key(r[j]))
            && WithKey(r, key, v) == WithKey(f, key, v)
  {
    var f := Filtered(t, order, showToDepth, rootNodeId);
    var key := StackingKey(t, SelectedAndFocused(selection, focused));
    SortBySorted(f, key);
    SortByStable(f, key, v);
  }

  /** In a sorted sequence the last element carries the largest key. */
  lemma SortedLastIsMax<T>(r: seq<T>, key: T -> int, x: T)
    requires SortedBy(r, key) && x in r
    ensures key(x) <= key(r[|r| - 1])
  {
    var i :| 0 <= i < |r| && r[i] == x;
    if i < |r| - 1 {
      assert key(r[i]) <= key(r[|r| - 1]);
    }
  }

  /** The focused node is drawn last when its id is not also in the selection. */
  lemma FocusedDrawnLast(t: Tree, order: seq<nat>, showToDepth: int, rootNodeId: Id,
                         selection: Option<seq<Id>>, focused: Id, f: nat)
    requires Valid(t) && UniqueIds(t) && InRange(t, order)
    requires f in Filtered(t, order, showToDepth, rootNodeId)
    requires focused == IdStr(t.nodes[f].id)
    requires selection.Some? ==> focused !in selection.value
    ensures var r := LayoutData(t, order, showToDepth, rootNodeId, selection, focused);
            |r| > 0 && r[|r| - 1] == f
  {
    var fs := Filtered(t, order, showToDepth, rootNodeId);
    var key := StackingKey(t, SelectedAndFocused(selection, focused));
    InRangeMember(t, fs, f);
    FocusedSortsLast(t, fs, selection, focused, f);
    assert LayoutData(t, order, showToDepth, rootNodeId, selection, focused) == SortBy(fs, key);
  }

  /** A member of an in-range sequence is a node index. */
  lemma InRangeMember(t: Tree, s: seq<nat>, x: nat)
    requires InRange(t, s) && x in s
    ensures x < |t.nodes|
  {
  }

  /** Sorting any node sequence by stacking key puts the focused node last. */
  lemma FocusedSortsLast(t: Tree, fs: seq<nat>, selection: Option<seq<Id>>, focused: Id, f: nat)
    requires UniqueIds(t) && f in fs && f < |t.nodes| && focused == IdStr(t.nodes[f].id)
    requires selection.Some? ==> focused !in selection.value
    ensures var r := SortBy(fs, StackingKey(t, SelectedAndFocused(selection, focused)));
            |r| > 0 && r[|r| - 1] == f
  {
    var list := SelectedAndFocused(selection, focused);
    var key := StackingKey(t, list);
    var r := SortBy(fs, key);
    SortBySorted(fs, key);
    FocusedKeyIsTop(t, selection, focused, f);
    assert f in multiset(r);
    forall x | x in r && key(x) >= key(f) ensures x == f {
      TopKeyIsFocused(t, list, x);
      SameIdSameNode(t, x, f);
    }
    SortedLastIsOnlyTop(r, key, f);
  }

  /** In a sorted sequence, an element that no other element's key reaches comes last. */
  lemma SortedLastIsOnlyTop<T>(r: seq<T>, key: T -> int, x: T)
    requires SortedBy(r, key) && x in r
    requires forall y :: y in r && key(y) >= key(x) ==> y == x
    ensures |r| > 0 && r[|r| - 1] == x
  {
    SortedLastIsMax(r, key, x);
  }

  /** Ids are unique, so a node is determined by its id. */
  lemma SameIdSameNode(t: Tree, a: nat, b: nat)
    requires UniqueIds(t) && a < |t.nodes| && b < |t.nodes|
    requires IdStr(t.nodes[a].id) == IdStr(t.nodes[b].id)
    ensures a == b
  {
  }

  /** The focused node's key is the last position of the list, the focused id's only place there. */
  lemma FocusedKeyIsTop(t: Tree, selection: Option<seq<Id>>, focused: Id, f: nat)
    requires f < |t.nodes| && focused == IdStr(t.nodes[f].id)
    requires selection.Some? ==> focused !in selection.value
    ensures StackIndex(t, SelectedAndFocused(selection, focused), f) == |SelectedAndFocused(selection, focused)| - 1
  {
    var list := SelectedAndFocused(selection, focused);
    var r := FindIndex(list, focused);
    assert list[|list| - 1] == focused;
  }

  /** A key at the last position of the list belongs to a node whose id is the list's last entry. */
  lemma TopKeyIsFocused(t: Tree, list: seq<Id>, k: nat)
    requires |list| >= 1 && StackIndex(t, list, k) >= |list| - 1
    ensures k < |t.nodes| && list[|list| - 1] == IdStr(t.nodes[k].id)
  {
  }

  /** A rootNodeId that is a non-zero number: the filter isolates the node whose
      id is its decimal string, while the strict lookup of `getScales` finds no
      node, so the scales keep showing the whole viewport. */
  lemma NumericRootQuirk(width: real, height: real, n: int, t: Tree, k: nat)
    requires Valid(t) && n != 0 && k < |t.nodes| && t.nodes[k].id == ToJsString(IdNum(n))
    ensures NodeHasRootAsAncestor(IdNum(n), t, k)
    ensures ScalesFor(width, height, IdNum(n), t)
         == (Linear(Extent(0.0, width), Extent(0.0, width)), Linear(Extent(0.0, height), Extent(0.0, height)))
  {
    NodeByIdNeedsString(t, IdNum(n));
  }

  // ---------------------------------------------------------------------------
  // The accessors `layoutData` hands to d3's `sum` and `sort`
  // ---------------------------------------------------------------------------

  /** lodash's default `1e-100`, written out. */
  const LeafDefault: real := 0.0000000000000000000000000000000000000000000000000000000000000000000000000000000000000000000000000001

  /** `getValue(data, [metaDatum[id], value], 1e-100)`: the datum's entry in the
      `data` prop, and in it the value field; the default when that is undefined. */
  function LeafValue(data: Obj, datumId: Id, valueField: string): (r: Value)
    ensures r != Undefined
    ensures Member(Get(data, ToJsString(datumId)), valueField) != Undefined ==>
      r == Member(Get(data, ToJsString(datumId)), valueField)
  {
    var v := Member(Get(data, ToJsString(datumId)), valueField);
    if v == Undefined then Num(LeafDefault) else v
  }

  /** The accessor given to `hierarchy.sum`, applied to a datum with id field `datumId`:
      the node found for `String(datumId)` counts 0 when it has children. */
  function SumAccessor(t: Tree, data: Obj, valueField: string, datumId: Id): Value
    requires Valid(t)
  {
    var node := NodeById(t, IdStr(ToJsString(datumId)));
    if node.Some? && t.nodes[node.value].children != [] then Num(0.0)
    else LeafValue(data, datumId, valueField)
  }

  /** Only leaves contribute: for a node whose id is its datum's id, the accessor
      gives 0 on an internal node and the datum's value (or the default) on a leaf. */
  lemma SumCountsOnlyLeaves(t: Tree, data: Obj, valueField: string, k: nat)
    requires Valid(t) && UniqueIds(t) && k < |t.nodes|
    requires t.nodes[k].id == ToJsString(t.nodes[k].datumId)
    ensures t.nodes[k].children != [] ==> SumAccessor(t, data, valueField, t.nodes[k].datumId) == Num(0.0)
    ensures t.nodes[k].children == [] ==>
      SumAccessor(t, data, valueField, t.nodes[k].datumId) == LeafValue(data, t.nodes[k].datumId, valueField)
  {
    var q := IdStr(ToJsString(t.nodes[k].datumId));
    assert Matches(t, k, q);
    NodeByIdNoneIff(t, q);
    var j := NodeById(t, q).value;
    assert t.nodes[j].id == t.nodes[k].id;
  }

  /** A datum whose id names no node is counted as a leaf. */
  lemma SumOfUnknownDatum(t: Tree, data: Obj, valueField: string, datumId: Id)
    requires Valid(t)
    requires forall j :: 0 <= j < |t.nodes| ==> t.nodes[j].id != ToJsString(datumId)
    ensures SumAccessor(t, data, valueField, datumId) == LeafValue(data, datumId, valueField)
  {
    NodeByIdNoneIff(t, IdStr(ToJsString(datumId)));
  }

  /** `+value || 0`, the number d3's `sum` takes from an accessor result: NaN counts 0. */
  function NumberOrZero(v: Value): (r: real)
    ensures JsNumber.ToNumber(v).Some? ==> r == JsNumber.ToNumber(v).value
    ensures JsNumber.ToNumber(v).None? ==> r == 0.0
  {
    var n := JsNumber.ToNumber(v);
    if n.Some? then n.value else 0.0
  }

  function ChildSum(t: Tree, cs: seq<nat>): real
    requires forall i :: 0 <= i < |cs| ==> cs[i] < |t.nodes|
    decreases |cs|
  {
    if cs == [] then 0.0 else t.nodes[cs[0]].value + ChildSum(t, cs[1..])
  }

  /** The values d3's `sum` assigns with this accessor: the node's own accessor
      result plus the values of its children. */
  predicate Summed(t: Tree, data: Obj, valueField: string)
    requires Valid(t)
  {
    forall k :: 0 <= k < |t.nodes| ==>
      assert Linked(t, k);
      t.nodes[k].value == NumberOrZero(SumAccessor(t, data, valueField, t.nodes[k].datumId)) + ChildSum(t, t.nodes[k].children)
  }

  /** After `sum`, an internal node's value is exactly the sum of its children's values. */
  lemma InternalValueIsChildSum(t: Tree, data: Obj, valueField: string, k: nat)
    requires Valid(t) && UniqueIds(t) && Summed(t, data, valueField) && k < |t.nodes|
    requires t.nodes[k].id == ToJsString(t.nodes[k].datumId) && t.nodes[k].children != []
    ensures t.nodes[k].value == ChildSum(t, t.nodes[k].children)
  {
    SumCountsOnlyLeaves(t, data, valueField, k);
  }

  /** The comparator given to `hierarchy.sort`: `b.height - a.height || b.value - a.value`. */
  function Compare(a: Node, b: Node): (r: real)
    ensures r < 0.0 <==> a.height > b.height || (a.height == b.height && a.value > b.value)
    ensures r > 0.0 <==> a.height < b.height || (a.height == b.height && a.value < b.value)
    ensures r == 0.0 <==> a.height == b.height && a.value == b.value
  {
    var byHeight := (b.height - a.height) as real;
    if byHeight != 0.0 then byHeight else b.value - a.value
  }

  // ---------------------------------------------------------------------------
  // `propUpdates`: derived state recomputed only when a data prop changed
  // ---------------------------------------------------------------------------

  /** `Treemap.dataPropNames`. */
  const DataPropNames: seq<string> := ["animate", "data", "focused", "height", "width", "rootNodeId", "showToDepth", "selection"]

  /** `propsChanged(prevProps, nextProps, Treemap.dataPropNames)`, with no omissions and lodash `eq`. */
  predicate DataPropsChanged(prevProps: Obj, nextProps: Obj) {
    PropsChanged(prevProps, nextProps, Some(DataPropNames), [], Eq)
  }

  /** How one derived value is computed from the accumulator, the next props and the context. */
  type Recompute = (Obj, Obj, Obj) -> Value

  /** The computations of the five derived values: `getLayout`, `layoutData`,
      `getScales`, `getDatumProcessor` and the partial application of the animation processor. */
  datatype Recomputes = Recomputes(
    layout: Recompute, treemapData: Recompute, scales: Recompute,
    datumProcessor: Recompute, animationProcessor: Recompute)

  /** One entry of `propUpdates`: the accumulator is returned as it is unless a
      data prop changed, and otherwise `{...acc, [name]: compute(acc, nextProps, context)}`. */
  function Gated(name: string, compute: Recompute): Updater<Obj, Obj, Obj> {
    (acc: Obj, key: string, prevProps: Obj, nextProps: Obj, context: Obj) =>
      if !DataPropsChanged(prevProps, nextProps) then acc else Set(acc, name, compute(acc, nextProps, context))
  }

  /** `Treemap.propUpdates`, in key order. */
  function PropUpdates(fs: Recomputes): seq<(string, Updater<Obj, Obj, Obj>)> {
    [("layout", Gated("layout", fs.layout)),
     ("treemapData", Gated("treemapData", fs.treemapData)),
     ("scales", Gated("scales", fs.scales)),
     ("datumProcessor", Gated("datumProcessor", fs.datumProcessor)),
     ("animationProcessor", Gated("animationProcessor", fs.animationProcessor))]
  }

  /** The state after all five recomputations, each seeing what the earlier ones set. */
  function Recomputed(state: Obj, nextProps: Obj, context: Obj, fs: Recomputes): Obj {
    var s1 := Set(state, "layout", fs.layout(state, nextProps, context));
    var s2 := Set(s1, "treemapData", fs.treemapData(s1, nextProps, context));
    var s3 := Set(s2, "scales", fs.scales(s2, nextProps, context));
    var s4 := Set(s3, "datumProcessor", fs.datumProcessor(s3, nextProps, context));
    Set(s4, "animationProcessor", fs.animationProcessor(s4, nextProps, context))
  }

  /** When no data prop changed, the derived state is kept as it is. */
  lemma PropUpdatesKeepState(prevProps: Obj, nextProps: Obj, state: Obj, context: Obj, fs: Recomputes)
    requires !DataPropsChanged(prevProps, nextProps)
    ensures StateFromPropUpdates(PropUpdates(fs), prevProps, nextProps, state, context) == state
  {
    var us := PropUpdates(fs);
    GatedKeeps("layout", fs.layout, state, "layout", prevProps, nextProps, context);
    GatedKeeps("treemapData", fs.treemapData, state, "treemapData", prevProps, nextProps, context);
    GatedKeeps("scales", fs.scales, state, "scales", prevProps, nextProps, context);
    GatedKeeps("datumProcessor", fs.datumProcessor, state, "datumProcessor", prevProps, nextProps, context);
    GatedKeeps("animationProcessor", fs.animationProcessor, state, "animationProcessor", prevProps, nextProps, context);
    assert us[4..] == [us[4]] && us[5..] == [];
    assert StateFromPropUpdates(us[4..], prevProps, nextProps, state, context) == state;
    assert StateFromPropUpdates(us[3..], prevProps, nextProps, state, context) == state by { assert us[3..][1..] == us[4..]; }
    assert StateFromPropUpdates(us[2..], prevProps, nextProps, state, context) == state by { assert us[2..][1..] == us[3..]; }
    assert StateFromPropUpdates(us[1..], prevProps, nextProps, state, context) == state by { assert us[1..][1..] == us[2..]; }
  }

  /** A gated entry hands back its accumulator when no data prop changed. */
  lemma GatedKeeps(name: string, compute: Recompute, acc: Obj, key: string, prevProps: Obj, nextProps: Obj, context: Obj)
    requires !DataPropsChanged(prevProps, nextProps)
    ensures Gated(name, compute)(acc, key, prevProps, nextProps, context) == acc
  {
  }

  /** When a data prop changed, all five values are recomputed in order. */
  lemma PropUpdatesRecompute(prevProps: Obj, nextProps: Obj, state: Obj, context: Obj, fs: Recomputes)
    requires DataPropsChanged(prevProps, nextProps)
    ensures StateFromPropUpdates(PropUpdates(fs), prevProps, nextProps, state, context) == Recomputed(state, nextProps, context, fs)
  {
    var us := PropUpdates(fs);
    var s1 := Set(state, "layout", fs.layout(state, nextProps, context));
    var s2 := Set(s1, "treemapData", fs.treemapData(s1, nextProps, context));
    var s3 := Set(s2, "scales", fs.scales(s2, nextProps, context));
    var s4 := Set(s3, "datumProcessor", fs.datumProcessor(s3, nextProps, context));
    var s5 := Set(s4, "animationProcessor", fs.animationProcessor(s4, nextProps, context));
    assert us[4..] == [us[4]] && us[5..] == [];
    assert StateFromPropUpdates(us[4..], prevProps, nextProps, s4, context) == s5;
    assert StateFromPropUpdates(us[3..], prevProps, nextProps, s3, context) == s5 by { assert us[3..][1..] == us[4..]; }
    assert StateFromPropUpdates(us[2..], prevProps, nextProps, s2, context) == s5 by { assert us[2..][1..] == us[3..]; }
    assert StateFromPropUpdates(us[1..], prevProps, nextProps, s1, context) == s5 by { assert us[1..][1..] == us[2..]; }
  }

  /** Props outside `dataPropNames` (styles, handlers, fonts, ...) never cause a recomputation. */
  lemma OnlyDataPropsMatter(prevProps: Obj, nextProps: Obj, state: Obj, context: Obj, fs: Recomputes)
    requires forall i :: 0 <= i < |DataPropNames| ==> Get(prevProps, DataPropNames[i]) == Get(nextProps, DataPropNames[i])
    ensures StateFromPropUpdates(PropUpdates(fs), prevProps, nextProps, state, context) == state
  {
    PropsChangedIff(prevProps, nextProps, Some(DataPropNames), [], Eq);
    PropUpdatesKeepState(prevProps, nextProps, state, context, fs);
  }

  /** A data prop passed as a new array or object (a different reference) counts
      as changed under `eq`, so everything is recomputed even when the contents are equal. */
  lemma NewReferenceRecomputes(name: string, a: nat, b: nat, prevProps: Obj, nextProps: Obj, state: Obj, context: Obj, fs: Recomputes)
    requires name in DataPropNames && a != b
    requires Get(prevProps, name) == Ref(a) && Get(nextProps, name) == Ref(b)
    ensures StateFromPropUpdates(PropUpdates(fs), prevProps, nextProps, state, context) == Recomputed(state, nextProps, context, fs)
  {
    var i :| 0 <= i < |DataPropNames| && DataPropNames[i] == name;
    assert Differs(prevProps, nextProps, [], Eq, DataPropNames[i]);
    PropsChangedIff(prevProps, nextProps, Some(DataPropNames), [], Eq);
    PropUpdatesRecompute(prevProps, nextProps, state, context, fs);
  }

  /** The constructor's `stateFromPropUpdates(propUpdates, {}, props, {}, {})`
      computes everything as soon as one data prop is defined. */
  lemma ConstructorComputesAll(props: Obj, fs: Recomputes)
    requires exists i :: 0 <= i < |DataPropNames| && Get(props, DataPropNames[i]) != Undefined
    ensures StateFromPropUpdates(PropUpdates(fs), [], props, [], []) == Recomputed([], props, [], fs)
  {
    PropsChangedFromEmpty(props, DataPropNames);
    PropUpdatesRecompute([], props, [], [], fs);
  }

  /** The component's derived state, replaced by `componentWillReceiveProps`. */
  class TreemapComponent {
    var props: Obj
    var state: Obj

    /** `constructor(props)`. */
    constructor(props: Obj, fs: Recomputes)
      ensures this.props == props
      ensures state == StateFromPropUpdates(PropUpdates(fs), [], props, [], [])
    {
      this.props := props;
      state := StateFromPropUpdates(PropUpdates(fs), [], props, [], []);
    }

    /** `componentWillReceiveProps(nextProps)`: the old state is both the
        accumulator and the context; the new props take the place of the old. */
    method ComponentWillReceiveProps(nextProps: Obj, fs: Recomputes)
      modifies this
      ensures props == nextProps
      ensures state == StateFromPropUpdates(PropUpdates(fs), old(props), nextProps, old(state), old(state))
      ensures !DataPropsChanged(old(props), nextProps) ==> state == old(state)
      ensures DataPropsChanged(old(props), nextProps) ==> state == Recomputed(old(state), nextProps, old(state), fs)
    {
      var next := StateFromPropUpdates(PropUpdates(fs), props, nextProps, state, state);
      if DataPropsChanged(props, nextProps) {
        PropUpdatesRecompute(props, nextProps, state, state, fs);
      } else {
        PropUpdatesKeepState(props, nextProps, state, state, fs);
      }
      state := next;
      props := nextProps;
    }
  }

  // ---------------------------------------------------------------------------
  // The datum processor: `getCellDatumProcessor`, `getTextDatumProcessor`, `getDatumProcessor`
  // ---------------------------------------------------------------------------

  /** `dataAccessors.attribution`: the data fields holding the attribution fill and value. */
  datatype AttributionAccessors = AttributionAccessors(fill: Option<string>, value: string)

  /** `attribution && name && datum.data[name]`: the first falsy operand, else the datum's field. */
  function AttributionLookup(present: bool, name: Option<string>, data: Obj): (r: Value)
    ensures !present ==> r == Undefined
    ensures present && name.None? ==> r == Undefined
    ensures present && name == Some("") ==> r == Str("")
    ensures present && name.Some? && name.value != "" ==> r == Get(data, name.value)
  {
    if !present then Undefined
    else match name
      case None => Undefined
      case Some(n) => if n == "" then Str("") else Get(data, n)
  }

  /** `{attributionFill, attributionValue, cellFill}`, resolved against the datum's data. */
  function CellHead(attribution: Option<AttributionAccessors>, cellFill: Value, data: Obj): (r: Obj)
    ensures Keys(r) == ["attributionFill", "attributionValue", "cellFill"]
    ensures Get(r, "cellFill") == cellFill
    ensures Get(r, "attributionValue") == AttributionLookup(attribution.Some?, if attribution.Some? then Some(attribution.value.value) else None, data)
    ensures Get(r, "attributionFill") == AttributionLookup(attribution.Some?, if attribution.Some? then attribution.value.fill else None, data)
  {
    var present := attribution.Some?;
    var fill := AttributionLookup(present, if present then attribution.value.fill else None, data);
    var value := AttributionLookup(present, if present then Some(attribution.value.value) else None, data);
    var r := [("attributionFill", fill), ("attributionValue", value), ("cellFill", cellFill)];
    LookupAt(r, 0);
    LookupAt(r, 1);
    LookupAt(r, 2);
    r
  }

  /** `{attributionFill, attributionValue, cellFill, ...cellDatumProcessor(datum)}`;
      `cellFill` is the resolved colour, computed outside this model. */
  function CellDatum(attribution: Option<AttributionAccessors>, cellFill: Value,
                     xScale: Linear, yScale: Linear, datum: Node): Obj
  {
    Spread(CellHead(attribution, cellFill, datum.data), TreemapCell.CellObj(TreemapCell.ProcessDatum(xScale, yScale, datum)))
  }

  /** The cell keys: the three resolved props, then the animatable cell keys. */
  const CellKeys: seq<string> := ["attributionFill", "attributionValue", "cellFill"] + TreemapCell.Animatable

  /** The cell datum's keys: the head's, then the cell's, with nothing overwritten. */
  lemma CellDatumKeys(attribution: Option<AttributionAccessors>, cellFill: Value,
                      xScale: Linear, yScale: Linear, datum: Node)
    ensures Keys(CellDatum(attribution, cellFill, xScale, yScale, datum)) == CellKeys
  {
    var head := CellHead(attribution, cellFill, datum.data);
    var cell := TreemapCell.CellObj(TreemapCell.ProcessDatum(xScale, yScale, datum));
    CellKeysApart();
    assert forall i :: 0 <= i < |cell| ==> cell[i].0 == TreemapCell.Animatable[i];
    DistinctKeysUnique(cell);
    SpreadDisjoint(head, cell);
    KeysAppend(head, cell);
  }

  /** The animatable cell keys are pairwise distinct and none is a head key. */
  lemma CellKeysApart()
    ensures forall i, j :: 0 <= i < j < |TreemapCell.Animatable| ==> TreemapCell.Animatable[i] != TreemapCell.Animatable[j]
    ensures forall i :: 0 <= i < |TreemapCell.Animatable| ==>
      TreemapCell.Animatable[i] !in ["attributionFill", "attributionValue", "cellFill"]
  {
  }

  /** A key of the cell object reads back from it; any other key from the head. */
  lemma CellDatumGet(attribution: Option<AttributionAccessors>, cellFill: Value,
                     xScale: Linear, yScale: Linear, datum: Node, k: string)
    ensures var cell := TreemapCell.CellObj(TreemapCell.ProcessDatum(xScale, yScale, datum));
            Get(CellDatum(attribution, cellFill, xScale, yScale, datum), k)
            == if k in TreemapCell.Animatable then Get(cell, k) else Get(CellHead(attribution, cellFill, datum.data), k)
  {
    var head := CellHead(attribution, cellFill, datum.data);
    var cell := TreemapCell.CellObj(TreemapCell.ProcessDatum(xScale, yScale, datum));
    SpreadLookup(head, cell, k);
  }

  /** The text props `getTextDatumProcessor` assembles: fonts from the props, size from the processed cell. */
  datatype TextProps = TextProps(fontMargin: real, fontPadding: real, minFontSize: real, maxFontSize: real)

  function TextInputs(props: TextProps, cell: TreemapCell.CellState, labelWidth: real): TreemapText.TextSizingInputs {
    TreemapText.TextSizingInputs(props.fontMargin, props.fontPadding, props.minFontSize, props.maxFontSize,
                                 cell.height, cell.width, labelWidth)
  }

  /** `{...TreemapText.processDatum(textProps), label}`; the label and its
      measured width per unit of font size are computed outside this model. */
  function TextDatum(inputs: TreemapText.TextSizingInputs, labelValue: Value): (r: Obj)
    requires inputs.labelWidth > 0.0 && inputs.fontMargin != 0.0
    ensures Get(r, "label") == labelValue
  {
    SpreadLookup(TreemapText.ProcessDatum(inputs), [("label", labelValue)], "label");
    LookupAt([("label", labelValue)], 0);
    Spread(TreemapText.ProcessDatum(inputs), [("label", labelValue)])
  }

  /** `getDatumProcessor(props, scales)(datum)`: the text part first, the cell part spread over it. */
  function DatumProcessor(props: TextProps, attribution: Option<AttributionAccessors>, cellFill: Value,
                          labelValue: Value, labelWidth: real, xScale: Linear, yScale: Linear, datum: Node): Obj
    requires labelWidth > 0.0 && props.fontMargin != 0.0
  {
    var cell := TreemapCell.ProcessDatum(xScale, yScale, datum);
    Spread(TextDatum(TextInputs(props, cell, labelWidth), labelValue), CellDatum(attribution, cellFill, xScale, yScale, datum))
  }

  /** The merge: every key the cell part sets reads back from the cell part, any other key from the text part. */
  lemma CellKeysWin(props: TextProps, attribution: Option<AttributionAccessors>, cellFill: Value,
                    labelValue: Value, labelWidth: real, xScale: Linear, yScale: Linear, datum: Node, k: string)
    requires labelWidth > 0.0 && props.fontMargin != 0.0
    ensures var cell := TreemapCell.ProcessDatum(xScale, yScale, datum);
            var cellPart := CellDatum(attribution, cellFill, xScale, yScale, datum);
            var textPart := TextDatum(TextInputs(props, cell, labelWidth), labelValue);
            var r := DatumProcessor(props, attribution, cellFill, labelValue, labelWidth, xScale, yScale, datum);
            Get(r, k) == if k in CellKeys then Get(cellPart, k) else Get(textPart, k)
  {
    var cell := TreemapCell.ProcessDatum(xScale, yScale, datum);
    var cellPart := CellDatum(attribution, cellFill, xScale, yScale, datum);
    var textPart := TextDatum(TextInputs(props, cell, labelWidth), labelValue);
    CellDatumKeys(attribution, cellFill, xScale, yScale, datum);
    SpreadLookup(textPart, cellPart, k);
  }

  /** A cell key of a processed datum reads back the processed cell (scaled bounds, size, opacity). */
  lemma DatumProcessorCellKey(props: TextProps, attribution: Option<AttributionAccessors>, cellFill: Value,
                              labelValue: Value, labelWidth: real, xScale: Linear, yScale: Linear, datum: Node, k: string)
    requires labelWidth > 0.0 && props.fontMargin != 0.0
    requires k in TreemapCell.Animatable
    ensures Get(DatumProcessor(props, attribution, cellFill, labelValue, labelWidth, xScale, yScale, datum), k)
         == Get(TreemapCell.CellObj(TreemapCell.ProcessDatum(xScale, yScale, datum)), k)
  {
    CellKeysWin(props, attribution, cellFill, labelValue, labelWidth, xScale, yScale, datum, k);
    CellDatumGet(attribution, cellFill, xScale, yScale, datum, k);
  }

  /** A text key of a processed datum reads back the text processor's value, computed on the scaled cell size. */
  lemma DatumProcessorTextKey(props: TextProps, attribution: Option<AttributionAccessors>, cellFill: Value,
                              labelValue: Value, labelWidth: real, xScale: Linear, yScale: Linear, datum: Node, k: string)
    requires labelWidth > 0.0 && props.fontMargin != 0.0
    requires k in TreemapText.Animatable
    ensures var cell := TreemapCell.ProcessDatum(xScale, yScale, datum);
            Get(DatumProcessor(props, attribution, cellFill, labelValue, labelWidth, xScale, yScale, datum), k)
            == Get(TreemapText.ProcessDatum(TextInputs(props, cell, labelWidth)), k)
  {
    var cell := TreemapCell.ProcessDatum(xScale, yScale, datum);
    CellKeysWin(props, attribution, cellFill, labelValue, labelWidth, xScale, yScale, datum, k);
    TextKeysApart(k);
    SpreadLookup(TreemapText.ProcessDatum(TextInputs(props, cell, labelWidth)), [("label", labelValue)], k);
  }

  /** The text keys are neither cell keys nor the label. */
  lemma TextKeysApart(k: string)
    requires k in TreemapText.Animatable
    ensures k !in CellKeys && k != "label"
  {
  }

  /** The label is not one of the cell keys. */
  lemma LabelNotCellKey()
    ensures "label" !in CellKeys
  {
  }

  /** The label of a processed datum is the resolved label. */
  lemma DatumProcessorLabel(props: TextProps, attribution: Option<AttributionAccessors>, cellFill: Value,
                            labelValue: Value, labelWidth: real, xScale: Linear, yScale: Linear, datum: Node)
    requires labelWidth > 0.0 && props.fontMargin != 0.0
    ensures Get(DatumProcessor(props, attribution, cellFill, labelValue, labelWidth, xScale, yScale, datum), "label") == labelValue
  {
    var cell := TreemapCell.ProcessDatum(xScale, yScale, datum);
    CellKeysWin(props, attribution, cellFill, labelValue, labelWidth, xScale, yScale, datum, "label");
    LabelNotCellKey();
    SpreadLookup(TreemapText.ProcessDatum(TextInputs(props, cell, labelWidth)), [("label", labelValue)], "label");
  }

  // ---------------------------------------------------------------------------
  // `processData` and the animation processor
  // ---------------------------------------------------------------------------

  /** `{ data: datum, key, state }`: the node drawn, its React key and its processed state. */
  datatype ProcessedEntry = ProcessedEntry(data: nat, key: string, state: Obj)

  /** `treemapData.map(datum => ({ data: datum, key: `cell-${datum.id}`, state: datumProcessor(datum) }))`. */
  function ProcessData(t: Tree, treemapData: seq<nat>, processor: Node -> Obj): (r: seq<ProcessedEntry>)
    requires InRange(t, treemapData)
    ensures |r| == |treemapData|
    ensures forall i :: 0 <= i < |r| ==>
      r[i] == ProcessedEntry(treemapData[i], "cell-" + t.nodes[treemapData[i]].id, processor(t.nodes[treemapData[i]]))
    decreases |treemapData|
  {
    if treemapData == [] then []
    else
      var k := treemapData[0];
      [ProcessedEntry(k, "cell-" + t.nodes[k].id, processor(t.nodes[k]))] + ProcessData(t, treemapData[1..], processor)
  }

  /** No element occurs twice. */
  predicate NoDuplicates(s: seq<nat>) {
    forall x :: x in multiset(s) ==> multiset(s)[x] <= 1
  }

  lemma TwiceCounted<T>(s: seq<T>, i: nat, j: nat)
    requires i < j < |s| && s[i] == s[j]
    ensures multiset(s)[s[i]] >= 2
  {
    assert s == s[..j] + s[j..];
    assert s[..j][i] == s[i];
    assert s[j..][0] == s[i];
    assert s[i] in multiset(s[..j]) && s[i] in multiset(s[j..]);
  }

  /** With unique node ids and a traversal listing each node once, the drawn cells get pairwise distinct keys. */
  lemma ProcessedKeysDistinct(t: Tree, order: seq<nat>, showToDepth: int, rootNodeId: Id,
                              selection: Option<seq<Id>>, focused: Id, processor: Node -> Obj)
    requires Valid(t) && UniqueIds(t) && InRange(t, order) && NoDuplicates(order)
    ensures var d := LayoutData(t, order, showToDepth, rootNodeId, selection, focused);
            InRange(t, d)
            && var r := ProcessData(t, d, processor);
               forall i, j :: 0 <= i < j < |r| ==> r[i].key != r[j].key
  {
    var fs := Filtered(t, order, showToDepth, rootNodeId);
    var d := LayoutData(t, order, showToDepth, rootNodeId, selection, focused);
    assert multiset(d) == multiset(fs);
    forall i | 0 <= i < |d| ensures d[i] < |t.nodes| {
      assert d[i] in multiset(fs);
    }
    var r := ProcessData(t, d, processor);
    forall i, j | 0 <= i < j < |r| ensures r[i].key != r[j].key {
      if r[i].key == r[j].key {
        PrefixCancel("cell-", t.nodes[d[i]].id, t.nodes[d[j]].id);
        TwiceCounted(d, i, j);
        assert false;
      }
    }
  }

  /** The keys the animation processor animates: `[...TreemapCell.animatable, ...TreemapText.animatable]`. */
  const AnimatableKeys: seq<string> := TreemapCell.Animatable + TreemapText.Animatable

  /** `partial(animationProcessorFactory, animate, AnimatableKeys, datumProcessor)` applied to a phase and a datum. */
  function AnimationProcessor(animate: Animate.AnimateProp<Node>, processor: Node -> Obj,
                              phase: Animate.Phase, datum: Node, index: int): Animate.Transition
  {
    Animate.AnimationProcess(animate, AnimatableKeys, processor, phase, datum, index)
  }

  /** The resolved props and the label are not animated: under an object `animate`
      their entries carry the raw value. */
  lemma ResolvedPropsNotAnimated(animate: Animate.AnimateProp<Node>, phase: Animate.Phase,
                                 key: string, value: Value, datum: Node, index: int)
    requires animate.AnimateObject?
    requires key in ["attributionFill", "attributionValue", "cellFill", "label"]
    ensures Animate.Entry(animate, AnimatableKeys, phase, key, value, datum, index) == [(key, value)]
  {
    assert key !in AnimatableKeys;
    Animate.NonAnimatableEntry(animate, AnimatableKeys, phase, key, value, datum, index);
  }

  /** `OPACITY_ANIMATION`: fade in to full opacity after a 333 ms delay. */
  function OpacityIn(): Animate.PhaseMethod<Node> {
    (value: Value, datum: Node, index: int) => [("opacity", List([Num(1.0)])), ("timing", Object([("delay", Num(333.0))]))]
  }

  /** The `leave` method of `DEFAULT_OPACITY_ANIMATION`: fade out over 666 ms. */
  function OpacityOut(): Animate.PhaseMethod<Node> {
    (value: Value, datum: Node, index: int) => [("opacity", List([Num(0.0)])), ("timing", Object([("duration", Num(666.0))]))]
  }

  /** `DEFAULT_OPACITY_ANIMATION`, the default `animate` prop. */
  function DefaultOpacityAnimation(): Animate.AnimateProp<Node> {
    Animate.AnimateObject(Undefined, Undefined,
      map["opacity" := Animate.AttrObject(None, Some(OpacityIn()), Some(OpacityIn()), Some(OpacityOut()), Undefined, Undefined)])
  }

  /** Under the default animation a cell's opacity goes to 1 after 333 ms when it
      enters or updates and to 0 over 666 ms when it leaves; events stay undefined. */
  lemma DefaultOpacityTransitions(phase: Animate.Phase, value: Value, datum: Node, index: int)
    requires phase != Animate.Start
    ensures var e := Animate.Entry(DefaultOpacityAnimation(), AnimatableKeys, phase, "opacity", value, datum, index);
            Get(e, "events") == Undefined
            && (phase != Animate.Leave ==>
                  Get(e, "opacity") == List([Num(1.0)]) && Get(e, "timing") == Object([("delay", Num(333.0))]))
            && (phase == Animate.Leave ==>
                  Get(e, "opacity") == List([Num(0.0)]) && Get(e, "timing") == Object([("duration", Num(666.0))]))
  {
    var a := DefaultOpacityAnimation();
    assert "opacity" in AnimatableKeys;
    var u := Animate.UserResult(a.attrs, "opacity", phase, value, datum, index);
    assert phase != Animate.Leave ==> u == OpacityIn()(value, datum, index);
    assert phase == Animate.Leave ==> u == OpacityOut()(value, datum, index);
    LookupAt(u, 0);
    LookupAt(u, 1);
    Animate.AnimatableEntry(a, AnimatableKeys, phase, "opacity", value, datum, index, "opacity");
    Animate.AnimatableEntry(a, AnimatableKeys, phase, "opacity", value, datum, index, "timing");
    Animate.AnimatableEntry(a, AnimatableKeys, phase, "opacity", value, datum, index, "events");
  }
}
