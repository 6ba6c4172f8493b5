/**
 * JavaScript values as the treemap code handles them: identifiers that may be
 * numbers, strings or `undefined`, and plain objects whose keys keep their
 * insertion order, so that object spreads (`{...a, ...b}`) can be modelled
 * faithfully ("later spread wins").
 */
module Js {

  datatype Option<+T> = None | Some(value: T)

  /** A node identifier as a prop carries it (`rootNodeId`, `focused`, `selection`,
      the id field of a raw datum): a number, a string, or `undefined`. */
  datatype Id = IdUndefined | IdNum(n: int) | IdStr(s: string)

  /** JavaScript truthiness of an identifier: `undefined`, `0` and `''` are falsy. */
  predicate Truthy(id: Id) {
    match id
    case IdUndefined => false
    case IdNum(n) => n != 0
    case IdStr(s) => s != ""
  }

  function Digit(d: nat): char
    requires d < 10
  {
    "0123456789"[d]
  }

  /** Decimal notation of a natural number. */
  function NatToString(n: nat): (s: string)
    ensures |s| >= 1
    ensures forall i :: 0 <= i < |s| ==> '0' <= s[i] <= '9'
    decreases n
  {
    if n < 10 then [Digit(n)] else NatToString(n / 10) + [Digit(n % 10)]
  }

  /** `String(id)`. */
  function ToJsString(id: Id): string {
    match id
    case IdUndefined => "undefined"
    case IdNum(n) => if n < 0 then "-" + NatToString(-n) else NatToString(n)
    case IdStr(s) => s
  }

  /** A JavaScript value. `Ref` stands for an object or function known only by
      its identity (lodash `eq` compares those by reference). */
  datatype Value =
    | Undefined
    | Null
    | Bool(b: bool)
    | Num(r: real)
    | Str(s: string)
    | Ref(address: nat)
    | List(items: seq<Value>)
    | Object(fields: seq<(string, Value)>)

  /** JavaScript truthiness: `undefined`, `null`, `false`, `0` and `''` are falsy; arrays, objects and functions are truthy. */
  predicate TruthyValue(v: Value) {
    match v
    case Undefined => false
    case Null => false
    case Bool(b) => b
    case Num(r) => r != 0.0
    case Str(s) => s != ""
    case _ => true
  }

  /** Property access `v[k]` on any value: only plain objects carry properties here. */
  function Member(v: Value, k: string): Value {
    if v.Object? then Get(v.fields, k) else Undefined
  }

  /** A plain object as its entries in key order. */
  type Obj = seq<(string, Value)>

  function Keys(o: Obj): (ks: seq<string>)
    ensures |ks| == |o|
    ensures forall i :: 0 <= i < |o| ==> ks[i] == o[i].0
  {
    if o == [] then [] else [o[0].0] + Keys(o[1..])
  }

  /** No key occurs twice, as in every JavaScript object. */
  predicate UniqueKeys(o: Obj) {
    o == [] || (o[0].0 !in Keys(o[1..]) && UniqueKeys(o[1..]))
  }

  /** Pairwise distinct keys make a well-formed object. */
  lemma {:induction false} DistinctKeysUnique(o: Obj)
    requires forall i, j :: 0 <= i < j < |o| ==> o[i].0 != o[j].0
    ensures UniqueKeys(o)
    decreases |o|
  {
    if o != [] {
      forall i, j | 0 <= i < j < |o[1..]| ensures o[1..][i].0 != o[1..][j].0 {
        assert o[1..][i] == o[i + 1] && o[1..][j] == o[j + 1];
      }
      DistinctKeysUnique(o[1..]);
      forall i | 0 <= i < |o[1..]| ensures Keys(o[1..])[i] != o[0].0 {
        assert o[1..][i] == o[i + 1];
      }
    }
  }

  lemma KeysAppend(a: Obj, b: Obj)
    ensures Keys(a + b) == Keys(a) + Keys(b)
  {
    assert forall i :: 0 <= i < |a + b| ==> Keys(a + b)[i] == (Keys(a) + Keys(b))[i];
  }

  /** The value stored under `k`; when a key appears twice the later entry wins,
      as in an object literal. */
  function Lookup(o: Obj, k: string): (r: Option<Value>)
    ensures r.Some? <==> k in Keys(o)
  {
    if o == [] then None
    else
      var rest := Lookup(o[1..], k);
      if rest.Some? then rest
      else if o[0].0 == k then Some(o[0].1)
      else None
  }

  /** The entry at `i` is what a lookup of its key finds when no later entry repeats the key. */
  lemma {:induction false} LookupAt(o: Obj, i: nat)
    requires i < |o|
    requires forall j :: i < j < |o| ==> o[j].0 != o[i].0
    ensures Lookup(o, o[i].0) == Some(o[i].1)
  {
    var k := o[i].0;
    if i == 0 {
      assert k !in Keys(o[1..]) by {
        forall j | 0 <= j < |o[1..]| ensures Keys(o[1..])[j] != k {
          assert o[1..][j] == o[j + 1];
        }
      }
    } else {
      assert o[1..][i - 1] == o[i];
      forall j | i - 1 < j < |o[1..]| ensures o[1..][j].0 != o[1..][i - 1].0 {
        assert o[1..][j] == o[j + 1];
      }
      LookupAt(o[1..], i - 1);
    }
  }

  /** Property access `o[k]`: `undefined` when the key is absent. */
  function Get(o: Obj, k: string): Value {
    match Lookup(o, k)
    case Some(v) => v
    case None => Undefined
  }

  /** `{...o, [k]: v}`: an existing key keeps its position, a new key goes last. */
  function Set(o: Obj, k: string, v: Value): Obj {
    if o == [] then [(k, v)]
    else if o[0].0 == k then
      if k in Keys(o[1..]) then [(k, v)] + Set(o[1..], k, v) else [(k, v)] + o[1..]
    else [o[0]] + Set(o[1..], k, v)
  }

  /** What `Set` reads back, and where it puts the key. */
  lemma {:induction false} SetFacts(o: Obj, k: string, v: Value)
    ensures Lookup(Set(o, k, v), k) == Some(v)
    ensures forall j :: j != k ==> Lookup(Set(o, k, v), j) == Lookup(o, j)
    ensures k in Keys(o) ==> Keys(Set(o, k, v)) == Keys(o)
    ensures k !in Keys(o) ==> Set(o, k, v) == o + [(k, v)]
  {
    if o != [] {
      var r := Set(o, k, v);
      assert Keys(o) == [o[0].0] + Keys(o[1..]);
      if o[0].0 == k {
        if k in Keys(o[1..]) {
          SetFacts(o[1..], k, v);
          assert r[1..] == Set(o[1..], k, v);
          assert Keys(r) == [k] + Keys(r[1..]);
        } else {
          assert r[1..] == o[1..];
          assert Keys(r) == [k] + Keys(r[1..]);
        }
      } else {
        SetFacts(o[1..], k, v);
        assert r[1..] == Set(o[1..], k, v);
        assert Keys(r) == [o[0].0] + Keys(r[1..]);
      }
    }
  }

  lemma SetNew(o: Obj, k: string, v: Value)
    requires k !in Keys(o)
    ensures Set(o, k, v) == o + [(k, v)]
  {
    SetFacts(o, k, v);
  }

  /** `{...a, ...b}`: the entries of `b` are written over `a` in order. */
  function Spread(a: Obj, b: Obj): Obj
    decreases |b|
  {
    if b == [] then a else Spread(Set(a, b[0].0, b[0].1), b[1..])
  }

  /** What a spread reads back: `b`'s value wherever `b` has the key, `a`'s otherwise. */
  lemma {:induction false} SpreadLookup(a: Obj, b: Obj, k: string)
    ensures Lookup(Spread(a, b), k) == if Lookup(b, k).Some? then Lookup(b, k) else Lookup(a, k)
    decreases |b|
  {
    if b != [] {
      SetFacts(a, b[0].0, b[0].1);
      SpreadLookup(Set(a, b[0].0, b[0].1), b[1..], k);
    }
  }

  /** Spreading an object whose keys are all new appends its entries. */
  lemma {:induction false} SpreadDisjoint(a: Obj, b: Obj)
    requires UniqueKeys(b)
    requires forall i :: 0 <= i < |b| ==> b[i].0 !in Keys(a)
    ensures Spread(a, b) == a + b
    decreases |b|
  {
    if b != [] {
      var a' := a + [b[0]];
      SetNew(a, b[0].0, b[0].1);
      SpreadDisjointTail(a, b);
      SpreadDisjoint(a', b[1..]);
      assert Spread(a, b) == a' + b[1..];
      AppendHead(a, b);
    }
  }

  /** Moving the head of `b` to the end of `a` leaves the concatenation unchanged. */
  lemma AppendHead(a: Obj, b: Obj)
    requires b != []
    ensures (a + [b[0]]) + b[1..] == a + b
  {
    assert b == [b[0]] + b[1..];
  }

  /** After the first entry of `b` is appended to `a`, the rest of `b` is still new and still unique. */
  lemma SpreadDisjointTail(a: Obj, b: Obj)
    requires b != [] && UniqueKeys(b)
    requires forall i :: 0 <= i < |b| ==> b[i].0 !in Keys(a)
    ensures UniqueKeys(b[1..])
    ensures forall i :: 0 <= i < |b[1..]| ==> b[1..][i].0 !in Keys(a + [b[0]])
  {
    KeysAppend(a, [b[0]]);
    forall i | 0 <= i < |b[1..]| ensures b[1..][i].0 !in Keys(a + [b[0]]) {
      assert b[1..][i] == b[i + 1];
      assert b[1..][i].0 == Keys(b[1..])[i];
    }
  }

  /** Prefix of a string, the way a template literal `prefix${s}` concatenates. */
  lemma PrefixCancel(p: string, s: string, s': string)
    requires p + s == p + s'
    ensures s == s'
  {
    assert s == (p + s)[|p|..];
    assert s' == (p + s')[|p|..];
  }
}
