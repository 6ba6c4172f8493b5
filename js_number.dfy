/**
 * JavaScript's conversion of a value to a number, as the arithmetic operators
 * apply it (`cellWidth * value`). `None` stands for `NaN`.
 */
module JsNumber {
  import opened Js

  predicate IsDigit(c: char) {
    '0' <= c <= '9'
  }

  predicate AllDigits(s: string) {
    forall i :: 0 <= i < |s| ==> IsDigit(s[i])
  }

  /** The white space and line terminators `Number` strips from both ends:
      tab, vertical tab, form feed, space, no-break space, the byte order mark,
      the other space separators of Unicode, and the four line terminators. */
  predicate IsSpace(c: char) {
    c == '\t' || c == '\U{000B}' || c == '\U{000C}' || c == ' ' || c == '\U{00A0}' || c == '\U{FEFF}'
    || c == '\U{1680}' || ('\U{2000}' <= c <= '\U{200A}') || c == '\U{202F}' || c == '\U{205F}' || c == '\U{3000}'
    || c == '\n' || c == '\r' || c == '\U{2028}' || c == '\U{2029}'
  }

  function TrimStart(s: string): string
    decreases |s|
  {
    if s != [] && IsSpace(s[0]) then TrimStart(s[1..]) else s
  }

  function TrimEnd(s: string): string
    decreases |s|
  {
    if s != [] && IsSpace(s[|s| - 1]) then TrimEnd(s[..|s| - 1]) else s
  }

  function Trim(s: string): string {
    TrimEnd(TrimStart(s))
  }

  /** The value of a string of decimal digits; the empty string counts 0. */
  function DigitsValue(s: string): nat
    requires AllDigits(s)
    decreases |s|
  {
    if s == [] then 0
    else DigitsValue(s[..|s| - 1]) * 10 + (s[|s| - 1] as int - '0' as int)
  }

  function Pow10(n: nat): (r: nat)
    ensures r >= 1
  {
    if n == 0 then 1 else 10 * Pow10(n - 1)
  }

  /** The position of the first `.`, or the length when there is none. */
  function DotIndex(s: string): (i: nat)
    ensures i <= |s|
    decreases |s|
  {
    if s == [] then 0
    else if s[0] == '.' then 0
    else 1 + DotIndex(s[1..])
  }

  /** `digits`, `digits.`, `.digits` or `digits.digits`, with at least one digit. */
  function UnsignedDecimal(s: string): Option<real> {
    var i := DotIndex(s);
    if i == |s| then
      if s != [] && AllDigits(s) then Some(DigitsValue(s) as real) else None
    else
      var whole := s[..i];
      var fraction := s[i + 1..];
      if AllDigits(whole) && AllDigits(fraction) && (whole != [] || fraction != []) then
        Some(DigitsValue(whole) as real + DigitsValue(fraction) as real / Pow10(|fraction|) as real)
      else None
  }

  /** A decimal literal with an optional sign. */
  function SignedDecimal(s: string): Option<real> {
    if s != [] && s[0] == '-' then
      match UnsignedDecimal(s[1..])
      case Some(r) => Some(-r)
      case None => None
    else if s != [] && s[0] == '+' then UnsignedDecimal(s[1..])
    else UnsignedDecimal(s)
  }

  /** `Number(s)`: surrounding white space is ignored, and a blank string is 0. */
  function StringToNumber(s: string): Option<real> {
    var t := Trim(s);
    if t == [] then Some(0.0) else SignedDecimal(t)
  }

  /**
   * `Number(v)`. An array converts through its string form: `[]` is 0, a
   * one-element array converts as its element would inside `join` (where
   * `undefined` and `null` print as the empty string), and longer arrays
   * contain a comma, so they are NaN. Objects and functions are NaN.
   */
  function ToNumber(v: Value): Option<real>
    decreases v
  {
    match v
    case Undefined => None
    case Null => Some(0.0)
    case Bool(b) => Some(if b then 1.0 else 0.0)
    case Num(r) => Some(r)
    case Str(s) => StringToNumber(s)
    case Ref(_) => None
    case Object(_) => None
    case List(items) =>
      if items == [] then Some(0.0)
      else if |items| > 1 then None
      else
        var x := items[0];
        assert x in items;
        match x
        case Undefined => Some(0.0)
        case Null => Some(0.0)
        case Bool(_) => None
        case _ => ToNumber(x)
  }

  /** The primitives convert as the language defines: `null` is 0, booleans are 1 and 0, numbers are themselves, `undefined` is NaN. */
  lemma PrimitiveConversions(r: real)
    ensures ToNumber(Null) == Some(0.0) && ToNumber(Undefined) == None
    ensures ToNumber(Bool(true)) == Some(1.0) && ToNumber(Bool(false)) == Some(0.0)
    ensures ToNumber(Num(r)) == Some(r)
    ensures ToNumber(Str("")) == Some(0.0) && ToNumber(List([])) == Some(0.0)
  {
  }

  /** A number converts to itself. */
  lemma NumberIsItself(v: Value)
    requires v.Num?
    ensures ToNumber(v) == Some(v.r)
  {
  }

  /** The digits of a decimal numeral read back its value. */
  lemma {:induction false} DigitsOfNat(n: nat)
    ensures AllDigits(NatToString(n)) && DigitsValue(NatToString(n)) == n
    decreases n
  {
    var s := NatToString(n);
    if n < 10 {
      DigitValue(n);
    } else {
      DigitsOfNat(n / 10);
      DigitValue(n % 10);
      assert s[..|s| - 1] == NatToString(n / 10);
    }
  }

  lemma DigitValue(d: nat)
    requires d < 10
    ensures Digit(d) as int - '0' as int == d
  {
    if d == 0 { } else if d == 1 { } else if d == 2 { } else if d == 3 { } else if d == 4 { }
    else if d == 5 { } else if d == 6 { } else if d == 7 { } else if d == 8 { } else { }
  }

  /** A numeral has no dot, no sign and no white space. */
  lemma NumeralShape(s: string)
    requires |s| >= 1 && AllDigits(s)
    ensures DotIndex(s) == |s| && Trim(s) == s && s[0] != '-' && s[0] != '+'
  {
    assert TrimStart(s) == s by { assert IsDigit(s[0]); }
    assert TrimEnd(s) == s by { assert IsDigit(s[|s| - 1]); }
    NoDot(s);
  }

  lemma {:induction false} NoDot(s: string)
    requires AllDigits(s)
    ensures DotIndex(s) == |s|
    decreases |s|
  {
    if s != [] {
      assert IsDigit(s[0]);
      assert AllDigits(s[1..]) by {
        forall i | 0 <= i < |s[1..]| ensures IsDigit(s[1..][i]) { assert s[1..][i] == s[i + 1]; }
      }
      NoDot(s[1..]);
    }
  }

  /** A string of digits converts to the number it spells. */
  lemma NumeralDecimal(s: string)
    requires |s| >= 1 && AllDigits(s)
    ensures StringToNumber(s) == Some(DigitsValue(s) as real)
  {
    NumeralShape(s);
  }

  /** `Number(String(n))` gives back the natural number `n`. */
  lemma NumeralRoundTrip(n: nat)
    ensures ToNumber(Str(NatToString(n))) == Some(n as real)
  {
    DigitsOfNat(n);
    NumeralDecimal(NatToString(n));
  }

  /** The string `"0.5"` converts to one half. */
  lemma HalfString()
    ensures ToNumber(Str("0.5")) == Some(0.5)
  {
  }

  /** Vertical tab and form feed are white space: `Number("\v1")` and `Number("\f1")` are 1. */
  lemma ControlSpaces()
    ensures ToNumber(Str("\U{000B}1")) == Some(1.0)
    ensures ToNumber(Str("\U{000C}1")) == Some(1.0)
  {
  }

  /** A unit such as `px` makes the string NaN: `Number("2px")` is NaN. */
  lemma UnitSuffixIsNaN()
    ensures ToNumber(Str("2px")) == None
  {
  }
}
