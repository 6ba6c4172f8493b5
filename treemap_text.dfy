/**
 * `TreemapText`: how a cell's label is sized and oriented. The label's width
 * per unit of font size (measured on a canvas by `stringWidth`) is an input.
 */
module TreemapText {
  import opened Js

  /** `TreemapText.animatable`. */
  const Animatable: seq<string> := ["x_translate", "y_translate", "rotate", "fontSize"]

  /** The text sizing inputs; `labelWidth` is `stringWidth(label, fontSize) / fontSize`. */
  datatype TextSizingInputs = TextSizingInputs(
    fontMargin: real, fontPadding: real, minValue: real, maxValue: real,
    height: real, width: real, labelWidth: real)

  datatype SizingProperties = SizingProperties(x: real, y: real, width: real, shouldBeVertical: bool, minValue: real, maxValue: real)

  /** `Math.max(0, Math.floor(v))`. */
  function FloorAtZero(v: real): (r: real)
    ensures r >= 0.0 && r == r.Floor as real
    ensures r <= v || r == 0.0
    ensures v >= 0.0 ==> v - 1.0 < r
  {
    if v.Floor < 0 then 0.0 else v.Floor as real
  }

  /**
   * `sizingProperties`: the room left once `fontPadding` is subtracted once
   * from the cell's width and once from its height, rounded down to whole pixels and never negative; the label
   * turns vertical when the room is taller than it is wide and the label does
   * not fit across at just above the minimum font size.
   */
  function Sizing(p: TextSizingInputs): (s: SizingProperties)
    ensures s.x >= 0.0 && s.y >= 0.0
    ensures s.x == FloorAtZero(p.width - p.fontPadding) && s.y == FloorAtZero(p.height - p.fontPadding)
    ensures s.shouldBeVertical <==> s.y > s.x && p.labelWidth * (p.minValue + 1.0) > s.x
    ensures s.width == p.labelWidth && s.minValue == p.minValue && s.maxValue == p.maxValue
  {
    var x := FloorAtZero(p.width - p.fontPadding);
    var y := FloorAtZero(p.height - p.fontPadding);
    SizingProperties(x, y, p.labelWidth, y > x && p.labelWidth * (p.minValue + 1.0) > x, p.minValue, p.maxValue)
  }

  /** The largest size the room allows: the label runs along the longer side. */
  function Candidate(s: SizingProperties): real
    requires s.width > 0.0
  {
    if s.shouldBeVertical then (if s.x < s.y / s.width then s.x else s.y / s.width)
    else (if s.y < s.x / s.width then s.y else s.x / s.width)
  }

  /** The clamps of `fontSize`: too small to read becomes 0, too large becomes the maximum. */
  function Clamp(size: real, minValue: real, maxValue: real): real {
    var afterMin := if size < minValue then 0.0 else size;
    if afterMin >= maxValue then maxValue else afterMin
  }

  /** The font size `fontSize` computes: 0, `maxValue`, or a size from `minValue` up to `maxValue`. */
  function FontSizeOf(p: TextSizingInputs): (r: real)
    requires p.labelWidth > 0.0
    ensures r <= p.maxValue
    ensures r == 0.0 || r == p.maxValue || p.minValue <= r
  {
    var s := Sizing(p);
    Clamp(Candidate(s), s.minValue, s.maxValue)
  }

  /** `fontSize`: the straight-line chain of assignments to `size`. */
  method FontSize(p: TextSizingInputs) returns (size: real)
    requires p.labelWidth > 0.0
    ensures size == FontSizeOf(p)
    ensures size <= p.maxValue
  {
    var s := Sizing(p);
    if s.shouldBeVertical {
      size := if s.x < s.y / s.width then s.x else s.y / s.width;
    }
    if !s.shouldBeVertical {
      size := if s.y < s.x / s.width then s.y else s.x / s.width;
    }
    if size < s.minValue {
      size := 0.0;
    }
    if size >= s.maxValue {
      size := s.maxValue;
    }
  }

  /** The candidate size: the smaller of the cross extent and the length the label can run. */
  lemma CandidateIsTightest(p: TextSizingInputs)
    requires p.labelWidth > 0.0
    ensures var s := Sizing(p);
            if s.shouldBeVertical then Candidate(s) <= s.x && Candidate(s) * p.labelWidth <= s.y
                                     && (Candidate(s) == s.x || Candidate(s) * p.labelWidth == s.y)
            else Candidate(s) <= s.y && Candidate(s) * p.labelWidth <= s.x
                 && (Candidate(s) == s.y || Candidate(s) * p.labelWidth == s.x)
  {
    CandidateTight(Sizing(p));
  }

  /** `CandidateIsTightest` over the sizing properties alone. */
  lemma CandidateTight(s: SizingProperties)
    requires s.width > 0.0
    ensures if s.shouldBeVertical then Candidate(s) <= s.x && Candidate(s) * s.width <= s.y
                                     && (Candidate(s) == s.x || Candidate(s) * s.width == s.y)
            else Candidate(s) <= s.y && Candidate(s) * s.width <= s.x
                 && (Candidate(s) == s.y || Candidate(s) * s.width == s.x)
  {
    if s.shouldBeVertical {
      MinFits(s.x, s.y, s.width);
    } else {
      MinFits(s.y, s.x, s.width);
    }
  }

  /** The smaller of `across` and `along / w`: at most `across`, and at most `along` once multiplied by `w`. */
  lemma MinFits(across: real, along: real, w: real)
    requires w > 0.0
    ensures var m := if across < along / w then across else along / w;
            m <= across && m * w <= along && (m == across || m * w == along)
  {
    var q := along / w;
    assert q * w == along;
    if across < q { MulLess(across, q, w); }
  }

  /** A size at most `c` keeps a label of width `c * w <= room` within `room`. */
  lemma ScaledBelow(size: real, c: real, w: real, room: real)
    requires size <= c && w > 0.0 && c * w <= room
    ensures size * w <= room
  {
    if size < c { MulLess(size, c, w); }
  }

  lemma MulLess(a: real, b: real, w: real)
    requires a < b && w > 0.0
    ensures a * w < b * w
  {
    assert b * w - a * w == (b - a) * w;
  }

  /** How the clamps act on the candidate, and that the maximum is never exceeded. */
  lemma ClampCases(size: real, minValue: real, maxValue: real)
    ensures Clamp(size, minValue, maxValue) <= maxValue
    ensures size < minValue ==> Clamp(size, minValue, maxValue) == (if 0.0 >= maxValue then maxValue else 0.0)
    ensures minValue <= size && size >= maxValue ==> Clamp(size, minValue, maxValue) == maxValue
    ensures minValue <= size < maxValue ==> Clamp(size, minValue, maxValue) == size
  {
  }

  /** The label fits its room: the chosen size is never above the candidate, so
      the text stays within the padded cell along and across its direction. */
  lemma LabelFits(p: TextSizingInputs)
    requires p.labelWidth > 0.0
    ensures var s := Sizing(p);
            var size := FontSizeOf(p);
            if s.shouldBeVertical then size <= s.x && size * p.labelWidth <= s.y
            else size <= s.y && size * p.labelWidth <= s.x
  {
    ClampedFits(Sizing(p));
  }

  /** `LabelFits` over the sizing properties alone. */
  lemma ClampedFits(s: SizingProperties)
    requires s.width > 0.0 && s.x >= 0.0 && s.y >= 0.0
    ensures var size := Clamp(Candidate(s), s.minValue, s.maxValue);
            if s.shouldBeVertical then size <= s.x && size * s.width <= s.y
            else size <= s.y && size * s.width <= s.x
  {
    CandidateTight(s);
    CandidateNonNegative(s);
    if s.shouldBeVertical {
      ClampedBelow(Candidate(s), s.minValue, s.maxValue, s.width, s.x, s.y);
    } else {
      ClampedBelow(Candidate(s), s.minValue, s.maxValue, s.width, s.y, s.x);
    }
  }

  /** Clamping a size that fits across and along keeps it fitting. */
  lemma ClampedBelow(c: real, minValue: real, maxValue: real, w: real, across: real, along: real)
    requires c >= 0.0 && w > 0.0 && c <= across && c * w <= along
    ensures Clamp(c, minValue, maxValue) <= across && Clamp(c, minValue, maxValue) * w <= along
  {
    ClampNotAbove(c, minValue, maxValue);
    ScaledBelow(Clamp(c, minValue, maxValue), c, w, along);
  }

  /** The room is never negative, so neither is the candidate. */
  lemma CandidateNonNegative(s: SizingProperties)
    requires s.width > 0.0 && s.x >= 0.0 && s.y >= 0.0
    ensures Candidate(s) >= 0.0
  {
    assert s.y / s.width >= 0.0 && s.x / s.width >= 0.0;
  }

  /** The clamps never raise a non-negative candidate. */
  lemma ClampNotAbove(c: real, minValue: real, maxValue: real)
    requires c >= 0.0
    ensures Clamp(c, minValue, maxValue) <= c
  {
  }

  datatype TextOrientation = TextOrientation(rotate: real, xTranslate: real, yTranslate: real)

  /** `fontDirection`: horizontal text sits `fontMargin` in and one font size down;
      vertical text is turned 90 degrees. */
  function FontDirection(p: TextSizingInputs): (r: TextOrientation)
    requires p.labelWidth > 0.0 && p.fontMargin != 0.0
    ensures !Sizing(p).shouldBeVertical ==>
      r.rotate == 0.0 && r.xTranslate == p.fontMargin && r.yTranslate == FontSizeOf(p)
    ensures Sizing(p).shouldBeVertical ==>
      r.rotate == 90.0 && r.xTranslate == FontSizeOf(p) / p.fontMargin && r.yTranslate == p.fontMargin
  {
    var labelSize := FontSizeOf(p);
    var horizontal := TextOrientation(0.0, p.fontMargin, labelSize);
    var vertical := TextOrientation(90.0, labelSize / p.fontMargin, p.fontMargin);
    if Sizing(p).shouldBeVertical then vertical else horizontal
  }

  /** `processDatum`: `{...fontDirection(props), fontSize: fontSize(props)}` as a plain object. */
  function ProcessDatum(p: TextSizingInputs): (r: Obj)
    requires p.labelWidth > 0.0 && p.fontMargin != 0.0
    ensures Keys(r) == Animatable
    ensures Get(r, "x_translate") == Num(FontDirection(p).xTranslate)
    ensures Get(r, "y_translate") == Num(FontDirection(p).yTranslate)
    ensures Get(r, "rotate") == Num(FontDirection(p).rotate)
    ensures Get(r, "fontSize") == Num(FontSizeOf(p))
  {
    var d := FontDirection(p);
    TextObj(Num(d.xTranslate), Num(d.yTranslate), Num(d.rotate), Num(FontSizeOf(p)))
  }

  /** The orientation object spread first, then `fontSize`: the four animatable keys, each holding its value. */
  function TextObj(xTranslate: Value, yTranslate: Value, rotate: Value, fontSize: Value): (r: Obj)
    ensures Keys(r) == Animatable
    ensures Get(r, "x_translate") == xTranslate && Get(r, "y_translate") == yTranslate
    ensures Get(r, "rotate") == rotate && Get(r, "fontSize") == fontSize
  {
    var direction := [("x_translate", xTranslate), ("y_translate", yTranslate), ("rotate", rotate)];
    ThreeThenOne("x_translate", "y_translate", "rotate", "fontSize", xTranslate, yTranslate, rotate, fontSize);
    Set(direction, "fontSize", fontSize)
  }

  /** A three-key object extended by a fourth, new key: the keys in order, each holding its value. */
  lemma ThreeThenOne(k1: string, k2: string, k3: string, k4: string, v1: Value, v2: Value, v3: Value, v4: Value)
    requires k1 != k2 && k1 != k3 && k2 != k3 && k4 != k1 && k4 != k2 && k4 != k3
    ensures var r := Set([(k1, v1), (k2, v2), (k3, v3)], k4, v4);
            Keys(r) == [k1, k2, k3, k4] && Lookup(r, k1) == Some(v1) && Lookup(r, k2) == Some(v2) &&
            Lookup(r, k3) == Some(v3) && Lookup(r, k4) == Some(v4)
  {
    var d := [(k1, v1), (k2, v2), (k3, v3)];
    assert Keys(d) == [k1, k2, k3];
    SetNew(d, k4, v4);
    var r := d + [(k4, v4)];
    assert Keys(r) == [k1, k2, k3, k4];
    LookupAt(r, 0);
    LookupAt(r, 1);
    LookupAt(r, 2);
    LookupAt(r, 3);
  }
}
