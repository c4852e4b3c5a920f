/**
 * The CSS length helpers of `src/helper.js`: `splitMeasure`,
 * `normalizeMeasure`, `convertCssToDocxMeasurement` and `parseCssMargin`.
 * Numbers are exact reals; `NaN` is written out where the code can produce it.
 */
module Measure {
  import opened Js

  /** The units the measure pattern `(px|pt|cm|in|mm|pc|pi)` accepts. */
  datatype Unit = Px | Pt | Cm | In | Mm | Pc | Pi

  function UnitName(u: Unit): (r: string)
    ensures |r| == 2
  {
    match u
    case Px => "px"
    case Pt => "pt"
    case Cm => "cm"
    case In => "in"
    case Mm => "mm"
    case Pc => "pc"
    case Pi => "pi"
  }

  /** The unit a two-letter suffix names, if it is one of the seven. */
  function UnitOf(s: string): (r: Option<Unit>)
    ensures r.Some? ==> UnitName(r.value) == s
  {
    match s
    case "px" => Some(Px)
    case "pt" => Some(Pt)
    case "cm" => Some(Cm)
    case "in" => Some(In)
    case "mm" => Some(Mm)
    case "pc" => Some(Pc)
    case "pi" => Some(Pi)
    case _ => None
  }

  lemma UnitOfName(u: Unit)
    ensures UnitOf(UnitName(u)) == Some(u)
  {
  }

  /** The value of a numeral `\d+(\.\d+)?`, or `None` for any other text. */
  function NumeralValue(t: string): Option<real> {
    var parts := Split(t, '.');
    if |parts| == 1 && parts[0] != [] && AllDigits(parts[0]) then
      Some(DigitsValue(parts[0]) as real)
    else if |parts| == 2 && parts[0] != [] && parts[1] != [] && AllDigits(parts[0]) && AllDigits(parts[1]) then
      Some(DecimalValue(parts[0], parts[1]))
    else None
  }

  /**
   * `splitMeasure(value)`: the number and unit of a text matching
   * `^(\d+(\.\d+)?)(px|pt|cm|in|mm|pc|pi)$`; `None` stands for the empty
   * array returned for every other value, `undefined` included.
   */
  function SplitMeasure(value: Option<string>): (r: Option<(real, Unit)>)
    ensures r.Some? ==> r.value.0 >= 0.0
    ensures r.Some? ==> value.Some? && EndsWith(value.value, UnitName(r.value.1))
  {
    match value
    case None => None
    case Some(s) =>
      if |s| < 2 then None
      else
        match (NumeralValue(s[..|s| - 2]), UnitOf(s[|s| - 2..]))
        case (Some(n), Some(u)) => Some((n, u))
        case _ => None
  }

  /** Whole numbers followed by a unit are read back exactly. */
  lemma SplitMeasureOfWhole(n: nat, u: Unit)
    ensures SplitMeasure(Some(DecimalString(n) + UnitName(u))) == Some((n as real, u))
  {
    var d := DecimalString(n);
    var s := d + UnitName(u);
    assert s[..|s| - 2] == d && s[|s| - 2..] == UnitName(u);
    NonDigitNotIn('.', d);
    SplitNoSeparator(d, '.');
    DecimalStringValue(n);
    UnitOfName(u);
  }

  /** A numeral `a.b` followed by a unit is read back as the decimal `a.b`. */
  lemma SplitMeasureOfFraction(a: string, b: string, u: Unit)
    requires a != [] && b != [] && AllDigits(a) && AllDigits(b)
    ensures SplitMeasure(Some(a + "." + b + UnitName(u))) == Some((DecimalValue(a, b), u))
  {
    var s := a + "." + b + UnitName(u);
    assert s[..|s| - 2] == a + ['.'] + b && s[|s| - 2..] == UnitName(u);
    NonDigitNotIn('.', a);
    NonDigitNotIn('.', b);
    SplitNoSeparator(a, '.');
    SplitSeparatorThen(a, '.', b);
    UnitOfName(u);
  }

  /** Text that does not end in a unit is never a measure. */
  lemma SplitMeasureNeedsUnit(s: string)
    requires |s| < 2 || UnitOf(s[|s| - 2..]).None?
    ensures SplitMeasure(Some(s)) == None
  {
  }

  /**
   * A font size, indent, width or height as `normalizeMeasure` leaves it:
   * `NoLength` is its empty-string result, `Len` the number and unit it
   * prints.
   */
  datatype Length = NoLength | Len(amount: real, unit: Unit)

  /**
   * `normalizeMeasure(value)`: no length for a non-measure or a zero amount,
   * pixels converted to points at 3/4, every other unit kept.
   */
  function NormalizeMeasure(value: Option<string>): (r: Length)
    ensures r.Len? ==> r.amount > 0.0 && r.unit != Px
    ensures r == NoLength <==> SplitMeasure(value).None? || SplitMeasure(value).value.0 == 0.0
    ensures r.Len? ==>
      (var (n, u) := SplitMeasure(value).value;
       if u == Px then r == Len(n * 3.0 / 4.0, Pt) else r == Len(n, u))
  {
    match SplitMeasure(value)
    case None => NoLength
    case Some((n, u)) =>
      if n == 0.0 then NoLength
      else if u == Px then Len(n * 0.75, Pt)
      else Len(n, u)
  }

  /** Whole pixels become three quarters as many points. */
  lemma NormalizeWholePixels(n: nat)
    requires n > 0
    ensures NormalizeMeasure(Some(DecimalString(n) + "px")) == Len(n as real * 3.0 / 4.0, Pt)
  {
    SplitMeasureOfWhole(n, Px);
  }

  /** A whole amount in any other unit is kept, unit and all; zero is no length. */
  lemma NormalizeWholeOther(n: nat, u: Unit)
    requires u != Px
    ensures NormalizeMeasure(Some(DecimalString(n) + UnitName(u))) == if n == 0 then NoLength else Len(n as real, u)
  {
    SplitMeasureOfWhole(n, u);
  }

  // ---------------------------------------------------------------------
  // convertCssToDocxMeasurement
  // ---------------------------------------------------------------------

  /** A table width as docx takes it: `nil`, a percentage or twentieths of a point. */
  datatype DocxMeasure = Nil | Pct(percent: real) | Dxa(twips: int)

  /** `v.endsWith('%')` */
  predicate EndsInPercent(v: string) {
    |v| >= 1 && v[|v| - 1] == '%'
  }

  /** `v.endsWith(ab)` for the two-letter unit `ab`. */
  predicate EndsIn(v: string, a: char, b: char) {
    |v| >= 2 && v[|v| - 2] == a && v[|v| - 1] == b
  }

  /**
   * `convertCssToDocxMeasurement(cssValue)`; `None` is any value that is not
   * a string. Text ending in `%`, `px` or `pt` is read with `parseFloat`.
   */
  function ConvertCssToDocxMeasurement(cssValue: Option<string>): (r: DocxMeasure)
    ensures cssValue.None? ==> r == Nil
    ensures r.Pct? ==> EndsInPercent(cssValue.value) && ParseFloat(cssValue.value) == Some(r.percent)
    ensures r.Dxa? ==>
      (var v := cssValue.value;
       ParseFloat(v).Some? &&
       ((EndsIn(v, 'p', 'x') && r.twips == Round(ParseFloat(v).value * 15.0))
        || (EndsIn(v, 'p', 't') && r.twips == Round(ParseFloat(v).value * 20.0))))
    ensures cssValue.Some? && cssValue.value in {"auto", "0", "none"} ==> r == Nil
    ensures cssValue.Some? ==>
      (!EndsInPercent(cssValue.value) && !EndsIn(cssValue.value, 'p', 'x') && !EndsIn(cssValue.value, 'p', 't') ==> r == Nil)
  {
    match cssValue
    case None => Nil
    case Some(v) =>
      if EndsInPercent(v) then
        match ParseFloat(v)
        case None => Nil
        case Some(p) => Pct(p)
      else if v == "auto" || v == "0" || v == "none" then Nil
      else if EndsIn(v, 'p', 'x') then
        match ParseFloat(v)
        case None => Nil
        case Some(p) => Dxa(Round(p * 15.0))
      else if EndsIn(v, 'p', 't') then
        match ParseFloat(v)
        case None => Nil
        case Some(p) => Dxa(Round(p * 20.0))
      else Nil
  }

  /** A whole percentage is kept as it is. */
  lemma ConvertWholePercent(n: nat)
    ensures ConvertCssToDocxMeasurement(Some(DecimalString(n) + "%")) == Pct(n as real)
  {
    var v := DecimalString(n) + "%";
    ParseFloatOfDecimal(n, "%");
    assert v[|v| - 1] == '%';
  }

  /** Whole pixels become 15 twips each. */
  lemma ConvertWholePixels(n: nat)
    ensures ConvertCssToDocxMeasurement(Some(DecimalString(n) + "px")) == Dxa(15 * n)
  {
    WholeText(n, 'x');
    ConvertOfWholePixels(DecimalString(n) + "px", n);
  }

  /** Whole points become 20 twips each. */
  lemma ConvertWholePoints(n: nat)
    ensures ConvertCssToDocxMeasurement(Some(DecimalString(n) + "pt")) == Dxa(20 * n)
  {
    WholeText(n, 't');
    ConvertOfWholePoints(DecimalString(n) + "pt", n);
  }

  /**
   * Any text ending in `%` is a percentage, before the keywords and the
   * units are looked at: the number `parseFloat` reads is kept as it is,
   * and text it reads as `NaN` gives `nil`.
   */
  lemma ConvertOfPercent(v: string)
    requires EndsInPercent(v)
    ensures ParseFloat(v).Some? ==> ConvertCssToDocxMeasurement(Some(v)) == Pct(ParseFloat(v).value)
    ensures ParseFloat(v).None? ==> ConvertCssToDocxMeasurement(Some(v)) == Nil
  {
  }

  /** A number of pixels is rounded to 15 twips each. */
  lemma ConvertOfPixels(v: string, x: real)
    requires EndsIn(v, 'p', 'x') && ParseFloat(v) == Some(x)
    ensures ConvertCssToDocxMeasurement(Some(v)) == Dxa(Round(x * 15.0))
  {
    NotAKeyword(v);
  }

  /** A number of points is rounded to 20 twips each. */
  lemma ConvertOfPoints(v: string, x: real)
    requires EndsIn(v, 'p', 't') && ParseFloat(v) == Some(x)
    ensures ConvertCssToDocxMeasurement(Some(v)) == Dxa(Round(x * 20.0))
  {
    NotAKeyword(v);
  }

  /** Any text that reads as a whole number of pixels converts to 15 twips apiece. */
  lemma ConvertOfWholePixels(v: string, n: nat)
    requires EndsIn(v, 'p', 'x') && ParseFloat(v) == Some(n as real)
    ensures ConvertCssToDocxMeasurement(Some(v)) == Dxa(15 * n)
  {
    ConvertOfPixels(v, n as real);
    WholeTwips(n);
  }

  /** Any text that reads as a whole number of points converts to 20 twips apiece. */
  lemma ConvertOfWholePoints(v: string, n: nat)
    requires EndsIn(v, 'p', 't') && ParseFloat(v) == Some(n as real)
    ensures ConvertCssToDocxMeasurement(Some(v)) == Dxa(20 * n)
  {
    ConvertOfPoints(v, n as real);
    WholeTwips(n);
  }

  /** A whole number written with the unit `px` or `pt` ends in that unit and reads back as the number. */
  lemma WholeText(n: nat, b: char)
    requires b == 'x' || b == 't'
    ensures var v := DecimalString(n) + ['p', b];
      EndsIn(v, 'p', b) && ParseFloat(v) == Some(n as real)
      && v == DecimalString(n) + (if b == 'x' then "px" else "pt")
  {
    ParseFloatOfDecimal(n, ['p', b]);
  }

  /** A whole number of pixels or points is a whole number of twips: nothing to round. */
  lemma WholeTwips(n: nat)
    ensures Round(n as real * 15.0) == 15 * n && Round(n as real * 20.0) == 20 * n
  {
    assert (n as real) * 15.0 == (15 * n) as real;
    RoundOfInt(15 * n);
    assert (n as real) * 20.0 == (20 * n) as real;
    RoundOfInt(20 * n);
  }

  /** Text ending in a unit is none of the keywords `auto`, `0` and `none`, nor a percentage. */
  lemma NotAKeyword(v: string)
    requires EndsIn(v, 'p', 'x') || EndsIn(v, 'p', 't')
    ensures v != "auto" && v != "0" && v != "none" && !EndsInPercent(v)
  {
    assert "auto"[3] == 'o' && "none"[3] == 'e';
  }

  // ---------------------------------------------------------------------
  // parseCssMargin
  // ---------------------------------------------------------------------

  /** A converted margin component: a whole number of twips, or `NaN`. */
  datatype TwipValue = Twips(twips: int) | NotANumber

  /** `toTwips(value)`: pixels times 15, points times 20, rounded; anything else 0. */
  function ToTwips(value: string): (r: TwipValue)
    ensures !EndsIn(value, 'p', 'x') && !EndsIn(value, 'p', 't') ==> r == Twips(0)
    ensures r == NotANumber <==> (EndsIn(value, 'p', 'x') || EndsIn(value, 'p', 't')) && ParseFloat(value).None?
  {
    if EndsIn(value, 'p', 'x') then
      match ParseFloat(value)
      case None => NotANumber
      case Some(x) => Twips(Round(x * 15.0))
    else if EndsIn(value, 'p', 't') then
      match ParseFloat(value)
      case None => NotANumber
      case Some(x) => Twips(Round(x * 20.0))
    else Twips(0)
  }

  datatype Margin = Margin(top: TwipValue, right: TwipValue, bottom: TwipValue, left: TwipValue)

  datatype Side = Top | Right | Bottom | Left

  function SideOf(m: Margin, side: Side): TwipValue {
    match side
    case Top => m.top
    case Right => m.right
    case Bottom => m.bottom
    case Left => m.left
  }

  /** The space-separated components of a `margin` value, each trimmed. */
  function MarginParts(cssMargin: string): (parts: seq<string>)
    ensures |parts| >= 1
  {
    var pieces := Split(cssMargin, ' ');
    seq(|pieces|, i requires 0 <= i < |pieces| => Trim(pieces[i]))
  }

  /** `parseCssMargin(cssMargin)`: the four sides from one to four components. */
  function ParseCssMargin(cssMargin: string): Margin {
    var p := MarginParts(cssMargin);
    if |p| == 1 then Margin(ToTwips(p[0]), ToTwips(p[0]), ToTwips(p[0]), ToTwips(p[0]))
    else if |p| == 2 then Margin(ToTwips(p[0]), ToTwips(p[1]), ToTwips(p[0]), ToTwips(p[1]))
    else if |p| == 3 then Margin(ToTwips(p[0]), ToTwips(p[1]), ToTwips(p[2]), ToTwips(p[1]))
    else if |p| == 4 then Margin(ToTwips(p[0]), ToTwips(p[1]), ToTwips(p[2]), ToTwips(p[3]))
    else Margin(Twips(0), Twips(0), Twips(0), Twips(0))
  }

  /**
   * The component that gives a side its value under the `margin` shorthand
   * of section 8.3 of CSS 2.1: top, right, bottom and left in that order,
   * a missing right copies the top, a missing bottom the top, a missing
   * left the right.
   */
  function ShorthandComponent(parts: seq<string>, side: Side): string
    requires 1 <= |parts| <= 4
    decreases side.Left?
  {
    match side
    case Top => parts[0]
    case Right => if |parts| >= 2 then parts[1] else parts[0]
    case Bottom => if |parts| >= 3 then parts[2] else parts[0]
    case Left => if |parts| >= 4 then parts[3] else ShorthandComponent(parts, Right)
  }

  /** Every side converts the component the CSS shorthand rule assigns to it; other counts give zeros. */
  lemma ParseCssMarginShorthand(cssMargin: string, side: Side)
    ensures var p := MarginParts(cssMargin);
      SideOf(ParseCssMargin(cssMargin), side) ==
        if |p| <= 4 then ToTwips(ShorthandComponent(p, side)) else Twips(0)
  {
  }

  /**
   * The sides a short value leaves out mirror the ones it gives: one part
   * sets all four, bottom copies top below three parts, left copies right
   * below four; more than four parts give zeros.
   */
  lemma ParseCssMarginMirrors(cssMargin: string)
    ensures var n, m := |MarginParts(cssMargin)|, ParseCssMargin(cssMargin);
      (n == 1 ==> m.right == m.top && m.bottom == m.top && m.left == m.top)
      && (n <= 2 ==> m.bottom == m.top)
      && (n <= 3 ==> m.left == m.right)
      && (n > 4 ==> m == Margin(Twips(0), Twips(0), Twips(0), Twips(0)))
  {
  }

  /** Any text that reads as a whole number of pixels converts at 15 twips each. */
  lemma ToTwipsOfWholePixels(v: string, n: nat)
    requires EndsIn(v, 'p', 'x') && ParseFloat(v) == Some(n as real)
    ensures ToTwips(v) == Twips(15 * n)
  {
    ToTwipsOfPixels(v, n as real);
    WholeTwips(n);
  }

  /** Whole pixels convert at 15 twips each. */
  lemma ToTwipsWholePixels(n: nat)
    ensures ToTwips(DecimalString(n) + "px") == Twips(15 * n)
  {
    WholeText(n, 'x');
    ToTwipsOfWholePixels(DecimalString(n) + "px", n);
  }

  /** A number of pixels converts at 15 twips each, rounded. */
  lemma ToTwipsOfPixels(v: string, x: real)
    requires EndsIn(v, 'p', 'x') && ParseFloat(v) == Some(x)
    ensures ToTwips(v) == Twips(Round(x * 15.0))
  {
  }

  /** A number of points converts at 20 twips each, rounded. */
  lemma ToTwipsOfPoints(v: string, x: real)
    requires EndsIn(v, 'p', 't') && ParseFloat(v) == Some(x)
    ensures ToTwips(v) == Twips(Round(x * 20.0))
  {
    assert !EndsIn(v, 'p', 'x');
  }

  /** Whole points convert at 20 twips each. */
  lemma ToTwipsWholePoints(n: nat)
    ensures ToTwips(DecimalString(n) + "pt") == Twips(20 * n)
  {
    WholeText(n, 't');
    ToTwipsOfPoints(DecimalString(n) + "pt", n as real);
    WholeTwips(n);
  }

  /** Two space-free components separated by one space are the two parts of the value. */
  lemma MarginPartsOfTwo(x: string, y: string)
    requires ' ' !in x && ' ' !in y
    requires Trim(x) == x && Trim(y) == y
    ensures MarginParts(x + " " + y) == [x, y]
  {
    SplitNoSeparator(x, ' ');
    SplitSeparatorThen(x, ' ', y);
  }

  /** `Apx Bpx` gives 15A twips above and below and 15B to either side. */
  lemma ParseCssMarginTwoPixels(a: nat, b: nat)
    ensures ParseCssMargin(DecimalString(a) + "px " + DecimalString(b) + "px")
      == Margin(Twips(15 * a), Twips(15 * b), Twips(15 * a), Twips(15 * b))
  {
    var x, y := DecimalString(a) + "px", DecimalString(b) + "px";
    WholePixelsText(a);
    WholePixelsText(b);
    assert DecimalString(a) + "px " + DecimalString(b) + "px" == x + " " + y;
    MarginPartsOfTwo(x, y);
    ToTwipsWholePixels(a);
    ToTwipsWholePixels(b);
  }

  /** `Npx` has no space in it and nothing for `trim` to remove. */
  lemma WholePixelsText(n: nat)
    ensures var v := DecimalString(n) + "px"; ' ' !in v && Trim(v) == v
  {
    var d := DecimalString(n);
    var v := d + "px";
    NonDigitNotIn(' ', d);
    assert !IsSpace(v[0]) && !IsSpace(v[|v| - 1]);
    assert TrimStart(v) == v;
  }
}
