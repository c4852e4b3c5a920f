/**
 * `colorToHex` of `src/helper.js`: a CSS colour value as the `#RRGGBB`
 * (or `#RRGGBBAA`) text docx takes. Named colours, hexadecimal colours,
 * `rgb()`/`rgba()` and `hsl()`/`hsla()` are recognised in that order;
 * anything else gives the fallback `#00000`.
 */
module Color {
  import opened Js

  /**
   * `namedColors[name]`: the table of colour names, keyed in lower case.
   * The lookup goes through the name's first letter to one of five parts
   * of the table; a name in none of them is no colour.
   */
  function NamedColor(name: string): Option<string> {
    if name == [] || !IsLowerLetter(name[0]) then None
    else if name[0] <= 'c' then NamedColorAToC(name)
    else if name[0] <= 'h' then NamedColorDToH(name)
    else if name[0] <= 'l' then NamedColorIToL(name)
    else if name[0] <= 'r' then NamedColorMToR(name)
    else NamedColorSToZ(name)
  }

  /** The names from `a` to `c`. */
  function NamedColorAToC(name: string): Option<string> {
    match name
    case "aqua" => Some("#00FFFF")
    case "azure" => Some("#F0FFFF")
    case "beige" => Some("#F5F5DC")
    case "black" => Some("#000000")
    case "blue" => Some("#0000FF")
    case "brown" => Some("#A52A2A")
    case "chocolate" => Some("#D2691E")
    case "coral" => Some("#FF7F50")
    case "crimson" => Some("#DC143C")
    case "cyan" => Some("#00FFFF")
    case _ => None
  }

  /** The names from `d` to `h`. */
  function NamedColorDToH(name: string): Option<string> {
    match name
    case "darkblue" => Some("#00008B")
    case "darkgreen" => Some("#006400")
    case "darkred" => Some("#8B0000")
    case "fuchsia" => Some("#FF00FF")
    case "gold" => Some("#FFD700")
    case "gray" => Some("#808080")
    case "green" => Some("#008000")
    case "hotpink" => Some("#FF69B4")
    case _ => None
  }

  /** The names from `i` to `l`. */
  function NamedColorIToL(name: string): Option<string> {
    match name
    case "indigo" => Some("#4B0082")
    case "ivory" => Some("#FFFFF0")
    case "khaki" => Some("#F0E68C")
    case "lavender" => Some("#E6E6FA")
    case "lightblue" => Some("#ADD8E6")
    case "lightgray" => Some("#D3D3D3")
    case "lightgreen" => Some("#90EE90")
    case "lightpink" => Some("#FFB6C1")
    case "lime" => Some("#00FF00")
    case _ => None
  }

  /** The names from `m` to `r`. */
  function NamedColorMToR(name: string): Option<string> {
    match name
    case "maroon" => Some("#800000")
    case "midnightblue" => Some("#191970")
    case "mintcream" => Some("#F5FFFA")
    case "moccasin" => Some("#FFE4B5")
    case "navy" => Some("#000080")
    case "olive" => Some("#808000")
    case "orange" => Some("#FFA500")
    case "orchid" => Some("#DA70D6")
    case "pink" => Some("#FFC0CB")
    case "plum" => Some("#DDA0DD")
    case "purple" => Some("#800080")
    case "red" => Some("#FF0000")
    case _ => None
  }

  /** The names from `s` to `z`. */
  function NamedColorSToZ(name: string): Option<string> {
    match name
    case "salmon" => Some("#FA8072")
    case "seashell" => Some("#FFF5EE")
    case "sienna" => Some("#A0522D")
    case "silver" => Some("#C0C0C0")
    case "skyblue" => Some("#87CEEB")
    case "slategray" => Some("#708090")
    case "snow" => Some("#FFFAFA")
    case "tan" => Some("#D2B48C")
    case "teal" => Some("#008080")
    case "tomato" => Some("#FF6347")
    case "turquoise" => Some("#40E0D0")
    case "violet" => Some("#EE82EE")
    case "wheat" => Some("#F5DEB3")
    case "white" => Some("#FFFFFF")
    case "yellow" => Some("#FFFF00")
    case _ => None
  }

  /** `#` followed by 3, 4, 6 or 8 hexadecimal digits of either case. */
  predicate IsHexColor(s: string) {
    (|s| == 4 || |s| == 5 || |s| == 7 || |s| == 9) && s[0] == '#'
    && forall i :: 1 <= i < |s| ==> IsHexDigit(s[i])
  }

  /** `\d{1,3}` */
  predicate IsChannel(t: string) {
    1 <= |t| <= 3 && AllDigits(t)
  }

  /** The value of text matching `\d?\.?\d+`, as `parseFloat` reads it. */
  function AlphaValue(t: string): (r: Option<real>)
    ensures r.Some? ==> r.value >= 0.0
  {
    var parts := Split(t, '.');
    if |parts| == 1 && parts[0] != [] && AllDigits(parts[0]) then Some(DigitsValue(parts[0]) as real)
    else if |parts| == 2 && |parts[0]| <= 1 && parts[1] != [] && AllDigits(parts[0]) && AllDigits(parts[1]) then
      Some(DecimalValue(parts[0], parts[1]))
    else None
  }

  /**
   * The text between `name(` (either case, `name` followed by an optional
   * `a`) and a final `)`.
   */
  function Arguments(color: string, name: string): Option<string> {
    var n := |name|;
    if |color| >= n + 2 && ToLower(color[..n + 1]) == name + "(" && color[|color| - 1] == ')' then
      Some(color[n + 1..|color| - 1])
    else if |color| >= n + 3 && ToLower(color[..n + 2]) == name + "a(" && color[|color| - 1] == ')' then
      Some(color[n + 2..|color| - 1])
    else None
  }

  /** The groups of `^rgba?\((\d{1,3}),\s*(\d{1,3}),\s*(\d{1,3})(?:,\s*(\d?\.?\d+))?\)$`. */
  datatype RgbGroups = RgbGroups(r: string, g: string, b: string, alpha: Option<real>)

  function MatchRgb(color: string): (m: Option<RgbGroups>)
    ensures m.Some? ==> IsChannel(m.value.r) && IsChannel(m.value.g) && IsChannel(m.value.b)
    ensures m.Some? && m.value.alpha.Some? ==> m.value.alpha.value >= 0.0
  {
    match Arguments(color, "rgb")
    case None => None
    case Some(inner) =>
      var p := Split(inner, ',');
      if (|p| == 3 || |p| == 4) && IsChannel(p[0]) && IsChannel(TrimStart(p[1])) && IsChannel(TrimStart(p[2])) then
        if |p| == 3 then Some(RgbGroups(p[0], TrimStart(p[1]), TrimStart(p[2]), None))
        else
          match AlphaValue(TrimStart(p[3]))
          case None => None
          case Some(a) => Some(RgbGroups(p[0], TrimStart(p[1]), TrimStart(p[2]), Some(a)))
      else None
  }

  /** `parseInt(d).toString(16).padStart(2, '0')` for a channel of digits. */
  function ChannelHex(d: string): (h: string)
    requires AllDigits(d)
  {
    PadStart2(HexOfNat(DigitsValue(d)))
  }

  /** `Math.round(a * 255).toString(16).padStart(2, '0')` */
  function AlphaHex(a: real): string
    requires a >= 0.0
  {
    var v := Round(a * 255.0);
    assert v >= 0;
    PadStart2(HexOfNat(v))
  }

  /** The groups of `^hsla?\((\d{1,3}),\s*([\d.]+%)?,\s*([\d.]+%)?(?:,\s*(\d?\.?\d+))?\)$`. */
  datatype HslGroups = HslGroups(h: string, s: Option<string>, l: Option<string>, alpha: Option<real>)

  /** `\s*([\d.]+%)?` once the leading whitespace is gone: absent, or the percentage text. */
  function Percentage(t: string): Option<Option<string>> {
    if t == [] then Some(None)
    else if |t| >= 2 && t[|t| - 1] == '%' && forall i :: 0 <= i < |t| - 1 ==> IsDigit(t[i]) || t[i] == '.' then
      Some(Some(t))
    else None
  }

  function MatchHsl(color: string): (m: Option<HslGroups>)
    ensures m.Some? ==> IsChannel(m.value.h)
    ensures m.Some? && m.value.alpha.Some? ==> m.value.alpha.value >= 0.0
  {
    match Arguments(color, "hsl")
    case None => None
    case Some(inner) =>
      var p := Split(inner, ',');
      if (|p| == 3 || |p| == 4) && IsChannel(p[0]) then
        var s, l := Percentage(TrimStart(p[1])), Percentage(TrimStart(p[2]));
        if s.None? || l.None? then None
        else if |p| == 3 then Some(HslGroups(p[0], s.value, l.value, None))
        else
          match AlphaValue(TrimStart(p[3]))
          case None => None
          case Some(a) => Some(HslGroups(p[0], s.value, l.value, Some(a)))
      else None
  }

  /** `parseFloat(group) / 100`, `NaN` (`None`) for an absent or unreadable group. */
  function Fraction(group: Option<string>): Option<real> {
    match group
    case None => None
    case Some(t) =>
      match ParseFloat(t)
      case None => None
      case Some(x) => Some(x / 100.0)
  }

  function Abs(x: real): (r: real)
    ensures r >= 0.0 && (r == x || r == -x)
  {
    if x < 0.0 then -x else x
  }

  /** A colour channel after `Math.round`: an integer, or `NaN`. */
  datatype Channel = Level(level: int) | NaNLevel

  /**
   * `hslToRgb(h, s, l)` for a hue `0 <= h < 360`, in exact arithmetic;
   * a `NaN` saturation or lightness makes every channel `NaN`.
   */
  function HslToRgb(h: nat, s: Option<real>, l: Option<real>): (rgb: (Channel, Channel, Channel))
    requires h < 360
    ensures s.None? || l.None? ==> rgb == (NaNLevel, NaNLevel, NaNLevel)
    ensures s.Some? && l.Some? && 0.0 <= s.value <= 1.0 && 0.0 <= l.value <= 1.0 ==> Bytes(rgb)
    ensures s == Some(0.0) && l.Some? ==>
      var g := Level(Round(l.value * 255.0)); rgb == (g, g, g)
  {
    if s.None? || l.None? then (NaNLevel, NaNLevel, NaNLevel)
    else
      var rgb := HslLevels(h, s.value, l.value);
      assert 0.0 <= s.value <= 1.0 && 0.0 <= l.value <= 1.0 ==> Bytes(rgb) by {
        if 0.0 <= s.value <= 1.0 && 0.0 <= l.value <= 1.0 {
          HslInRange(h, s.value, l.value);
        }
      }
      rgb
  }

  /** The channels of `hslToRgb` for a saturation and lightness that are numbers. */
  function HslLevels(h: nat, s: real, l: real): (rgb: (Channel, Channel, Channel))
    requires h < 360
  {
    var c := Chroma(s, l);
    Shifted(HueSector(h, c, c * (1.0 - HueDistance(h))), l - c / 2.0)
  }

  /** Every channel is a number between 0 and 255. */
  predicate Bytes(t: (Channel, Channel, Channel)) {
    t.0.Level? && t.1.Level? && t.2.Level?
    && 0 <= t.0.level <= 255 && 0 <= t.1.level <= 255 && 0 <= t.2.level <= 255
  }

  /** `Math.round((v + m) * 255)` of each component. */
  function Shifted(t: (real, real, real), m: real): (Channel, Channel, Channel) {
    (Level(Round((t.0 + m) * 255.0)), Level(Round((t.1 + m) * 255.0)), Level(Round((t.2 + m) * 255.0)))
  }

  /** `(1 - Math.abs(2 * l - 1)) * s` */
  function Chroma(s: real, l: real): real {
    (1.0 - Abs(2.0 * l - 1.0)) * s
  }

  /** `Math.abs(((h / 60) % 2) - 1)` for a whole hue in `[0, 360)`. */
  function HueDistance(h: nat): (k: real)
    requires h < 360
    ensures 0.0 <= k <= 1.0
  {
    var w := if h < 120 then h else if h < 240 then h - 120 else h - 240;
    Abs(w as real / 60.0 - 1.0)
  }

  /** `v` is `c`, `x` or 0. */
  predicate OneOf(v: real, c: real, x: real) {
    v == c || v == x || v == 0.0
  }

  /** Which of `c`, `x` and 0 each of red, green and blue takes in the hue's sixth of the circle. */
  function HueSector(h: nat, c: real, x: real): (rgb: (real, real, real))
    requires h < 360
    ensures OneOf(rgb.0, c, x) && OneOf(rgb.1, c, x) && OneOf(rgb.2, c, x)
  {
    if h < 60 then (c, x, 0.0)
    else if h < 120 then (x, c, 0.0)
    else if h < 180 then (0.0, c, x)
    else if h < 240 then (0.0, x, c)
    else if h < 300 then (x, 0.0, c)
    else (c, 0.0, x)
  }

  /** `channel.toString(16).padStart(2, '0')`, `NaN` printing as itself. */
  function LevelHex(ch: Channel): string {
    match ch
    case NaNLevel => "NaN"
    case Level(v) => PadStart2(HexOfInt(v))
  }

  /** `colorToHex(color)` */
  function ColorToHex(color: string): string {
    var named := NamedColor(ToLower(color));
    if named.Some? then named.value
    else if IsHexColor(color) then ToUpper(color)
    else
      match MatchRgb(color)
      case Some(m) =>
        var alpha := if m.alpha.Some? then AlphaHex(m.alpha.value) else "";
        ToUpper("#" + ChannelHex(m.r) + ChannelHex(m.g) + ChannelHex(m.b) + alpha)
      case None =>
        match MatchHsl(color)
        case Some(m) =>
          var a := if m.alpha.Some? then m.alpha.value else 1.0;
          var (r, g, b) := HslToRgb(DigitsValue(m.h) % 360, Fraction(m.s), Fraction(m.l));
          var alpha := if a < 1.0 then AlphaHex(a) else "";
          ToUpper("#" + LevelHex(r) + LevelHex(g) + LevelHex(b) + alpha)
        case None => "#00000"
  }

  // ---------------------------------------------------------------------
  // Properties
  // ---------------------------------------------------------------------

  /** Names are looked up without regard to case: `Red`, `RED` and `red` agree. */
  lemma NamedColorsIgnoreCase(c: string, d: string)
    requires ToLower(c) == ToLower(d) && NamedColor(ToLower(c)).Some?
    ensures ColorToHex(c) == ColorToHex(d) == NamedColor(ToLower(c)).value
  {
  }

  /**
   * Every entry of the table is found under its own key, and every value
   * in it is a six-digit hexadecimal colour already in upper case.
   */
  lemma NamedColorsTable(k: string)
    requires NamedColor(k).Some?
    ensures ColorToHex(k) == NamedColor(k).value
    ensures var v := NamedColor(k).value; |v| == 7 && IsHexColor(v) && ToUpper(v) == v
  {
    if k[0] <= 'c' {
      TableAToC(k);
    } else if k[0] <= 'h' {
      TableDToH(k);
    } else if k[0] <= 'l' {
      TableIToL(k);
    } else if k[0] <= 'r' {
      TableMToR(k);
    } else {
      TableSToZ(k);
    }
    LowerNameUnchanged(k);
    UpperHexValueIsColor(NamedColor(k).value);
  }

  /**
   * Whatever the input, `colorToHex` returns `#` followed by at least three
   * characters, none of them a lower-case letter: every branch either
   * upper-cases its text or returns an upper-case table entry or the
   * fallback `#00000`.
   */
  lemma ColorToHexShape(c: string)
    ensures var r := ColorToHex(c);
      |r| >= 4 && r[0] == '#' && forall i :: 0 <= i < |r| ==> !IsLowerLetter(r[i])
  {
    var named := NamedColor(ToLower(c));
    if named.Some? {
      NamedColorsTable(ToLower(c));
      UpperHash(named.value);
    } else if IsHexColor(c) {
      UpperHash(c);
    } else {
      match MatchRgb(c)
      case Some(m) =>
        var alpha := if m.alpha.Some? then AlphaHex(m.alpha.value) else "";
        UpperHash("#" + ChannelHex(m.r) + ChannelHex(m.g) + ChannelHex(m.b) + alpha);
      case None =>
        match MatchHsl(c)
        case Some(m) =>
          var a := if m.alpha.Some? then m.alpha.value else 1.0;
          var (r, g, b) := HslToRgb(DigitsValue(m.h) % 360, Fraction(m.s), Fraction(m.l));
          var alpha := if a < 1.0 then AlphaHex(a) else "";
          UpperHash("#" + LevelHex(r) + LevelHex(g) + LevelHex(b) + alpha);
        case None =>
    }
  }

  /** Upper-casing keeps a leading `#` and the length, and leaves no lower-case letter. */
  lemma UpperHash(x: string)
    requires |x| >= 4 && x[0] == '#'
    ensures var r := ToUpper(x); |r| == |x| && r[0] == '#' && forall i :: 0 <= i < |r| ==> !IsLowerLetter(r[i])
  {
  }

  /** A lower-case name is its own `toLowerCase()`. */
  lemma LowerNameUnchanged(k: string)
    requires LowerName(k)
    ensures ToLower(k) == k
  {
  }

  /** A value of the table's shape is a hexadecimal colour already in upper case. */
  lemma UpperHexValueIsColor(v: string)
    requires UpperHexValue(v)
    ensures |v| == 7 && IsHexColor(v) && ToUpper(v) == v
  {
    assert forall i :: 1 <= i < 7 ==> UpperHexChar(v[i]);
  }

  /** Only lower-case letters. */
  predicate LowerName(k: string) {
    forall i :: 0 <= i < |k| ==> IsLowerLetter(k[i])
  }

  /** `#` and six hexadecimal digits, none of them a lower-case letter. */
  predicate UpperHexValue(v: string) {
    |v| == 7 && v[0] == '#' && UpperHexChar(v[1]) && UpperHexChar(v[2]) && UpperHexChar(v[3])
    && UpperHexChar(v[4]) && UpperHexChar(v[5]) && UpperHexChar(v[6])
  }

  predicate UpperHexChar(c: char) {
    '0' <= c <= '9' || 'A' <= c <= 'F'
  }

  lemma TableAToC(k: string)
    requires NamedColorAToC(k).Some?
    ensures LowerName(k) && UpperHexValue(NamedColorAToC(k).value)
  {
    NamesAToC(k);
    ValuesAToC(k);
  }

  lemma NamesAToC(k: string)
    requires NamedColorAToC(k).Some?
    ensures LowerName(k)
  {
  }

  lemma ValuesAToC(k: string)
    requires NamedColorAToC(k).Some?
    ensures UpperHexValue(NamedColorAToC(k).value)
  {
  }

  lemma TableDToH(k: string)
    requires NamedColorDToH(k).Some?
    ensures LowerName(k) && UpperHexValue(NamedColorDToH(k).value)
  {
    NamesDToH(k);
    ValuesDToH(k);
  }

  lemma NamesDToH(k: string)
    requires NamedColorDToH(k).Some?
    ensures LowerName(k)
  {
  }

  lemma ValuesDToH(k: string)
    requires NamedColorDToH(k).Some?
    ensures UpperHexValue(NamedColorDToH(k).value)
  {
  }

  lemma TableIToL(k: string)
    requires NamedColorIToL(k).Some?
    ensures LowerName(k) && UpperHexValue(NamedColorIToL(k).value)
  {
    NamesIToL(k);
    ValuesIToL(k);
  }

  lemma NamesIToL(k: string)
    requires NamedColorIToL(k).Some?
    ensures LowerName(k)
  {
  }

  lemma ValuesIToL(k: string)
    requires NamedColorIToL(k).Some?
    ensures UpperHexValue(NamedColorIToL(k).value)
  {
  }

  lemma TableMToR(k: string)
    requires NamedColorMToR(k).Some?
    ensures LowerName(k) && UpperHexValue(NamedColorMToR(k).value)
  {
    NamesMToR(k);
    ValuesMToR(k);
  }

  lemma NamesMToR(k: string)
    requires NamedColorMToR(k).Some?
    ensures LowerName(k)
  {
  }

  lemma ValuesMToR(k: string)
    requires NamedColorMToR(k).Some?
    ensures UpperHexValue(NamedColorMToR(k).value)
  {
  }

  lemma TableSToZ(k: string)
    requires NamedColorSToZ(k).Some?
    ensures LowerName(k) && UpperHexValue(NamedColorSToZ(k).value)
  {
    NamesSToZ(k);
    ValuesSToZ(k);
  }

  lemma NamesSToZ(k: string)
    requires NamedColorSToZ(k).Some?
    ensures LowerName(k)
  {
  }

  lemma ValuesSToZ(k: string)
    requires NamedColorSToZ(k).Some?
    ensures UpperHexValue(NamedColorSToZ(k).value)
  {
  }

  /**
   * A colour that is no name, no hexadecimal colour and matches neither
   * the `rgb` nor the `hsl` pattern becomes the five-digit `#00000`.
   */
  lemma UnmatchedIsFallback(c: string)
    requires NamedColor(ToLower(c)).None? && !IsHexColor(c) && MatchRgb(c).None? && MatchHsl(c).None?
    ensures ColorToHex(c) == "#00000"
  {
  }

  /**
   * In particular, text that neither starts with `#` nor ends with `)`
   * and is no name falls back to `#00000`.
   */
  lemma NoCallIsFallback(c: string)
    requires NamedColor(ToLower(c)).None?
    requires c == [] || (c[0] != '#' && c[|c| - 1] != ')')
    ensures ColorToHex(c) == "#00000"
  {
    UnmatchedIsFallback(c) by {
      NoCallUnmatched(c);
    }
  }

  /** Such text is no hexadecimal colour and matches neither the `rgb` nor the `hsl` pattern. */
  lemma NoCallUnmatched(c: string)
    requires c == [] || (c[0] != '#' && c[|c| - 1] != ')')
    ensures !IsHexColor(c) && MatchRgb(c).None? && MatchHsl(c).None?
  {
    NoCallNoArguments(c, "rgb");
    NoCallNoArguments(c, "hsl");
  }

  /** Text that does not end in `)` has no arguments. */
  lemma NoCallNoArguments(c: string, name: string)
    requires c == [] || c[|c| - 1] != ')'
    ensures Arguments(c, name).None?
  {
  }

  /** `transparent` is not in the table: it becomes `#00000`. */
  lemma TransparentIsFallback(c: string)
    requires c == "transparent"
    ensures ColorToHex(c) == "#00000"
  {
    assert LowerName(c);
    LowerNameUnchanged(c);
    NoCallIsFallback(c);
  }


  /** No name in the table starts with `#`. */
  lemma HashIsNoName(k: string)
    requires |k| >= 1 && k[0] == '#'
    ensures NamedColor(k) == None
  {
  }

  /** No name in the table has `(` as its fourth character. */
  lemma ParenthesisIsNoName(k: string)
    requires |k| >= 4 && k[3] == '('
    ensures NamedColor(k) == None
  {
  }

  /** A hexadecimal colour is returned in upper case. */
  lemma HexColorUpperCased(c: string)
    requires IsHexColor(c)
    ensures ColorToHex(c) == ToUpper(c)
  {
    HashIsNoName(ToLower(c));
  }

  /** `String(n)` has at most three digits below 1000. */
  lemma {:induction false} DecimalStringShort(n: nat)
    requires n < 1000
    ensures |DecimalString(n)| <= 3
  {
    if n >= 10 {
      DecimalStringShort(n / 10);
      if n >= 100 {
        assert n / 10 >= 10;
      } else {
        assert n / 10 < 10;
      }
    }
  }

  /** Upper-casing distributes over concatenation. */
  lemma UpperConcat(a: string, b: string)
    ensures ToUpper(a + b) == ToUpper(a) + ToUpper(b)
  {
  }

  /** The upper-case two-digit text `rgb()` gives a channel value. */
  function HexByte(v: nat): (h: string)
    requires v < 256
    ensures |h| == 2 && forall i :: 0 <= i < 2 ==> IsHexDigit(h[i])
  {
    HexOfNatShort(v);
    ToUpper(PadStart2(HexOfNat(v)))
  }

  /** Upper-casing a hexadecimal digit keeps its value. */
  lemma UpperHexDigit(c: char)
    requires IsHexDigit(c)
    ensures IsHexDigit(UpperChar(c)) && HexDigitValue(UpperChar(c)) == HexDigitValue(c)
  {
  }

  /** The two digits `rgb()` prints for a channel read back as that channel. */
  lemma HexByteValue(v: nat)
    requires v < 256
    ensures HexValue(HexByte(v)) == v
  {
    HexOfNatShort(v);
    HexOfNatValue(v);
    var h := HexOfNat(v);
    var p := PadStart2(h);
    var u := HexByte(v);
    if |h| == 1 {
      assert p == ['0', h[0]];
      assert HexValue(p) == HexDigitValue(h[0]) by {
        assert p[..1] == ['0'];
        assert HexValue(p[..1]) == 0;
      }
    } else {
      assert p == h;
    }
    UpperHexDigit(p[0]);
    UpperHexDigit(p[1]);
    assert u == [UpperChar(p[0]), UpperChar(p[1])];
    assert u[..1] == [UpperChar(p[0])] && p[..1] == [p[0]];
    assert HexValue(u[..1]) == HexValue(p[..1]);
  }

  /** The text `rgb(r,g,b)` for three channel values. */
  function RgbText(r: nat, g: nat, b: nat): string {
    "rgb(" + DecimalString(r) + "," + DecimalString(g) + "," + DecimalString(b) + ")"
  }

  /** `rgb()` with channels up to 255 gives `#` and two upper-case hexadecimal digits per channel. */
  lemma RgbToHex(r: nat, g: nat, b: nat)
    requires r < 256 && g < 256 && b < 256
    ensures ColorToHex(RgbText(r, g, b)) == "#" + HexByte(r) + HexByte(g) + HexByte(b)
  {
    var m := RgbGroups(DecimalString(r), DecimalString(g), DecimalString(b), None);
    RgbTextMatches(r, g, b);
    PlainRgbToHex(RgbText(r, g, b), m);
    ChannelHexOfDecimal(r);
    ChannelHexOfDecimal(g);
    ChannelHexOfDecimal(b);
    var hr, hg, hb := ChannelHex(m.r), ChannelHex(m.g), ChannelHex(m.b);
    UpperConcat("#" + hr + hg, hb);
    UpperConcat("#" + hr, hg);
    UpperConcat("#", hr);
  }

  /** `rgb(r,g,b)` is neither a name nor a hexadecimal colour, and the `rgb` pattern reads back its channels. */
  lemma RgbTextMatches(r: nat, g: nat, b: nat)
    requires r < 256 && g < 256 && b < 256
    ensures var c := RgbText(r, g, b);
      NamedColor(ToLower(c)).None? && !IsHexColor(c)
      && MatchRgb(c) == Some(RgbGroups(DecimalString(r), DecimalString(g), DecimalString(b), None))
  {
    var inner := DecimalString(r) + "," + DecimalString(g) + "," + DecimalString(b);
    assert RgbText(r, g, b) == "rgb(" + inner + ")";
    CallOfRgb(inner);
    RgbParts(r, g, b);
    MatchOfThreeChannels(RgbText(r, g, b), inner, DecimalString(r), DecimalString(g), DecimalString(b));
  }

  /** Argument text that splits into three channels without leading spaces is an `rgb` match without alpha. */
  lemma MatchOfThreeChannels(c: string, inner: string, x: string, y: string, z: string)
    requires Arguments(c, "rgb") == Some(inner) && Split(inner, ',') == [x, y, z]
    requires IsChannel(x) && IsChannel(y) && IsChannel(z) && TrimStart(y) == y && TrimStart(z) == z
    ensures MatchRgb(c) == Some(RgbGroups(x, y, z, None))
  {
  }

  /** `rgb(` followed by any argument text and `)` is no name, no hexadecimal colour, and has that argument text. */
  lemma CallOfRgb(inner: string)
    ensures var c := "rgb(" + inner + ")";
      NamedColor(ToLower(c)).None? && !IsHexColor(c) && Arguments(c, "rgb") == Some(inner)
  {
    var c := "rgb(" + inner + ")";
    assert ToLower(c)[3] == '(';
    ParenthesisIsNoName(ToLower(c));
    assert c[..4] == "rgb(" && c[|c| - 1] == ')' && c[4..|c| - 1] == inner;
    assert ToLower("rgb(") == "rgb(";
  }

  /** A colour that only the `rgb` pattern matches, without alpha, becomes its upper-cased channels. */
  lemma PlainRgbToHex(c: string, m: RgbGroups)
    requires NamedColor(ToLower(c)).None? && !IsHexColor(c) && MatchRgb(c) == Some(m) && m.alpha.None?
    ensures ColorToHex(c) == ToUpper("#" + ChannelHex(m.r) + ChannelHex(m.g) + ChannelHex(m.b))
  {
  }

  /** The hexadecimal text of a channel's decimal digits has two digits. */
  lemma ChannelHexOfDecimal(n: nat)
    requires n < 256
    ensures ToUpper(ChannelHex(DecimalString(n))) == HexByte(n)
  {
    DecimalStringValue(n);
  }

  /** Three separator-free pieces joined by the separator split back into those pieces. */
  lemma SplitThree(x: string, y: string, z: string, c: char)
    requires c !in x && c !in y && c !in z
    ensures Split(x + [c] + y + [c] + z, c) == [x, y, z]
  {
    SplitNoSeparator(x, c);
    SplitSeparatorThen(x, c, y);
    SplitSeparatorThen(x + [c] + y, c, z);
  }

  /** `String(n)` for a channel value matches `\d{1,3}` and has no comma or leading space. */
  lemma ChannelText(n: nat)
    requires n < 256
    ensures var d := DecimalString(n); IsChannel(d) && TrimStart(d) == d && ',' !in d
  {
    var d := DecimalString(n);
    DecimalStringShort(n);
    NonDigitNotIn(',', d);
    NoLeadingSpace(d);
  }

  /** The argument text of `rgb(r,g,b)` splits into the three channels, each a match for `\d{1,3}`. */
  lemma RgbParts(r: nat, g: nat, b: nat)
    requires r < 256 && g < 256 && b < 256
    ensures var p := Split(DecimalString(r) + "," + DecimalString(g) + "," + DecimalString(b), ',');
      p == [DecimalString(r), DecimalString(g), DecimalString(b)]
      && IsChannel(p[0]) && IsChannel(TrimStart(p[1])) && IsChannel(TrimStart(p[2]))
      && TrimStart(p[1]) == p[1] && TrimStart(p[2]) == p[2]
  {
    var dr, dg, db := DecimalString(r), DecimalString(g), DecimalString(b);
    ChannelText(r);
    ChannelText(g);
    ChannelText(b);
    assert dr + "," + dg + "," + db == dr + [','] + dg + [','] + db;
    SplitThree(dr, dg, db, ',');
  }

  /** Below hue 60 the chroma goes to red, the second component to green and nothing to blue. */
  lemma HslFirstSector(h: nat, s: real, l: real)
    requires h < 60
    ensures var c := Chroma(s, l);
      HslLevels(h, s, l) == Shifted((c, c * (1.0 - HueDistance(h)), 0.0), l - c / 2.0)
  {
  }

  /** Saturation and lightness between 0 and 1 keep every channel between 0 and 255. */
  lemma HslInRange(h: nat, s: real, l: real)
    requires h < 360 && 0.0 <= s <= 1.0 && 0.0 <= l <= 1.0
    ensures Bytes(HslLevels(h, s, l))
  {
    var c := Chroma(s, l);
    var x := c * (1.0 - HueDistance(h));
    HslBounds(h, s, l);
    ShiftedInRange(HueSector(h, c, x), c, x, l - c / 2.0);
  }

  /** Saturation and lightness between 0 and 1 keep `l - c/2` and `l + c/2` in `[0, 1]` and `x` below `c`. */
  lemma HslBounds(h: nat, s: real, l: real)
    requires h < 360
    ensures var c := Chroma(s, l); var x := c * (1.0 - HueDistance(h)); var m := l - c / 2.0;
      0.0 <= s <= 1.0 && 0.0 <= l <= 1.0 ==> 0.0 <= x <= c && 0.0 <= m && m + c <= 1.0
  {
    if 0.0 <= s <= 1.0 && 0.0 <= l <= 1.0 {
      ChromaBounds(s, l);
      ScaleDown(Chroma(s, l), 1.0 - HueDistance(h));
    }
  }

  /** Components that are the chroma, the second largest component or 0, shifted by `m`, stay in range. */
  lemma ShiftedInRange(t: (real, real, real), c: real, x: real, m: real)
    requires OneOf(t.0, c, x) && OneOf(t.1, c, x) && OneOf(t.2, c, x)
    ensures 0.0 <= x <= c && 0.0 <= m && m + c <= 1.0 ==> Bytes(Shifted(t, m))
  {
    if 0.0 <= x <= c && 0.0 <= m && m + c <= 1.0 {
      InUnitRange(t.0 + m);
      InUnitRange(t.1 + m);
      InUnitRange(t.2 + m);
    }
  }

  /** The chroma is between 0 and the largest value that keeps `l - c/2` and `l + c/2` within `[0, 1]`. */
  lemma ChromaBounds(s: real, l: real)
    requires 0.0 <= s <= 1.0 && 0.0 <= l <= 1.0
    ensures var c := Chroma(s, l); 0.0 <= c && 0.0 <= l - c / 2.0 && l + c / 2.0 <= 1.0
  {
    var span := 1.0 - Abs(2.0 * l - 1.0);
    ScaleDown(span, s);
    LightnessSpan(span * s, l);
  }

  /** A chroma no larger than `1 - |2l - 1|` leaves `l - c/2` and `l + c/2` within `[0, 1]`. */
  lemma LightnessSpan(c: real, l: real)
    requires 0.0 <= l <= 1.0 && 0.0 <= c <= 1.0 - Abs(2.0 * l - 1.0)
    ensures 0.0 <= l - c / 2.0 && l + c / 2.0 <= 1.0
  {
  }

  /** Scaling a non-negative value by a factor between 0 and 1 keeps it between 0 and the value. */
  lemma ScaleDown(a: real, f: real)
    requires 0.0 <= a && 0.0 <= f <= 1.0
    ensures 0.0 <= a * f <= a
  {
    assert a * f <= a * 1.0 by {
      assert a * (1.0 - f) >= 0.0;
    }
  }

  /** A value between 0 and 1 scales and rounds to a byte. */
  lemma InUnitRange(v: real)
    requires 0.0 <= v <= 1.0
    ensures 0 <= Round(v * 255.0) <= 255
  {
  }

  /** Hue 0 at full saturation and half lightness is pure red. */
  lemma HslRed()
    ensures HslToRgb(0, Some(1.0), Some(0.5)) == (Level(255), Level(0), Level(0))
  {
    HslFirstSector(0, 1.0, 0.5);
    assert Shifted((1.0, 0.0, 0.0), 0.0) == (Level(255), Level(0), Level(0)) by {
      RoundOfInt(255);
      RoundOfInt(0);
    }
  }
}
