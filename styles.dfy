/**
 * The style cascade of `src/tree.js`: `getCurrentNodeStyle` reads a node's
 * inline `style` attribute against a fixed list of properties, and
 * `getStyle` merges tag defaults, the node's own declarations and, on top
 * of its ancestors' style, the result. The style object is a record of
 * optional fields; `lodash.merge` is `Merge` on that record.
 */
module Styles {
  import opened Js
  import opened Measure
  import Color
  import TextHelper
  import opened Dom

  /** `AlignmentType.LEFT`, `.RIGHT`, `.CENTER`, `.JUSTIFIED`. */
  datatype Alignment = AlignLeft | AlignRight | AlignCenter | AlignJustified

  /** `spacing: { before, after }`: paragraph spacing in twips, each side optional. */
  datatype Spacing = Spacing(before: Option<TwipValue>, after: Option<TwipValue>)

  /** `indent: { left }` */
  datatype Indent = Indent(left: Length)

  /** `width`: a table measure on `table`/`tr`/`th`/`td`, a length on anything else. */
  datatype Width = CssWidth(length: Length) | TableWidth(measure: DocxMeasure)

  /**
   * The style object. A flag is `true` when the key is present (the code
   * only ever sets flags, `underline: {}` and `strike: {}` included);
   * `None` is a key that is absent.
   */
  datatype Style = Style(
    bold: bool, italics: bool, underline: bool, strike: bool,
    heading: Option<nat>,
    uppercase: bool, capitalize: bool, lowercase: bool, invertcase: bool, uppercasesentence: bool,
    font: Option<string>, size: Option<Length>, color: Option<string>,
    spacing: Option<Spacing>, alignment: Option<Alignment>, indent: Option<Indent>,
    width: Option<Width>, height: Option<Length>)

  /** `{}` */
  const Empty := Style(false, false, false, false, None, false, false, false, false, false,
                       None, None, None, None, None, None, None, None)

  // ---------------------------------------------------------------------
  // lodash.merge on the style record
  // ---------------------------------------------------------------------

  /** A key of the source object replaces the destination's; an absent one leaves it. */
  function Over<T>(under: Option<T>, over: Option<T>): (r: Option<T>)
    ensures over.Some? ==> r == over
    ensures over.None? ==> r == under
  {
    if over.Some? then over else under
  }

  /** Nested `spacing` objects merge key by key. */
  function MergeSpacing(under: Option<Spacing>, over: Option<Spacing>): (r: Option<Spacing>)
    ensures over.None? ==> r == under
    ensures under.None? ==> r == over
    ensures under.Some? && over.Some? ==>
      r == Some(Spacing(Over(under.value.before, over.value.before), Over(under.value.after, over.value.after)))
  {
    match (under, over)
    case (_, None) => under
    case (None, _) => over
    case (Some(u), Some(o)) => Some(Spacing(Over(u.before, o.before), Over(u.after, o.after)))
  }

  /** `lodash.merge(under, over)` */
  function Merge(under: Style, over: Style): Style {
    Style(
      under.bold || over.bold, under.italics || over.italics,
      under.underline || over.underline, under.strike || over.strike,
      Over(under.heading, over.heading),
      under.uppercase || over.uppercase, under.capitalize || over.capitalize,
      under.lowercase || over.lowercase, under.invertcase || over.invertcase,
      under.uppercasesentence || over.uppercasesentence,
      Over(under.font, over.font), Over(under.size, over.size), Over(under.color, over.color),
      MergeSpacing(under.spacing, over.spacing), Over(under.alignment, over.alignment),
      Over(under.indent, over.indent), Over(under.width, over.width), Over(under.height, over.height))
  }

  /** Every key `s` holds `r` holds with the same value (flags set, fields equal, spacing sides equal). */
  predicate Covers(r: Style, s: Style) {
    (s.bold ==> r.bold) && (s.italics ==> r.italics) && (s.underline ==> r.underline) && (s.strike ==> r.strike)
    && (s.uppercase ==> r.uppercase) && (s.capitalize ==> r.capitalize) && (s.lowercase ==> r.lowercase)
    && (s.invertcase ==> r.invertcase) && (s.uppercasesentence ==> r.uppercasesentence)
    && (s.heading.Some? ==> r.heading == s.heading) && (s.font.Some? ==> r.font == s.font)
    && (s.size.Some? ==> r.size == s.size) && (s.color.Some? ==> r.color == s.color)
    && (s.alignment.Some? ==> r.alignment == s.alignment) && (s.indent.Some? ==> r.indent == s.indent)
    && (s.width.Some? ==> r.width == s.width) && (s.height.Some? ==> r.height == s.height)
    && (s.spacing.Some? ==>
          (r.spacing.Some?
           && (s.spacing.value.before.Some? ==> r.spacing.value.before == s.spacing.value.before)
           && (s.spacing.value.after.Some? ==> r.spacing.value.after == s.spacing.value.after)))
  }

  /** Every key `over` leaves absent has in `r` the value it has in `under`. */
  predicate KeepsRest(r: Style, under: Style, over: Style) {
    (!over.bold ==> r.bold == under.bold) && (!over.italics ==> r.italics == under.italics)
    && (!over.underline ==> r.underline == under.underline) && (!over.strike ==> r.strike == under.strike)
    && (!over.uppercase ==> r.uppercase == under.uppercase) && (!over.capitalize ==> r.capitalize == under.capitalize)
    && (!over.lowercase ==> r.lowercase == under.lowercase) && (!over.invertcase ==> r.invertcase == under.invertcase)
    && (!over.uppercasesentence ==> r.uppercasesentence == under.uppercasesentence)
    && (over.heading.None? ==> r.heading == under.heading) && (over.font.None? ==> r.font == under.font)
    && (over.size.None? ==> r.size == under.size) && (over.color.None? ==> r.color == under.color)
    && (over.alignment.None? ==> r.alignment == under.alignment) && (over.indent.None? ==> r.indent == under.indent)
    && (over.width.None? ==> r.width == under.width) && (over.height.None? ==> r.height == under.height)
    && (over.spacing.None? ==> r.spacing == under.spacing)
    && (over.spacing.Some? && under.spacing.Some? ==>
          (r.spacing.Some?
           && (over.spacing.value.before.None? ==> r.spacing.value.before == under.spacing.value.before)
           && (over.spacing.value.after.None? ==> r.spacing.value.after == under.spacing.value.after)))
  }

  /** The merged style holds every key of `over`, and every other key as `under` had it. */
  lemma MergeOverridesAndKeeps(under: Style, over: Style)
    ensures Covers(Merge(under, over), over)
    ensures KeepsRest(Merge(under, over), under, over)
  {
  }

  /** The empty style is an identity of `Merge` on both sides: merging it in, or onto it, changes nothing. */
  lemma MergeCoversUnder(under: Style, over: Style)
    ensures Covers(Merge(under, Empty), under)
    ensures Merge(under, Empty) == under && Merge(Empty, over) == over
  {
  }

  /** Merging in two steps is merging once with the second merged onto the first. */
  lemma MergeAssociative(a: Style, b: Style, c: Style)
    ensures Merge(Merge(a, b), c) == Merge(a, Merge(b, c))
  {
  }

  /** Merging a style onto itself changes nothing. */
  lemma MergeIdempotent(a: Style)
    ensures Merge(a, a) == a
  {
  }

  // ---------------------------------------------------------------------
  // getCurrentNodeStyle
  // ---------------------------------------------------------------------

  /**
   * The defaults `getStyle` gives a tag before the node's own declarations:
   * `strong` and `b` are bold, `em` and `i` italic, `u` underlined, `s`
   * struck through, `h1` to `h6` the heading of that level, and nothing
   * else sets any key.
   */
  function TagStyle(tag: Option<string>): (r: Style)
    ensures r.bold <==> tag == Some("strong") || tag == Some("b")
    ensures r.italics <==> tag == Some("em") || tag == Some("i")
    ensures r.underline <==> tag == Some("u")
    ensures r.strike <==> tag == Some("s")
    ensures r.heading.Some? <==> tag.Some? && IsHeadingTag(tag.value)
    ensures r.heading.Some? ==> 1 <= r.heading.value <= 6 && tag.value[1] as int - '0' as int == r.heading.value
    ensures r == Empty.(bold := r.bold, italics := r.italics, underline := r.underline, strike := r.strike,
                        heading := r.heading)
  {
    HeadingTags(tag);
    match tag
    case Some("strong") => Empty.(bold := true)
    case Some("b") => Empty.(bold := true)
    case Some("em") => Empty.(italics := true)
    case Some("i") => Empty.(italics := true)
    case Some("u") => Empty.(underline := true)
    case Some("s") => Empty.(strike := true)
    case Some("h1") => Empty.(heading := Some(1))
    case Some("h2") => Empty.(heading := Some(2))
    case Some("h3") => Empty.(heading := Some(3))
    case Some("h4") => Empty.(heading := Some(4))
    case Some("h5") => Empty.(heading := Some(5))
    case Some("h6") => Empty.(heading := Some(6))
    case _ => Empty
  }

  /** `h1` to `h6` */
  predicate IsHeadingTag(t: string) {
    |t| == 2 && t[0] == 'h' && '1' <= t[1] <= '6'
  }

  /** The heading tags are exactly the six names `h1` to `h6`. */
  lemma HeadingTags(tag: Option<string>)
    ensures tag.Some? && IsHeadingTag(tag.value) <==>
      tag in {Some("h1"), Some("h2"), Some("h3"), Some("h4"), Some("h5"), Some("h6")}
  {
    if tag.Some? && |tag.value| == 2 {
      assert tag.value == [tag.value[0], tag.value[1]];
    }
  }

  /** `item.split(':').map(s => s.trim())`, destructured to `[key, value]`. */
  function Declaration(item: string): (string, Option<string>) {
    var rest := AfterFirst(item, ':');
    (Trim(FirstPiece(item, ':')), if rest.Some? then Some(Trim(FirstPiece(rest.value, ':'))) else None)
  }

  /** The key is the first piece of the split, trimmed; the value the second, when there is one. */
  lemma DeclarationIsSplit(item: string)
    ensures var parts := Split(item, ':');
      Declaration(item) == (Trim(parts[0]), if |parts| >= 2 then Some(Trim(parts[1])) else None)
  {
    SplitHead(item, ':');
  }

  /** The tags whose `width` is a table measure. */
  predicate IsTableTag(tag: string) {
    tag == "table" || tag == "tr" || tag == "th" || tag == "td"
  }

  /** The properties the switch in `getCurrentNodeStyle` has a `case` for, and `Other` for the rest. */
  datatype Property =
    | FontWeight | FontStyle | TextDecoration | TextTransform | FontFamily | FontSize | ColorProp
    | MarginAll | MarginTop | MarginBottom | TextAlign | TextIndent | WidthProp | HeightProp
    | Other

  function PropertyOf(key: string): Property {
    match key
    case "font-weight" => FontWeight
    case "font-style" => FontStyle
    case "text-decoration" => TextDecoration
    case "text-transform" => TextTransform
    case "font-family" => FontFamily
    case "font-size" => FontSize
    case "color" => ColorProp
    case "margin" => MarginAll
    case "margin-top" => MarginTop
    case "margin-bottom" => MarginBottom
    case "text-align" => TextAlign
    case "text-indent" => TextIndent
    case "width" => WidthProp
    case "height" => HeightProp
    case _ => Other
  }

  /** The properties whose handler calls a string method on the value, so that a missing value throws. */
  predicate NeedsValue(p: Property) {
    p == FontFamily || p == ColorProp || p == MarginAll || p == MarginTop || p == MarginBottom
  }

  function AlignmentOf(v: Option<string>): Option<Alignment> {
    match v
    case Some("left") => Some(AlignLeft)
    case Some("right") => Some(AlignRight)
    case Some("center") => Some(AlignCenter)
    case Some("justify") => Some(AlignJustified)
    case _ => None
  }

  /** The five `text-transform` values the code recognises, each a flag of the style. */
  datatype Transform = Uppercase | Capitalize | Lowercase | Invertcase | UppercaseSentence

  function TransformNamed(v: Option<string>): Option<Transform> {
    match v
    case Some("uppercase") => Some(Uppercase)
    case Some("capitalize") => Some(Capitalize)
    case Some("lowercase") => Some(Lowercase)
    case Some("invertcase") => Some(Invertcase)
    case Some("uppercasesentence") => Some(UppercaseSentence)
    case _ => None
  }

  /** Whether the flag of `t` is set in `s`. */
  predicate HasTransform(s: Style, t: Transform) {
    match t
    case Uppercase => s.uppercase
    case Capitalize => s.capitalize
    case Lowercase => s.lowercase
    case Invertcase => s.invertcase
    case UppercaseSentence => s.uppercasesentence
  }

  function WithTransform(s: Style, t: Transform): Style {
    match t
    case Uppercase => s.(uppercase := true)
    case Capitalize => s.(capitalize := true)
    case Lowercase => s.(lowercase := true)
    case Invertcase => s.(invertcase := true)
    case UppercaseSentence => s.(uppercasesentence := true)
  }

  /** The flag `text-transform: value` sets, if the value is one of the five. */
  function TransformOf(s: Style, v: Option<string>): Style {
    match TransformNamed(v)
    case None => s
    case Some(t) => WithTransform(s, t)
  }

  /** One `case` of the switch in `getCurrentNodeStyle`, for an element tagged `tag`. */
  function ApplyProperty(s: Style, tag: string, p: Property, key: string, value: Option<string>): Result<Style> {
    if NeedsValue(p) && value.None? then Fail(MissingValue(key))
    else
      match p
      case FontWeight => Ok(if value == Some("bold") then s.(bold := true) else s)
      case FontStyle => Ok(if value == Some("italic") then s.(italics := true) else s)
      case TextDecoration => Ok(if value == Some("underline") then s.(underline := true) else s)
      case TextTransform => Ok(TransformOf(s, value))
      case FontFamily => Ok(s.(font := Some(TextHelper.TrimChar(TextHelper.TrimChar(value.value, '\''), '"'))))
      case FontSize => Ok(s.(size := Some(NormalizeMeasure(value))))
      case ColorProp => Ok(s.(color := Some(Color.ColorToHex(value.value))))
      case MarginAll =>
        var m := ParseCssMargin(value.value);
        Ok(s.(spacing := Some(Spacing(Some(m.top), Some(m.bottom)))))
      case MarginTop => Ok(s.(spacing := Some(Spacing(Some(ParseCssMargin(value.value).top), None))))
      case MarginBottom => Ok(s.(spacing := Some(Spacing(None, Some(ParseCssMargin(value.value).bottom)))))
      case TextAlign => Ok(if AlignmentOf(value).Some? then s.(alignment := AlignmentOf(value)) else s)
      case TextIndent => Ok(s.(indent := Some(Indent(NormalizeMeasure(value)))))
      case WidthProp =>
        Ok(s.(width := Some(if IsTableTag(tag) then TableWidth(ConvertCssToDocxMeasurement(value))
                            else CssWidth(NormalizeMeasure(value)))))
      case HeightProp => Ok(s.(height := Some(NormalizeMeasure(value))))
      case Other => Ok(s)
  }

  /** The declaration `key: value` applied to `s`. */
  function ApplyDeclaration(s: Style, tag: string, key: string, value: Option<string>): Result<Style> {
    ApplyProperty(s, tag, PropertyOf(key), key, value)
  }

  /** The declarations `items` applied in order to `{}`, the first that throws ending the walk. */
  function ApplyAll(tag: string, items: seq<string>): Result<Style>
    decreases |items|
  {
    if items == [] then Ok(Empty)
    else
      match ApplyAll(tag, items[..|items| - 1])
      case Fail(e) => Fail(e)
      case Ok(s) => ApplyItem(s, tag, items[|items| - 1])
  }

  /** One more declaration, applied to what the ones before it gave. */
  lemma ApplyAllStep(tag: string, items: seq<string>, i: nat)
    requires i < |items|
    ensures ApplyAll(tag, items[..i]).Fail? ==> ApplyAll(tag, items[..i + 1]) == ApplyAll(tag, items[..i])
    ensures ApplyAll(tag, items[..i]).Ok? ==>
      ApplyAll(tag, items[..i + 1]) == ApplyItem(ApplyAll(tag, items[..i]).value, tag, items[i])
  {
    assert items[..i + 1][..i] == items[..i];
  }

  /** Once a declaration has thrown, the later ones change nothing: the walk stops there. */
  lemma {:induction false} FailureSticks(tag: string, items: seq<string>, n: nat)
    requires n <= |items| && ApplyAll(tag, items[..n]).Fail?
    ensures ApplyAll(tag, items) == ApplyAll(tag, items[..n])
    decreases |items|
  {
    if n < |items| {
      var init := items[..|items| - 1];
      assert init[..n] == items[..n];
      FailureSticks(tag, init, n);
    } else {
      assert items[..n] == items;
    }
  }

  /** One item of `style.split(';')`, read as a declaration and applied. */
  function ApplyItem(s: Style, tag: string, item: string): Result<Style> {
    var (key, value) := Declaration(item);
    ApplyDeclaration(s, tag, key, value)
  }

  /** The inline style text of an element, when it has a non-empty one. */
  function StyleText(n: Node): Option<string> {
    var a := Attr(n, "style");
    if a.Some? && a.value != "" then a else None
  }

  /** What `getCurrentNodeStyle(node)` returns or throws. */
  function CurrentStyle(n: Node): Result<Style> {
    match StyleText(n)
    case None => Ok(Empty)
    case Some(text) => ApplyAll(n.tag, Split(text, ';'))
  }

  /** `getCurrentNodeStyle(node)` */
  method GetCurrentNodeStyle(node: Node) returns (r: Result<Style>)
    ensures r == CurrentStyle(node)
  {
    var text := StyleText(node);
    if text.None? {
      return Ok(Empty);
    }
    r := ApplyDeclarations(node.tag, Split(text.value, ';'));
  }

  /** The `styles.forEach` loop of `getCurrentNodeStyle`, from `{}`; a declaration that throws ends it. */
  method ApplyDeclarations(tag: string, styles: seq<string>) returns (r: Result<Style>)
    ensures r == ApplyAll(tag, styles)
  {
    r := Ok(Empty);
    var i := 0;
    while i < |styles| && r.Ok?
      invariant 0 <= i <= |styles|
      invariant r == ApplyAll(tag, styles[..i])
      decreases |styles| - i
    {
      ApplyAllStep(tag, styles, i);
      r := ApplyItem(r.value, tag, styles[i]);
      i := i + 1;
    }
    if r.Fail? {
      FailureSticks(tag, styles, i);
    } else {
      assert styles[..i] == styles;
    }
  }

  /** A property outside the list, or a value the handler does not recognise, leaves the style as it was and throws nothing. */
  lemma IgnoredDeclarations(s: Style, tag: string, p: Property, key: string, value: Option<string>)
    ensures p == Other ==> ApplyProperty(s, tag, p, key, value) == Ok(s)
    ensures p == FontWeight && value != Some("bold") ==> ApplyProperty(s, tag, p, key, value) == Ok(s)
    ensures p == TextAlign && AlignmentOf(value).None? ==> ApplyProperty(s, tag, p, key, value) == Ok(s)
  {
  }

  /** A key that is not one of the fourteen names is `Other`. */
  lemma UnknownKeys()
    ensures PropertyOf("font") == Other && PropertyOf("FONT-WEIGHT") == Other && PropertyOf("") == Other
  {
  }

  /** A declaration throws exactly when it is one of the string-handling properties and has no value. */
  lemma DeclarationThrows(s: Style, tag: string, p: Property, key: string, value: Option<string>)
    ensures ApplyProperty(s, tag, p, key, value).Fail? <==> NeedsValue(p) && value.None?
    ensures ApplyProperty(s, tag, p, key, value).Fail? ==> ApplyProperty(s, tag, p, key, value).error == MissingValue(key)
  {
  }

  /** `margin` sets both sides of `spacing`, from the shorthand's top and bottom; the rest of the style is untouched. */
  lemma MarginSetsBoth(s: Style, tag: string, key: string, v: string)
    ensures ApplyProperty(s, tag, MarginAll, key, Some(v))
      == Ok(s.(spacing := Some(Spacing(Some(ParseCssMargin(v).top), Some(ParseCssMargin(v).bottom)))))
  {
  }

  /** `margin-top` sets only `spacing.before`. */
  lemma MarginTopSetsBefore(s: Style, tag: string, key: string, v: string)
    ensures ApplyProperty(s, tag, MarginTop, key, Some(v)) == Ok(s.(spacing := Some(Spacing(Some(ParseCssMargin(v).top), None))))
  {
  }

  /** `margin-bottom` sets only `spacing.after`. */
  lemma MarginBottomSetsAfter(s: Style, tag: string, key: string, v: string)
    ensures ApplyProperty(s, tag, MarginBottom, key, Some(v)) == Ok(s.(spacing := Some(Spacing(None, Some(ParseCssMargin(v).bottom)))))
  {
  }

  /** `width` is a table measure exactly on the table tags, a length everywhere else. */
  lemma WidthDeclaration(s: Style, tag: string, key: string, value: Option<string>)
    ensures var r := ApplyProperty(s, tag, WidthProp, key, value);
      r.Ok? && r.value.width.Some? && (r.value.width.value.TableWidth? <==> IsTableTag(tag))
      && r.value == s.(width := r.value.width)
  {
  }

  /** Whether a style's width, if any, is a CSS length rather than a table measure. */
  predicate CssWidthOnly(s: Style) {
    s.width.None? || s.width.value.CssWidth?
  }

  /** Outside the table tags no declaration produces a table measure. */
  lemma PropertyKeepsCssWidth(s: Style, tag: string, p: Property, key: string, value: Option<string>)
    requires !IsTableTag(tag) && CssWidthOnly(s)
    ensures ApplyProperty(s, tag, p, key, value).Ok? ==> CssWidthOnly(ApplyProperty(s, tag, p, key, value).value)
  {
    if p == WidthProp {
      WidthDeclaration(s, tag, key, value);
    } else if p in {FontWeight, FontStyle, TextDecoration, TextTransform, FontFamily} {
      FontKeepsWidth(s, tag, p, key, value);
    } else if p in {FontSize, ColorProp, MarginAll, MarginTop, MarginBottom} {
      LayoutKeepsWidth(s, tag, p, key, value);
    } else {
      assert p in {TextAlign, TextIndent, HeightProp, Other};
      PlacementKeepsWidth(s, tag, p, key, value);
    }
  }

  /** The font and text declarations leave the width as it was. */
  lemma FontKeepsWidth(s: Style, tag: string, p: Property, key: string, value: Option<string>)
    requires p in {FontWeight, FontStyle, TextDecoration, TextTransform, FontFamily}
    ensures ApplyProperty(s, tag, p, key, value).Ok? ==> ApplyProperty(s, tag, p, key, value).value.width == s.width
  {
    if p == TextTransform && TransformNamed(value).Some? {
      TransformFlags(s, TransformNamed(value).value);
    }
  }

  /** So do the size, colour and spacing declarations, */
  lemma LayoutKeepsWidth(s: Style, tag: string, p: Property, key: string, value: Option<string>)
    requires p in {FontSize, ColorProp, MarginAll, MarginTop, MarginBottom}
    ensures ApplyProperty(s, tag, p, key, value).Ok? ==> ApplyProperty(s, tag, p, key, value).value.width == s.width
  {
  }

  /** and the alignment, indent and height declarations and the unknown ones. */
  lemma PlacementKeepsWidth(s: Style, tag: string, p: Property, key: string, value: Option<string>)
    requires p in {TextAlign, TextIndent, HeightProp, Other}
    ensures ApplyProperty(s, tag, p, key, value).Ok? ==> ApplyProperty(s, tag, p, key, value).value.width == s.width
  {
  }

  /** So an element that is not a table tag (an `img`, say) never gets a table width from its inline style. */
  lemma {:induction false} CssWidthOutsideTables(tag: string, items: seq<string>)
    requires !IsTableTag(tag)
    ensures ApplyAll(tag, items).Ok? ==> CssWidthOnly(ApplyAll(tag, items).value)
    decreases |items|
  {
    if items != [] {
      var init := items[..|items| - 1];
      CssWidthOutsideTables(tag, init);
      if ApplyAll(tag, init).Ok? {
        var (key, value) := Declaration(items[|items| - 1]);
        PropertyKeepsCssWidth(ApplyAll(tag, init).value, tag, PropertyOf(key), key, value);
      }
    }
  }

  /** The same for the whole inline style of such an element. */
  lemma CurrentStyleCssWidth(n: Node)
    requires n.Element? && !IsTableTag(n.tag)
    ensures CurrentStyle(n).Ok? ==> CssWidthOnly(CurrentStyle(n).value)
  {
    if StyleText(n).Some? {
      CssWidthOutsideTables(n.tag, Split(StyleText(n).value, ';'));
    }
  }

  /** A declaration changes at most the one key it handles. */
  lemma DeclarationTouchesOneKey(s: Style, tag: string, key: string, value: Option<string>)
    requires value.Some?
    ensures ApplyProperty(s, tag, ColorProp, key, value) == Ok(s.(color := Some(Color.ColorToHex(value.value))))
    ensures ApplyProperty(s, tag, FontSize, key, value) == Ok(s.(size := Some(NormalizeMeasure(value))))
    ensures ApplyProperty(s, tag, HeightProp, key, value) == Ok(s.(height := Some(NormalizeMeasure(value))))
  {
  }

  /** `a` and `b` agree on every key but the five `text-transform` flags. */
  predicate SameBesideTransforms(a: Style, b: Style) {
    a.bold == b.bold && a.italics == b.italics && a.underline == b.underline && a.strike == b.strike
    && a.heading == b.heading && a.font == b.font && a.size == b.size && a.color == b.color
    && a.spacing == b.spacing && a.alignment == b.alignment && a.indent == b.indent
    && a.width == b.width && a.height == b.height
  }

  /** Only the five exact names are recognised. */
  lemma TransformNames(v: Option<string>)
    ensures TransformNamed(v) == Some(Uppercase) <==> v == Some("uppercase")
    ensures TransformNamed(v) == Some(Capitalize) <==> v == Some("capitalize")
    ensures TransformNamed(v) == Some(Lowercase) <==> v == Some("lowercase")
    ensures TransformNamed(v) == Some(Invertcase) <==> v == Some("invertcase")
    ensures TransformNamed(v) == Some(UppercaseSentence) <==> v == Some("uppercasesentence")
  {
  }

  /**
   * A recognised `text-transform` value sets its own flag, keeps the flags
   * already set, and leaves every other key as it was; an unrecognised
   * value (`TransformNamed(v) == None`) changes nothing.
   */
  lemma TransformFlags(s: Style, t: Transform)
    ensures SameBesideTransforms(WithTransform(s, t), s)
    ensures forall u :: HasTransform(WithTransform(s, t), u) == (HasTransform(s, u) || u == t)
    ensures TransformOf(s, None) == s && TransformOf(s, Some("none")) == s
  {
  }

  /** An element without a non-empty `style` attribute contributes nothing of its own. */
  lemma NoStyleAttribute(n: Node)
    requires StyleText(n).None?
    ensures CurrentStyle(n) == Ok(Empty)
  {
  }

  // ---------------------------------------------------------------------
  // getStyle
  // ---------------------------------------------------------------------

  /** What a node contributes by itself: its tag defaults with its declarations merged on top. */
  function OwnStyle(n: Node): Result<Style> {
    match CurrentStyle(n)
    case Fail(e) => Fail(e)
    case Ok(c) => Ok(Merge(TagStyle(TagOf(n)), c))
  }

  /**
   * `getStyle(node)`, `chain` being the node's ancestors (outermost first)
   * followed by the node: the parent's style with the node's own merged on
   * top.
   */
  function GetStyle(chain: seq<Node>): (r: Result<Style>)
    requires |chain| >= 1
    ensures r.Ok? ==> OwnStyle(chain[|chain| - 1]).Ok?
  {
    var n := chain[|chain| - 1];
    match OwnStyle(n)
    case Fail(e) => Fail(e)
    case Ok(own) =>
      if |chain| == 1 then Ok(own)
      else
        match GetStyle(chain[..|chain| - 1])
        case Fail(e) => Fail(e)
        case Ok(parent) => Ok(Merge(parent, own))
  }

  /**
   * A node's own keys win over its ancestors', and the keys it leaves
   * absent keep the value they have in its parent's style.
   */
  lemma CascadeOwnWins(chain: seq<Node>)
    requires |chain| >= 2 && GetStyle(chain).Ok?
    ensures GetStyle(chain[..|chain| - 1]).Ok?
    ensures Covers(GetStyle(chain).value, OwnStyle(chain[|chain| - 1]).value)
    ensures KeepsRest(GetStyle(chain).value, GetStyle(chain[..|chain| - 1]).value, OwnStyle(chain[|chain| - 1]).value)
  {
  }

  /** A `strong` or `b` anywhere among the ancestors makes the text bold, however many wrappers lie between. */
  lemma {:induction false} BoldInherited(chain: seq<Node>, j: nat)
    requires j < |chain| && GetStyle(chain).Ok?
    requires chain[j].Element? && (chain[j].tag == "strong" || chain[j].tag == "b")
    ensures GetStyle(chain).value.bold
    decreases |chain|
  {
    if j < |chain| - 1 {
      BoldInherited(chain[..|chain| - 1], j);
    }
  }

  /** Every key an ancestor's own style sets reaches the node unless a node below it sets it again. */
  lemma {:induction false} CascadeCoversPrefix(chain: seq<Node>, k: nat)
    requires 1 <= k <= |chain| && GetStyle(chain).Ok?
    ensures GetStyle(chain[..k]).Ok?
    ensures Merge(GetStyle(chain[..k]).value, Cascade(chain, k)) == GetStyle(chain).value
    decreases |chain|
  {
    if k < |chain| {
      var init := chain[..|chain| - 1];
      assert init[..k] == chain[..k];
      CascadeCoversPrefix(init, k);
      CascadeOfInit(chain, k);
      MergeAssociative(GetStyle(chain[..k]).value, Cascade(init, k), OwnStyle(chain[|chain| - 1]).value);
    } else {
      assert chain[..k] == chain;
    }
  }

  /** The own styles of `chain[k..]` merged from the outermost to the node (`{}` when there are none). */
  function Cascade(chain: seq<Node>, k: nat): Style
    requires k <= |chain|
    decreases |chain| - k
  {
    if k == |chain| then Empty
    else
      var own := OwnStyle(chain[k]);
      Merge(if own.Ok? then own.value else Empty, Cascade(chain, k + 1))
  }

  lemma {:induction false} CascadeOfInit(chain: seq<Node>, k: nat)
    requires k < |chain| && OwnStyle(chain[|chain| - 1]).Ok?
    ensures Cascade(chain, k) == Merge(Cascade(chain[..|chain| - 1], k), OwnStyle(chain[|chain| - 1]).value)
    decreases |chain| - k
  {
    var init := chain[..|chain| - 1];
    var last := OwnStyle(chain[|chain| - 1]).value;
    if k == |chain| - 1 {
      MergeCoversUnder(last, Empty);
    } else {
      CascadeOfInit(chain, k + 1);
      assert init[k] == chain[k];
      var own := OwnStyle(chain[k]);
      MergeAssociative(if own.Ok? then own.value else Empty, Cascade(init, k + 1), last);
    }
  }
}
