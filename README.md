# html-to-docx: the block builder and its helpers

This project is a Dafny model of the part of html-to-docx that turns a
parsed HTML document into the page → block → run tree the `docx` writer
serialises. It covers the two files that hold that logic:

- `src/helper.js`, the string and number utilities:
  - `pageNodes` splits the body at page-break markers;
  - `trim` and `capitalize` work on text;
  - `splitMeasure`, `normalizeMeasure`, `convertCssToDocxMeasurement` and
    `parseCssMargin` convert CSS lengths;
  - `colorToHex` normalises colours;
  - `getListItemNumber` renders list markers (Roman, bijective base-26,
    cyclic Latin and Greek letters, glyphs);
  - `getWordIndent` computes list indents.
- `src/tree.js`, the builder:
  - `getStyle` and `getCurrentNodeStyle` form the style cascade;
  - `parseTreeNode` and `paragraphNodeParse` do the paragraph
    accumulation;
  - `trimContent`, `trimParagraph`, `reflectStyleToParagraph`,
    `applyStyle` and `normalizeParagraph` normalise runs;
  - `getListLevel`, `getListFormat` and `normalizeSheet` handle lists;
  - `nodeTree` builds one sheet per page.

How the code becomes Dafny:

- **DOM.** A node is `Text(raw)` or `Element(tag, attrs, children)`. A
  node's ancestors are passed root first, as a sequence.
- **Style.** A style object is a record of optional fields. `spacing` and
  `indent` are nested records.
- **Errors.** A JavaScript exception (a `TypeError` from a missing value)
  or a rejected promise (`sharp` failing on image bytes it cannot read) is
  a `Fail` result, and it ends the whole build.
- **Loops.** Each loop of the source is a `method` with invariants. It is
  proved equal to a specification function, and the properties are proved
  about that function as lemmas.
- **Oracles.** The two collaborators the builder calls out to are function
  parameters, bundled in `Runs.Oracles`:
  - `decode`, the HTML-entity decoder from `html-entities`;
  - `image`, which stands for `imageBase64ToBuffer`: `Ok(None)` where it
    resolves to `undefined`, `Fail` where it rejects.

Modules, one file each:

| module | file | models |
|---|---|---|
| `Js` | `js.dfy` | the JavaScript built-ins the code relies on: `trim`, `split`, `parseInt`, `parseFloat`, `Math.round`, `%`, ASCII case mapping, `Promise.all` |
| `Dom` | `dom.dfy` | the DOM |
| `Pages` | `pages.dfy` | `pageNodes` |
| `TextHelper` | `text_helper.dfy` | `trim`, `capitalize` |
| `Measure` | `measure.dfy` | the CSS length helpers |
| `Color` | `color.dfy` | `colorToHex` |
| `ListNumber` | `list_number.dfy` | `getListItemNumber`, `getWordIndent` |
| `Styles` | `styles.dfy` | `getStyle`, `getCurrentNodeStyle` |
| `Runs` | `runs.dfy` | the block and run data types |
| `Paragraphs` | `paragraph.dfy` | the run normalisation |
| `Lists` | `lists.dfy` | `getListLevel`, `getListFormat`, `normalizeSheet` |
| `Tree` | `tree.dfy` | `paragraphNodeParse`, `parseTreeNode`, `nodeTree` |

Where the prose description of the system and the code disagree, the model
follows the code:

- **List start.** An explicit positive `start` is given to every item of
  the list unchanged (an `<ol start="3">` with three items numbers 3, 3,
  3), not incremented.
- **Empty pages.** A page-break marker at the front, or two markers in a
  row, produce an empty page.
- **Missing values throw.** A `margin`, `margin-top`, `margin-bottom`,
  `color` or `font-family` declaration without a `:` throws. It is not
  ignored.
- **Width and height.** `width` switches on the element's own tag
  (`table`, `tr`, `th`, `td`), not on an ancestor's. `height` is always
  normalised as a length.
- **Colour fallback.** The fallback colour is the five-character
  `#00000`.

## Model

| member | source | states |
|---|---|---|
| `Js.CollectShape` | src/tree.js:585-607 | `Promise.all` over results succeeds iff every element succeeds; its value then lists the values in order, and otherwise it fails with the first failure |
| `Js.CollectFailureSticks` | src/tree.js:585-607 | once a prefix of the awaited results has failed, later elements do not change the outcome |
| `Js.TrimEmptyIffBlank` | src/tree.js:368-373 | `String.prototype.trim` yields `""` exactly when the string is all white space |
| `Js.TrimStartSuffix` | src/tree.js:355 | `trimStart` removes exactly a leading run of white space and keeps the rest of the string |
| `Js.TrimEndPrefix` | src/tree.js:356 | `trimEnd` removes exactly a trailing run of white space and keeps the rest of the string |
| `Js.TrimIdempotent` | src/tree.js:354-359 | trimming twice is trimming once; a trimmed string is a fixed point of `trimStart` and `trimEnd` |
| `Js.JoinSplit` | src/tree.js:77-80 | joining the pieces of `split(c)` with `c` gives back the string |
| `Js.SplitJoin` | src/tree.js:77-80 | splitting a join of separator-free pieces gives back the pieces |
| `Js.ParseIntOfDecimal` | src/tree.js:546 | `parseInt` reads back the decimal text of every natural number |
| `Js.ParseFloatOfDecimal` | src/helper.js:341-357 | `parseFloat` of the decimal digits of a natural number followed by a non-numeric suffix reads back the number |
| `Js.Round` | src/helper.js:347 | `Math.round(x)` is the integer within one half of `x`, halves rounding up |
| `Js.JsRem` | src/helper.js:474 | JavaScript `%`: the dividend is the quotient rounded toward zero times the divisor plus the remainder, the remainder is zero or has the dividend's sign, and it is smaller than the divisor in magnitude |
| `Js.HexOfNatValue` | src/helper.js:184-186 | `toString(16)` of a natural number reads back as that number |
| `Js.ToUpper` | src/helper.js:177 | `toUpperCase` maps each character by itself, lower-case ASCII letters to capitals, and keeps the length |
| `Dom.PrevElementTag` | src/tree.js:563-566 | `previousElementSibling` is absent iff every earlier sibling is text; otherwise it is the nearest earlier element |
| `Dom.Rows` | src/tree.js:586 | `querySelectorAll('tbody > tr')` yields only `tr` descendants of the table whose parent is a `tbody` |
| `Dom.Cells` | src/tree.js:589 | `querySelectorAll('td')` yields only `td` descendants of the row |
| `Dom.DirectRow` | src/tree.js:586 | a `tr` inside the table's `tbody` is selected, with its ancestor path |
| `Dom.RowsNeedBody` | src/tree.js:586 | rows placed directly in a table without `tbody` are not selected |
| `Pages.PageNodes` | src/helper.js:36-53 | the loop returns one fragment per page of the split, in order, holding that page's nodes |
| `Pages.PagesFlatten` | src/helper.js:39-52 | concatenating the pages gives the body children without the markers, in order |
| `Pages.PagesCount` | src/helper.js:39-52 | the number of pages is the number of markers, plus one when the segment after the last marker is non-empty |
| `Pages.SinglePage` | src/helper.js:47-49 | a non-empty body without markers is exactly one page |
| `Pages.LeadingMarker` | src/helper.js:40-42 | a marker at the front produces an empty first page |
| `Pages.ConsecutiveMarkers` | src/helper.js:40-42 | two adjacent markers produce an empty page |
| `Pages.FlattenSplit` | src/helper.js:39-45 | splitting at separators and concatenating drops exactly the separators |
| `Pages.SplitCount` | src/helper.js:39-45 | a split has one more segment than there are separators, and its last segment is what follows the last separator |
| `TextHelper.Trim` | src/helper.js:61-70 | the two loops return the string with the leading and trailing runs of `ch` removed |
| `TextHelper.TrimCharShape` | src/helper.js:61-70 | the result is a contiguous substring with no `ch` at either end, and everything cut off is `ch` |
| `TextHelper.TrimCharKeeps` | src/helper.js:69 | a string that neither starts nor ends with `ch` is returned unchanged |
| `TextHelper.TrimCharIdempotent` | src/helper.js:61-70 | trimming twice is trimming once |
| `TextHelper.Capitalize` | src/helper.js:106-111 | the result upper-cases exactly the characters at the start or after white space or one of `"'([{`, and keeps all others of the (optionally lower-cased) input |
| `TextHelper.CapitalizeIdempotent` | src/helper.js:106-111 | capitalizing a capitalized string changes nothing |
| `TextHelper.CapitalizeKeepsLetters` | src/helper.js:106-111 | with `lower`, the result differs from the input only in letter case |
| `TextHelper.CapitalizeFromConcat` | src/helper.js:106-111 | capitalizing a concatenation capitalizes each part, the second according to the last character of the first |
| `TextHelper.CapitalizeJoinedWords` | src/helper.js:102-111 | words joined by spaces each get their first letter upper-cased (`'fix this string'` → `'Fix This String'`) |
| `TextHelper.CapitalizeOneWord` | src/helper.js:102-111 | a single word gets only its first letter upper-cased, after optional lower-casing (`'javaSCrIPT'`, `true` → `'Javascript'`) |
| `Measure.UnitOfName` | src/helper.js:73 | each of the seven units is recognised by its name |
| `Measure.SplitMeasure` | src/helper.js:72-80 | a match gives a non-negative number and a unit the text ends with |
| `Measure.SplitMeasureOfWhole` | src/helper.js:72-80 | `"<n><unit>"` splits into `n` and the unit |
| `Measure.SplitMeasureOfFraction` | src/helper.js:72-80 | `"<a>.<b><unit>"` splits into the decimal value and the unit |
| `Measure.SplitMeasureNeedsUnit` | src/helper.js:75-77 | text not ending in one of the seven units gives no match |
| `Measure.NormalizeMeasure` | src/helper.js:82-94 | no length iff the text does not split or its number is 0; otherwise pixels become points at ¾ and other units keep number and unit |
| `Measure.NormalizeWholePixels` | src/helper.js:89-90 | `"<n>px"` becomes `n × 0.75` points |
| `Measure.NormalizeWholeOther` | src/helper.js:91-92 | `"<n><unit>"` for another unit is kept, and `"0<unit>"` gives no length |
| `Measure.ConvertCssToDocxMeasurement` | src/helper.js:320-360 | a missing value, `auto`, `0`, `none` or text with none of the suffixes `%`, `px`, `pt` gives `nil`; a `pct` result comes from text ending in `%` and holds the number `parseFloat` reads there; a `dxa` result comes from text ending in `px` or `pt` and holds the rounded ×15 or ×20 of that number |
| `Measure.ConvertWholePercent` | src/helper.js:327-335 | `"<n>%"` is `pct` `n` |
| `Measure.ConvertOfPercent` | src/helper.js:327-335 | any text ending in `%` is a percentage, whatever precedes the `%`: `pct` of the number `parseFloat` reads, or `nil` when that is `NaN` |
| `Measure.ConvertWholePixels` | src/helper.js:341-348 | `"<n>px"` is `15n` `dxa` |
| `Measure.ConvertWholePoints` | src/helper.js:350-357 | `"<n>pt"` is `20n` `dxa` |
| `Measure.ConvertOfPixels` | src/helper.js:341-348 | any `px` value that parses is `dxa` `round(15x)` |
| `Measure.ConvertOfPoints` | src/helper.js:350-357 | any `pt` value that parses is `dxa` `round(20x)` |
| `Measure.ToTwips` | src/helper.js:370-378 | a value ending in neither `px` nor `pt` is 0; the result is `NaN` exactly when the value ends in `px` or `pt` and its number does not parse |
| `Measure.ToTwipsWholePixels` | src/helper.js:370-373 | `"<n>px"` is `15n` twips |
| `Measure.ToTwipsOfPixels` | src/helper.js:371-373 | any `px` value that parses is `round(15x)` twips |
| `Measure.ToTwipsOfPoints` | src/helper.js:374-376 | any `pt` value that parses is `round(20x)` twips |
| `Measure.ToTwipsWholePoints` | src/helper.js:374-376 | `"<n>pt"` is `20n` twips |
| `Measure.ParseCssMarginMirrors` | src/helper.js:369-402 | `parseCssMargin`: one part sets all four sides, bottom copies top with fewer than three parts, left copies right with fewer than four, and more than four parts give zeros |
| `Measure.ParseCssMarginShorthand` | src/helper.js:380-402 | each side takes the value the 1/2/3/4-value shorthand assigns it, converted; any other part count gives 0 on every side |
| `Measure.MarginPartsOfTwo` | src/helper.js:380 | `"x y"` splits into the parts `x` and `y` |
| `Measure.ParseCssMarginTwoPixels` | src/helper.js:386-388 | `"<a>px <b>px"` gives `15a` top and bottom and `15b` left and right |
| `Color.ColorToHexShape` | src/helper.js:113-221 | `colorToHex` always returns `#` followed by at least three characters, none of them a lower-case letter, whatever the input |
| `Color.NamedColorsIgnoreCase` | src/helper.js:171-173 | names that differ only in case give the same colour, the table's |
| `Color.NamedColorsTable` | src/helper.js:114-173 | each of the 54 names of the table, looked up under itself, gives the table's value, and every value is `#` and six upper-case hexadecimal digits |
| `Color.HashIsNoName` | src/helper.js:114-173 | no colour name starts with `#`, so the name lookup never shadows the hex branch |
| `Color.ParenthesisIsNoName` | src/helper.js:114-173 | no colour name has `(` in fourth place, so the lookup never shadows `rgb(` or `hsl(` |
| `Color.HexColorUpperCased` | src/helper.js:175-178 | a 3, 4, 6 or 8 digit hex colour is returned upper-cased |
| `Color.UnmatchedIsFallback` | src/helper.js:170-220 | a colour that is no name, no hex colour and matches neither the `rgb` nor the `hsl` pattern gives the fallback `#00000` |
| `Color.NoCallIsFallback` | src/helper.js:170-220 | text that is no name, does not start with `#` and does not end with `)` gives `#00000` |
| `Color.TransparentIsFallback` | src/helper.js:114-220 | `transparent`, which the table lacks, gives `#00000` |
| `Color.RgbToHex` | src/helper.js:180-195 | `rgb(r,g,b)` with channels below 256 is `#` followed by the two-digit upper-case hex of each channel |
| `Color.PlainRgbToHex` | src/helper.js:184-195 | a matched `rgb()` without alpha is `#` and the padded hex of the three channels, upper-cased |
| `Color.HexByteValue` | src/helper.js:184-186 | the padded two-digit hex of a byte reads back as the byte |
| `Color.HslToRgb` | src/helper.js:197-262 | a missing saturation or lightness (`NaN`) gives `NaN` channels; saturation and lightness in `[0, 1]` give channels in `[0, 255]`; zero saturation gives three equal channels, `round(255 l)` |
| `Color.HslFirstSector` | src/helper.js:224-234 | a hue below 60 puts chroma in red, the intermediate value in green and 0 in blue |
| `Color.HslInRange` | src/helper.js:223-262 | saturation and lightness in `[0, 1]` give channels in `[0, 255]` |
| `Color.HslRed` | src/helper.js:197-218 | `hsl(0, 100%, 50%)` gives the channels 255, 0, 0 |
| `ListNumber.ToRoman` | src/helper.js:406-434 | the loop produces the greedy subtractive numeral of the ordinal, upper- or lower-cased per the flag |
| `ListNumber.EmitRow` | src/helper.js:427-430 | one pass of the inner loop emits row `i` while its value fits: what it appends, followed by the greedy numeral of the remainder from the next row on, equals the greedy numeral of the value from row `i` on; a non-positive value passes through unchanged |
| `ListNumber.RomanRoundTrip` | src/helper.js:406-434 | the value of the numerals emitted is the ordinal, and 0 for a non-positive ordinal |
| `ListNumber.RomanSymbols` | src/helper.js:406-434 | only M, D, C, L, X, V and I appear, in the case the flag asks for |
| `ListNumber.RomanInjective` | src/helper.js:406-434 | distinct positive ordinals have distinct numerals |
| `ListNumber.ToAlpha` | src/helper.js:436-445 | the loop produces the bijective base-26 letters of the ordinal, upper- or lower-cased per the flag |
| `ListNumber.AlphaOfBijective` | src/helper.js:436-445 | the letters produced read back, in bijective base 26, as the ordinal |
| `ListNumber.BijectiveOfAlpha` | src/helper.js:436-445 | every non-empty lower-case word is the letters of exactly its own value |
| `ListNumber.AlphaInjective` | src/helper.js:436-445 | distinct positive ordinals give distinct letters |
| `ListNumber.AlphaExamples` | src/helper.js:436-445 | 1 → `a`, 26 → `z`, 27 → `aa`, 0 → `""` |
| `ListNumber.GreekCapitalsShifted` | src/helper.js:447-476 | each Greek capital is its small letter's code point minus 32 |
| `ListNumber.LetterPeriodic` | src/helper.js:478-482 | the Latin letter marker repeats with period 26 |
| `ListNumber.GreekPeriodic` | src/helper.js:447-476 | the Greek letter marker repeats with period 24 |
| `ListNumber.LetterThrows` | src/helper.js:480-481 | the Latin letter marker throws iff the index falls outside the alphabet, which is when `n < 1` and `(1 - n)` is not a multiple of 26 |
| `ListNumber.GreekThrows` | src/helper.js:474-475 | the Greek letter marker throws iff `n < 1` and `(1 - n)` is not a multiple of 24 |
| `ListNumber.LetterIsAlphaBelow27` | src/helper.js:478-482 | for 1..26 the Latin letter marker is the alphabetic marker |
| `ListNumber.ListItemNumber` | src/helper.js:484-513 | only a non-positive ordinal can make it throw, and an ordinal result is the start unchanged |
| `ListNumber.OrdinalFormats` | src/helper.js:484-513 | the result is the start itself iff the format is `decimal` or not one of the named formats |
| `ListNumber.GlyphFormats` | src/helper.js:503-510 | `circle`, `disc` and `square` give fixed glyphs whatever the ordinal, and `none` gives `""` |
| `ListNumber.RomanMarker` | src/helper.js:487-490 | the Roman formats give a numeral whose value is the ordinal |
| `ListNumber.CyclicMarkers` | src/helper.js:495-502 | the letter formats repeat every 26 ordinals and the Greek ones every 24 |
| `ListNumber.WordIndentSteps` | src/helper.js:516-526 | each level adds 720 twips of left indent, the hanging indent is always 360, and level 0 is not indented |
| `Styles.MergeOverridesAndKeeps` | src/tree.js:65-71 | the merged style holds every key of the node's own style, and every key it leaves unset as the parent had it, `spacing` side by side |
| `Styles.MergeCoversUnder` | src/tree.js:65-71 | merging with an empty style changes nothing, on either side |
| `Styles.MergeAssociative` | src/tree.js:65-71 | merging is associative, so the cascade does not depend on how the chain is grouped |
| `Styles.MergeIdempotent` | src/tree.js:65-71 | merging a style with itself changes nothing |
| `Styles.TagStyle` | src/tree.js:21-63 | `strong` and `b` set exactly `bold`, `em` and `i` exactly `italics`, `u` `underline`, `s` `strike`, and `h1` to `h6` the heading of that digit; no other tag sets anything, and no tag sets any other key |
| `Styles.DeclarationIsSplit` | src/tree.js:80 | a declaration's key is the first trimmed piece of its split at `:`, and its value the second, when there is one |
| `Styles.GetCurrentNodeStyle` | src/tree.js:74-189 | the method returns the declarations of the `style` attribute applied in order to `{}`, or the first error |
| `Styles.ApplyDeclarations` | src/tree.js:79-185 | the loop applies the declarations in order and stops at the first that throws |
| `Styles.FailureSticks` | src/tree.js:79-185 | after a declaration throws, the rest do not change the outcome |
| `Styles.IgnoredDeclarations` | src/tree.js:81-185 | an unknown property, a `font-weight` other than `bold` and an unknown `text-align` leave the style unchanged |
| `Styles.UnknownKeys` | src/tree.js:81 | the switch is case-sensitive and exact, so `font`, `FONT-WEIGHT` and `""` are unknown |
| `Styles.DeclarationThrows` | src/tree.js:114-145 | a declaration throws iff its property calls a string method on the value (`font-family`, `color`, the margins) and the value is missing |
| `Styles.MarginSetsBoth` | src/tree.js:126-135 | `margin` sets spacing before to the top and after to the bottom of the shorthand |
| `Styles.MarginTopSetsBefore` | src/tree.js:136-139 | `margin-top` replaces spacing by one holding only `before` |
| `Styles.MarginBottomSetsAfter` | src/tree.js:140-143 | `margin-bottom` replaces spacing by one holding only `after` |
| `Styles.WidthDeclaration` | src/tree.js:171-179 | `width` always sets the width, to a table measure iff the element is a `table`, `tr`, `th` or `td`, and changes nothing else |
| `Styles.PropertyKeepsCssWidth` | src/tree.js:81-185 | outside table tags every declaration keeps the width a CSS length |
| `Styles.CssWidthOutsideTables` | src/tree.js:79-185 | outside table tags the whole declaration list yields a CSS-length width, if any |
| `Styles.CurrentStyleCssWidth` | src/tree.js:74-189 | an element that is not a table tag never gets a table measure as width |
| `Styles.DeclarationTouchesOneKey` | src/tree.js:118-183 | `color`, `font-size` and `height` each set their own key and nothing else |
| `Styles.TransformNames` | src/tree.js:100-112 | each of the five `text-transform` values is recognised by exactly its own name |
| `Styles.TransformFlags` | src/tree.js:100-112 | a transform adds its flag and changes nothing else; a missing value or `none` changes nothing |
| `Styles.NoStyleAttribute` | src/tree.js:76 | an element without a `style` attribute contributes the empty style |
| `Styles.GetStyle` | src/tree.js:18-72 | the cascade succeeds only if the node's own declarations do |
| `Styles.CascadeOwnWins` | src/tree.js:65-71 | the node's own style overrides the parent's cascade, and every key it leaves unset keeps the parent's value |
| `Styles.BoldInherited` | src/tree.js:21-25 | `bold` from any `strong` or `b` ancestor reaches the node |
| `Styles.CascadeCoversPrefix` | src/tree.js:18-72 | the style of a node is the style of any ancestor merged with the contributions below it |
| `Paragraphs.TrimRuns` | src/tree.js:395-409 | trimming keeps the number of runs |
| `Paragraphs.TrimRunsAt` | src/tree.js:354-359 | a single run is fully trimmed, the first `trimStart`-ed, the last `trimEnd`-ed, interior runs kept; all are decoded and keep their style |
| `Paragraphs.TrimRunsOfTrimmed` | src/tree.js:395-409 | runs whose text is already trimmed only have their text decoded, whatever their position, and keep their style |
| `Paragraphs.TrimParagraph` | src/tree.js:361-410 | the method computes the trimmed paragraph |
| `Paragraphs.KeepRuns` | src/tree.js:367-385 | the loop with `foundNonEmptyText` keeps the runs from the first non-blank one on; for lists, every non-blank run, trimmed |
| `Paragraphs.PopTrailing` | src/tree.js:387-409 | popping leaves no trailing blank run, then the remaining runs are trimmed |
| `Paragraphs.ListKept` | src/tree.js:367-385 | a list paragraph throws iff one of its runs has no text content (an image or a row) |
| `Paragraphs.TrimmedIsStretch` | src/tree.js:361-410 | a non-list paragraph keeps a contiguous stretch of runs in order, the blank runs before and after it removed and its ends non-blank |
| `Paragraphs.AllBlankIsEmpty` | src/tree.js:361-410 | a paragraph of blank runs trims to no runs |
| `Paragraphs.TrimmedNonList` | src/tree.js:361-410 | a non-list paragraph never throws and keeps its kind and style |
| `Paragraphs.ListItems` | src/tree.js:368-381 | list items are all trimmed and non-blank |
| `Paragraphs.ListKeptItems` | src/tree.js:367-385 | a list keeps exactly its non-blank runs, trimmed |
| `Paragraphs.TrimmedList` | src/tree.js:361-410 | a list throws iff a run has no text; otherwise its runs are its non-blank items, trimmed, then decoded |
| `Paragraphs.LastOf` | src/tree.js:279-301 | the value hoisted for a key is absent iff no run defines it; otherwise it comes from the last run that defines it |
| `Paragraphs.ReflectStyleToParagraph` | src/tree.js:275-304 | the loop computes the reflected paragraph |
| `Paragraphs.ReflectedKeepsRest` | src/tree.js:275-304 | runs and kind are unchanged, and only `alignment`, `indent`, `heading` and `spacing` of the paragraph style can change |
| `Paragraphs.ReflectedAlignment` | src/tree.js:279-289 | the alignment of the last run that defines one becomes the paragraph's |
| `Paragraphs.ReflectedSpacing` | src/tree.js:279-301 | the spacing of the last run that defines one becomes the paragraph's, whole |
| `Paragraphs.InvertCase` | src/tree.js:321-328 | the length is kept; lower-case letters become capitals, capitals become lower-case, and every other character stays |
| `Paragraphs.ApplyStyle` | src/tree.js:306-352 | kind, style and number of runs are kept |
| `Paragraphs.ApplyRunShape` | src/tree.js:306-352 | image and row runs are untouched; a text run keeps its style, and its content is `null` iff it was empty |
| `Paragraphs.NoTransform` | src/tree.js:313-347 | without a transform flag the text is unchanged |
| `Paragraphs.TransformPrecedence` | src/tree.js:313-347 | one transform applies, in the order uppercase, capitalize, lowercase, invertcase, uppercasesentence |
| `Paragraphs.InvertCaseInvolution` | src/tree.js:321-328 | inverting the case twice gives back the text |
| `Paragraphs.SentenceCaseKeepsStops` | src/tree.js:329-345 | sentence case keeps the length and the positions of every `.` |
| `Paragraphs.NormalizeParagraph` | src/tree.js:412-414 | the kind is kept, and only a list can throw |
| `Paragraphs.BlankParagraphIsEmpty` | src/tree.js:412-414 | a paragraph of blank runs normalises to a block with no runs |
| `Lists.ListLevelAppend` | src/tree.js:437-449 | the level counts the `ul`/`ol` among the proper ancestors, adding one per list ancestor |
| `Lists.NestedListLevel` | src/tree.js:437-449 | a list nested in a list item of a list is one level deeper |
| `Lists.GetListFormat` | src/tree.js:416-435 | the method returns the first `list-style`/`list-style-type` value, or the tag's default |
| `Lists.FirstMarkerWins` | src/tree.js:416-435 | the first `list-style` item decides the format, whatever follows |
| `Lists.NoMarkerDefault` | src/tree.js:416-435 | without such an item, `ol` gives `decimal` and every other tag `bullet` |
| `Lists.UnstyledListFormat` | src/tree.js:416-435 | a list without a `style` attribute gets its tag's default |
| `Lists.MarkerDeclaration` | src/tree.js:416-435 | `list-style-type: v` gives the format `v` |
| `Lists.NormalizeSheet` | src/tree.js:451-496 | the loop computes the normalized sheet |
| `Lists.NormalizedAppend` | src/tree.js:454-493 | normalizing a concatenation normalizes each part, so blocks are handled independently and in order |
| `Lists.NoListsUnchanged` | src/tree.js:489-491 | a sheet without list blocks passes through unchanged |
| `Lists.EntryShape` | src/tree.js:470-485 | each item becomes a list block with the list's level and format, a style that is the list's with the item's merged over it, and one text run holding the item's content with an empty style |
| `Lists.Numbering` | src/tree.js:467-471 | item `k` is numbered `k + 1`, or the explicit positive start for every item |
| `Lists.NormalizedLength` | src/tree.js:451-496 | the output has one block per non-list block and one per list item |
| `Lists.OneItemPerListBlock` | src/tree.js:451-496 | every list block of the output has exactly one run |
| `Lists.NormalizedKeepsRuns` | src/tree.js:451-496 | when every block is a break or holds a run, so is every block of the normalised sheet |
| `Tree.Flush` | src/tree.js:532-533 | closing a paragraph appends its normalized block to the sheet and leaves no paragraph open; with none open, nothing changes |
| `Tree.Push` | src/tree.js:205-209 | a run is appended to the open paragraph, or opens a new one |
| `Tree.BrStep` | src/tree.js:557-570 | a `br` flushes the paragraph and adds a break block iff the previous element sibling is a `br`, `table` or `p` |
| `Tree.ImageRunOf` | src/tree.js:210-246 | an `img` without `src`, or whose decoder resolves to `undefined`, adds nothing; a rejected decoder is the run's error, before any style is read; an image run carries the decoded data and extension, the cascaded style, and the image's own declarations apart from width and height |
| `Tree.ImageSides` | src/tree.js:217-236 | with only a width, the height is width ÷ ratio (`Infinity` at ratio 0); with only a height, the width is height × ratio; otherwise declared sides are kept and missing ones are the image's pixels |
| `Tree.ImageWidthIsCss` | src/tree.js:215 | an image's own width is always a CSS length |
| `Tree.DropEmpty` | src/tree.js:621-629 | every survivor is a break or holds a run and comes from the sheet, and every such block of the sheet survives |
| `Tree.DropEmptyAppend` | src/tree.js:621-629 | the filter works block by block: the survivors of `a + b` are those of `a` followed by those of `b`, so order and repeats are kept |
| `Tree.DropEmptyOne` | src/tree.js:621-629 | a single block survives exactly when it is a break or holds a run |
| `Tree.ParseTree` | src/tree.js:498-630 | the sheet has no non-break block with an empty run |
| `Tree.ParseTreeNode` | src/tree.js:498-630 | the method computes the specification of `parseTreeNode` |
| `Tree.ParseTopNode` | src/tree.js:503-615 | one iteration of the top loop computes its specification step |
| `Tree.ParagraphNodeParse` | src/tree.js:191-273 | the method computes the specification of `paragraphNodeParse` |
| `Tree.ParseChildren` | src/tree.js:260-270 | the loop over the children computes the fold over them |
| `Tree.NodeTree` | src/tree.js:632-644 | the method builds, per page, the normalized sheet of its parse |
| `Tree.PagesSheets` | src/tree.js:639-641 | the loop over the pages computes the sheets of the pages in order |
| `Tree.PageSheet` | src/tree.js:640 | one page's sheet is the normalized parse of its fragment |
| `Tree.TopFailureSticks` | src/tree.js:503-615 | after a child throws, the rest of the page does not change the outcome |
| `Tree.NodeFailureSticks` | src/tree.js:260-270 | after a child throws, its siblings do not change the outcome |
| `Tree.ParseNodeGrows` | src/tree.js:191-273 | `paragraphNodeParse` only appends to the sheet |
| `Tree.NodeLoopGrows` | src/tree.js:260-270 | the child loop only appends to the sheet |
| `Tree.TopStepGrows` | src/tree.js:503-615 | each top-level step only appends to the sheet |
| `Tree.DescendGrows` | src/tree.js:526-555 | descending into an inline or block element only appends to the sheet |
| `Tree.ClosingTagFlushes` | src/tree.js:526-534 | a `p`, `h1`–`h6`, `ul` or `ol` first closes the open paragraph, whose block is then in the sheet |
| `Tree.BreakFreeExtends` | src/tree.js:191-273 | without a `br` inside, a node only adds runs to the open paragraph or opens one, never emitting a block |
| `Tree.LoopExtends` | src/tree.js:260-270 | the same holds for a sequence of such nodes |
| `Tree.ListOpensParagraph` | src/tree.js:536-554 | a `ul`/`ol` without `br` closes the open paragraph and leaves a list paragraph open, unstyled, with the level, format and start of the list |
| `Tree.TextNodeStep` | src/tree.js:197-209 | a text node adds to the open paragraph one text run with its parent's cascaded style and its raw text |
| `Tree.TextLoop` | src/tree.js:197-209 | text children add their runs to the open paragraph in order, all with their parent's style; when that style cannot be read, the first of them ends the walk with its error |
| `Tree.ListCollectsText` | src/tree.js:536-554 | a `ul`/`ol` holding only text leaves a list paragraph whose runs are exactly its children's text, in order, with the list's style; the step fails exactly when the open paragraph cannot be closed or, when the list has text, its style cannot be read |
| `Tree.OtherTagsDropped` | src/tree.js:611-612 | an element of any other tag adds nothing |
| `Tree.TableRowsShape` | src/tree.js:585-607 | the table's runs are its rows in order, and it fails iff a row fails |
| `Tree.CellsShape` | src/tree.js:588-598 | a row's cells are its `td`s in order, each with its own style and its parse, and it fails iff one of them fails |
| `Tree.TableOpensParagraph` | src/tree.js:576-609 | a table closes the open paragraph and opens a table paragraph with the table's style and one row run per `tbody > tr`, in order |
| `Tree.SheetsShape` | src/tree.js:639-641 | the build succeeds iff every page parses, and then sheet `k` is the normalized parse of page `k` |
| `Tree.NodeTreeShape` | src/tree.js:632-644 | there is one sheet per page; every block of every sheet is a break or holds a run, and every list block holds exactly one run |

## Left out

- `src/index.js`, `src/index.d.ts`, `src/tree-upgrade.js` and `src/transformers/*` are not part of this model. They are the `docx` serialisation, type declarations and an unused alternative pipeline.
- `normalizeHtml`, `cleanHtmlContent` and the HTML parser are not modelled. The model starts from a parsed DOM.
- `arrayToNodeHTMLElement` is modelled only by its result, a fragment with no tag and no attributes.
- `imageBase64ToBuffer` (base64 decoding and `sharp` metadata) is the `image` parameter of `Runs.Oracles`. Which inputs make `sharp` reject is not modelled; the parameter decides it, and `Tree.ImageRunOf` passes the rejection on.
- `calculateRatio` is modelled only as the real number the image oracle returns. Its `toFixed(2)` rounding and its errors are not modelled.
- `random` is not modelled; it depends on `Math.random` and the core does not use it.
- The `html-entities` `decode` is the `decode` parameter of `Runs.Oracles`.
- Floating point is modelled with exact reals. `Math.round` is `floor(x + 1/2)`, and `NaN` is an absent value.
- `Js.ParseFloat`: does not read `Infinity`, `+Infinity` or `-Infinity`, which JavaScript's `parseFloat` reads as infinite numbers; the model gives `NaN` for them. So `Infinity%` is `nil` here rather than an infinite `pct`, `Infinitypx` is `nil` rather than an infinite `dxa`, and a margin component `Infinitypx` is `NaN` (`Measure.ToTwips`) rather than an infinite number of twips.
- `Color.ColorToHex`: the name lookup finds only the table's own 54 keys. In JavaScript `namedColors[key]` also finds what `Object.prototype` provides under an all-lower-case key (`constructor`, `__proto__`); `colorToHex` then returns that function or object rather than a string. The model gives those two names the `#00000` fallback.
- `Measure.NormalizeMeasure`: returns the number and unit of the length, not the text `${n}pt`. Number-to-text formatting is not modelled. Where a length is split again (`splitMeasure(style.width)` for images), the model assumes the text reads back as the same number.
- Case mapping (`toUpperCase`, `toLowerCase`) is ASCII only. The Greek capitals are written out. Whitespace (`trim` and the `\s` class of `capitalize`) is the full ECMAScript set of white-space and line-terminator characters.
- `async` and `await` are modelled as plain sequential recursion.
- `Js.CollectShape`: when several cells, rows or pages throw, the model reports the first in document order. Which rejection `Promise.all` reports first is not modelled.
- The `newParagraphAfterBr` parameter of `paragraphNodeParse` is not modelled. Every caller leaves it `false`.
- `lodash.merge` is an explicit merge over the style record. It is written key by key, with `spacing` merged by side.
- `lodash.cloneDeep` and the aliasing of style objects are not modelled. `underline: {}` and `strike: {}` are flags.
- The list bullet is kept in the block kind (`Kind.List`), not in `style.bullet`. The model does not represent normalizing a sheet a second time, where the JavaScript would lose the level and format.
- The `rgba()` and `hsla()` alpha channel is computed (`round(255 a)` as hex), but no lemma is stated about it.
