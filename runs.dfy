/**
 * The page → block → run tree `src/tree.js` builds for the `docx` writer.
 *
 * A paragraph that is still being filled holds `RawRun`s, whose text is the
 * node's raw text; `normalizeParagraph` turns it into a `Block` of `Run`s,
 * whose text has been trimmed, entity-decoded and case-transformed, and is
 * `null` (here `None`) once empty. Images and table rows are the same in
 * both. The two collaborators the builder calls out to, the entity decoder
 * and the image decoder, are parameters (`Oracles`).
 */
module Runs {
  import opened Js
  import opened Measure
  import opened Styles

  /** What `imageBase64ToBuffer(src)` resolves to for a supported image; `ratio` is `calculateRatio(width, height)`. */
  datatype ImageInfo = ImageInfo(extension: string, buffer: seq<bv8>, width: nat, height: nat, ratio: real)

  /**
   * One side of an image's `transformation`: the decoded image's own pixel
   * count, the length `normalizeMeasure` gave the declaration, a bare
   * number derived from the other side, or `Infinity` (a division by a
   * ratio of `0.00`).
   */
  datatype Extent = Intrinsic(pixels: nat) | Given(length: Length) | Amount(value: real) | Infinite

  /** `transformation: { width, height, ...style }`: the two sides and the rest of the image's own style. */
  datatype Transformation = Transformation(width: Extent, height: Extent, rest: Style)

  /** An image run: `style: { type: extension, ...getStyle(node), transformation }` and `data`. */
  datatype Image = Image(extension: string, style: Style, transformation: Transformation, data: seq<bv8>)

  /** A run as the builder appends it to an open paragraph. */
  datatype RawRun =
    | RawText(style: Style, content: string)
    | RawImage(image: Image)
    | RawRow(row: Row)

  /** A run of a finished block. */
  datatype Run =
    | TextRun(style: Style, content: Option<string>)
    | ImageRun(image: Image)
    | RowRun(row: Row)

  /** `{ type: 'row', style, run: cells }` */
  datatype Row = Row(style: Style, cells: seq<Cell>)

  /** `{ type: 'cell', style, run }`: a cell's content is a whole block sequence. */
  datatype Cell = Cell(style: Style, blocks: seq<Block>)

  /** `bullet: { level, format, start }`; `format` is `undefined` for a `list-style` declaration without a value. */
  datatype Bullet = Bullet(level: nat, format: Option<string>, start: Option<int>)

  /** The `type` of a block: none (a paragraph), `list`, `table` or `break`. */
  datatype Kind = Paragraph | List(bullet: Bullet) | Table | Break

  /** A finished block of the sheet. A missing `style` is the empty style. */
  datatype Block = Block(kind: Kind, style: Style, run: seq<Run>)

  /** The paragraph accumulator while it is open. */
  datatype Pending = Pending(kind: Kind, style: Style, run: seq<RawRun>)

  /**
   * `decode` from `html-entities`, and `imageBase64ToBuffer`: `Ok(None)` for
   * `undefined`, `Fail` when the promise rejects (`sharp` cannot read the bytes).
   */
  datatype Oracles = Oracles(decode: string -> string, image: string -> Result<Option<ImageInfo>>)

  /** The style object of a run, as `reflectStyleToParagraph` spreads it. */
  function RawStyle(r: RawRun): Style {
    match r
    case RawText(s, _) => s
    case RawImage(img) => img.style
    case RawRow(row) => row.style
  }

  /** A text run whose content is whitespace only (`line.content.trim().length === 0`). */
  predicate BlankText(r: RawRun) {
    r.RawText? && IsBlank(r.content)
  }

  /** The `break` block `{ type: 'break', run: [] }`. */
  const BreakBlock := Block(Break, Empty, [])
}
