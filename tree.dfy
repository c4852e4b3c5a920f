/**
 * The block builder of `src/tree.js`: `parseTreeNode` walks the children of
 * a page (or of a table cell) and fills a sheet of blocks, keeping one
 * paragraph open at a time; `paragraphNodeParse` adds a node's text and
 * images to the open paragraph, closing it at a `<br>`; a `<table>` becomes
 * a paragraph of rows whose cells are parsed the same way; `nodeTree`
 * builds one normalized sheet per page.
 *
 * Each walk is specified by a function that folds over a prefix of the
 * children, and the methods that run the walks are proved to compute it.
 * A thrown error ends the whole build (`Fail`).
 */
module Tree {
  import opened Js
  import opened Measure
  import opened Dom
  import opened Styles
  import opened Runs
  import opened Paragraphs
  import opened Lists
  import opened Pages

  /** The state the walks thread through: the blocks emitted so far and the open paragraph, if any. */
  datatype Acc = Acc(sheet: seq<Block>, paragraph: Option<Pending>)

  /** The tags `parseTreeNode` descends into. */
  const Descended: set<string> :=
    {"span", "strong", "a", "i", "s", "u", "b", "em", "h1", "h2", "h3", "h4", "h5", "h6", "p", "ul", "ol", "li"}

  /** The tags among them that close the open paragraph first. */
  const Closing: set<string> := {"p", "h1", "h2", "h3", "h4", "h5", "h6", "ul", "ol"}

  /** The tags after which a `<br>` also emits a break block. */
  const BreakAfter: set<string> := {"br", "table", "p"}

  // ---------------------------------------------------------------------
  // The steps on the open paragraph
  // ---------------------------------------------------------------------

  /** `sheet.push(normalizeParagraph(paragraph)); paragraph = null`, when a paragraph is open. */
  function Flush(o: Oracles, acc: Acc): (r: Result<Acc>)
    ensures acc.paragraph.None? ==> r == Ok(acc)
    ensures r.Ok? ==> r.value.paragraph.None? && acc.sheet <= r.value.sheet
    ensures acc.paragraph.Some? ==>
      (r.Ok? <==> NormalizeParagraph(o.decode, acc.paragraph.value).Ok?)
      && (r.Ok? ==> r.value.sheet == acc.sheet + [NormalizeParagraph(o.decode, acc.paragraph.value).value])
  {
    match acc.paragraph
    case None => Ok(acc)
    case Some(p) =>
      match NormalizeParagraph(o.decode, p)
      case Fail(e) => Fail(e)
      case Ok(b) => Ok(Acc(acc.sheet + [b], None))
  }

  /** A run added to the open paragraph, or a new paragraph of that run alone when none is open. */
  function Push(acc: Acc, run: RawRun): (r: Acc)
    ensures r.sheet == acc.sheet && r.paragraph.Some?
    ensures acc.paragraph.Some? ==> r.paragraph.value == acc.paragraph.value.(run := acc.paragraph.value.run + [run])
    ensures acc.paragraph.None? ==> r.paragraph.value == Pending(Paragraph, Empty, [run])
  {
    match acc.paragraph
    case None => acc.(paragraph := Some(Pending(Paragraph, Empty, [run])))
    case Some(p) => acc.(paragraph := Some(p.(run := p.run + [run])))
  }

  /** A `<br>`, the `i`-th of `siblings`: the paragraph is closed, and a break follows a `br`, `table` or `p`. */
  function BrStep(o: Oracles, acc: Acc, siblings: seq<Node>, i: nat): (r: Result<Acc>)
    requires i < |siblings|
    ensures r.Ok? <==> Flush(o, acc).Ok?
    ensures r.Ok? ==> r.value.paragraph.None? && acc.sheet <= r.value.sheet
    ensures r.Ok? ==>
      var breaks := PrevElementTag(siblings, i).Some? && PrevElementTag(siblings, i).value in BreakAfter;
      |r.value.sheet| == |acc.sheet| + (if acc.paragraph.Some? then 1 else 0) + (if breaks then 1 else 0)
      && (breaks ==> r.value.sheet[|r.value.sheet| - 1] == BreakBlock)
  {
    match Flush(o, acc)
    case Fail(e) => Fail(e)
    case Ok(closed) =>
      var prev := PrevElementTag(siblings, i);
      Ok(if prev.Some? && prev.value in BreakAfter then closed.(sheet := closed.sheet + [BreakBlock]) else closed)
  }

  // ---------------------------------------------------------------------
  // Images
  // ---------------------------------------------------------------------

  /** The amount of a declared width, when it is a length (the truthy values of `style.width`). */
  function WidthAmount(w: Option<Width>): Option<real> {
    if w.Some? && w.value.CssWidth? && w.value.length.Len? then Some(w.value.length.amount) else None
  }

  /** The amount of a declared height, when it is a length. */
  function HeightAmount(h: Option<Length>): Option<real> {
    if h.Some? && h.value.Len? then Some(h.value.amount) else None
  }

  /** A side the style declares, or the decoded image's own pixel count. */
  function DeclaredWidth(w: Option<Width>, pixels: nat): Extent {
    match w
    case None => Intrinsic(pixels)
    case Some(CssWidth(l)) => Given(l)
    case Some(TableWidth(_)) => Given(NoLength)
  }

  function DeclaredHeight(h: Option<Length>, pixels: nat): Extent {
    if h.Some? then Given(h.value) else Intrinsic(pixels)
  }

  /**
   * The two sides of an image: a width alone fixes the height by the
   * ratio, a height alone fixes the width, and otherwise each side is the
   * declared one or the intrinsic one.
   */
  function Sizing(own: Style, info: ImageInfo): (Extent, Extent) {
    var w, h := WidthAmount(own.width), HeightAmount(own.height);
    if w.Some? && h.None? then
      (Amount(w.value), if info.ratio == 0.0 then Infinite else Amount(w.value / info.ratio))
    else if w.None? && h.Some? then
      (Amount(h.value * info.ratio), Amount(h.value))
    else
      (DeclaredWidth(own.width, info.width), DeclaredHeight(own.height, info.height))
  }

  /** The image run of an `<img>` whose ancestors are `ancestors`; `None` without a decodable `src`. */
  function ImageRunOf(o: Oracles, ancestors: seq<Node>, img: Node): (r: Result<Option<RawRun>>)
    requires img.Element?
    ensures Attr(img, "src").None? || Attr(img, "src").value == "" ==> r == Ok(None)
    ensures Attr(img, "src").Some? && Attr(img, "src").value != "" ==>
      var image := o.image(Attr(img, "src").value);
      (image.Fail? ==> r == Fail(image.error)) && (image == Ok(None) ==> r == Ok(None))
    ensures r.Ok? && r.value.Some? ==>
      var src := Attr(img, "src").value;
      var run := r.value.value;
      o.image(src).Ok? && o.image(src).value.Some? && run.RawImage?
      && run.image.data == o.image(src).value.value.buffer
      && run.image.extension == o.image(src).value.value.extension
      && GetStyle(ancestors + [img]) == Ok(run.image.style)
      && CurrentStyle(img).Ok?
      && run.image.transformation.rest == CurrentStyle(img).value.(width := None, height := None)
  {
    var src := Attr(img, "src");
    if src.None? || src.value == "" then Ok(None)
    else
      match o.image(src.value)
      case Fail(e) => Fail(e)
      case Ok(None) => Ok(None)
      case Ok(Some(info)) =>
        match CurrentStyle(img)
        case Fail(e) => Fail(e)
        case Ok(own) =>
          match GetStyle(ancestors + [img])
          case Fail(e) => Fail(e)
          case Ok(style) =>
            var (w, h) := Sizing(own, info);
            var t := Transformation(w, h, own.(width := None, height := None));
            Ok(Some(RawImage(Image(info.extension, style, t, info.buffer))))
  }

  // ---------------------------------------------------------------------
  // The walks, as functions
  // ---------------------------------------------------------------------

  /** The blocks kept at the end of `parseTreeNode`: breaks, and blocks with at least one run. */
  function DropEmpty(sheet: seq<Block>): (r: seq<Block>)
    ensures |r| <= |sheet|
    ensures forall k :: 0 <= k < |r| ==> r[k].kind.Break? || r[k].run != []
    ensures forall k :: 0 <= k < |r| ==> r[k] in sheet
    ensures forall b :: b in sheet && (b.kind.Break? || b.run != []) ==> b in r
  {
    if sheet == [] then []
    else
      var rest := DropEmpty(sheet[1..]);
      if sheet[0].kind.Break? || sheet[0].run != [] then [sheet[0]] + rest else rest
  }

  /** Dropping empty blocks works block by block, so the survivors keep their order and number. */
  lemma {:induction false} DropEmptyAppend(a: seq<Block>, b: seq<Block>)
    ensures DropEmpty(a + b) == DropEmpty(a) + DropEmpty(b)
  {
    if a == [] {
      assert a + b == b;
    } else {
      assert (a + b)[0] == a[0] && (a + b)[1..] == a[1..] + b;
      DropEmptyAppend(a[1..], b);
    }
  }

  /** A single block survives exactly when it is a break or holds a run. */
  lemma DropEmptyOne(b: Block)
    ensures DropEmpty([b]) == if b.kind.Break? || b.run != [] then [b] else []
  {
    assert [b][1..] == [];
  }

  /** What `parseTreeNode(main)` returns or throws, `chain` being the ancestors of `main`. */
  function ParseTree(o: Oracles, chain: seq<Node>, main: Node): (r: Result<seq<Block>>)
    requires main.Element?
    ensures r.Ok? ==> forall k :: 0 <= k < |r.value| ==> r.value[k].kind.Break? || r.value[k].run != []
    decreases Size(main), 0, 0
  {
    var kids := main.children;
    assert kids[..|kids|] == kids;
    match TopLoop(o, chain + [main], kids, |kids|)
    case Fail(e) => Fail(e)
    case Ok(acc) =>
      match Flush(o, acc)
      case Fail(e) => Fail(e)
      case Ok(closed) => Ok(DropEmpty(closed.sheet))
  }

  /** The state after `parseTreeNode`'s loop has handled the first `n` of `kids`, the children of the last of `path`. */
  function TopLoop(o: Oracles, path: seq<Node>, kids: seq<Node>, n: nat): Result<Acc>
    requires |path| >= 1 && n <= |kids|
    decreases ForestSize(kids[..n]), 6, 0
  {
    if n == 0 then Ok(Acc([], None))
    else
      ForestSizePrefix(kids, n);
      match TopLoop(o, path, kids, n - 1)
      case Fail(e) => Fail(e)
      case Ok(acc) => TopStep(o, path, kids, n - 1, acc)
  }

  /** One iteration of `parseTreeNode`'s loop, on the child `kids[i]`. */
  function TopStep(o: Oracles, path: seq<Node>, kids: seq<Node>, i: nat, acc: Acc): Result<Acc>
    requires |path| >= 1 && i < |kids|
    decreases Size(kids[i]), 5, 0
  {
    var node := kids[i];
    if node.Text? then ParseNode(o, path, kids, i, acc)
    else if node.tag in Descended then Descend(o, path, kids, i, acc)
    else if node.tag == "br" then BrStep(o, acc, kids, i)
    else if node.tag == "img" then ParseNode(o, path, kids, i, acc)
    else if node.tag == "table" then TableStep(o, path, kids, i, acc)
    else Ok(acc)
  }

  /**
   * An inline or block element at the top: `p`, the headings and the lists
   * close the open paragraph, a list opens a list paragraph when none is
   * open, and the children go through `paragraphNodeParse`.
   */
  function Descend(o: Oracles, path: seq<Node>, kids: seq<Node>, i: nat, acc: Acc): Result<Acc>
    requires |path| >= 1 && i < |kids| && kids[i].Element?
    decreases Size(kids[i]), 4, 0
  {
    var node := kids[i];
    var closed := if node.tag in Closing then Flush(o, acc) else Ok(acc);
    if closed.Fail? then Fail(closed.error)
    else
      var ready :=
        if node.tag in {"ul", "ol"} && closed.value.paragraph.None?
        then closed.value.(paragraph := Some(Pending(List(BulletOf(path, node)), Empty, [])))
        else closed.value;
      assert node.children[..|node.children|] == node.children;
      NodeLoop(o, path + [node], node.children, |node.children|, ready)
  }

  /** A `<table>` at the top: the open paragraph is closed and a table paragraph of its rows is left open. */
  function TableStep(o: Oracles, path: seq<Node>, kids: seq<Node>, i: nat, acc: Acc): Result<Acc>
    requires |path| >= 1 && i < |kids| && kids[i].Element?
    decreases Size(kids[i]), 4, 0
  {
    var node := kids[i];
    match Flush(o, acc)
    case Fail(e) => Fail(e)
    case Ok(closed) =>
      match CurrentStyle(node)
      case Fail(e) => Fail(e)
      case Ok(style) =>
        match TableRows(o, Rows(path, node), Size(node))
        case Fail(e) => Fail(e)
        case Ok(rows) => Ok(closed.(paragraph := Some(Pending(Table, style, rows))))
  }

  /** What `paragraphNodeParse(sheet, node, paragraph)` leaves, for the node `siblings[i]` whose ancestors are `ancestors`. */
  function ParseNode(o: Oracles, ancestors: seq<Node>, siblings: seq<Node>, i: nat, acc: Acc): Result<Acc>
    requires |ancestors| >= 1 && i < |siblings|
    decreases Size(siblings[i]), 1, 0
  {
    var node := siblings[i];
    match node
    case Text(raw) =>
      var style := GetStyle(ancestors);
      if style.Fail? then Fail(style.error) else Ok(Push(acc, RawText(style.value, raw)))
    case Element(tag, _, children) =>
      if tag == "img" then
        var run := ImageRunOf(o, ancestors, node);
        if run.Fail? then Fail(run.error)
        else Ok(if run.value.Some? then Push(acc, run.value.value) else acc)
      else if tag == "br" then BrStep(o, acc, siblings, i)
      else
        assert children[..|children|] == children;
        NodeLoop(o, ancestors + [node], children, |children|, acc)
  }

  /** The state after the first `n` of `kids`, the children of the last of `path`, have gone through `paragraphNodeParse` from `acc`. */
  function NodeLoop(o: Oracles, path: seq<Node>, kids: seq<Node>, n: nat, acc: Acc): Result<Acc>
    requires |path| >= 1 && n <= |kids|
    decreases ForestSize(kids[..n]), 2, 0
  {
    if n == 0 then Ok(acc)
    else
      ForestSizePrefix(kids, n);
      match NodeLoop(o, path, kids, n - 1, acc)
      case Fail(e) => Fail(e)
      case Ok(a) => ParseNode(o, path, kids, n - 1, a)
  }

  /**
   * `Promise.all` over a table's `rows`, each converted by `RowOf`; `bound`
   * is the size of the table, which every row is smaller than.
   */
  function TableRows(o: Oracles, rows: seq<Located>, bound: nat): Result<seq<RawRun>>
    requires forall k :: 0 <= k < |rows| ==> rows[k].node.Element? && Size(rows[k].node) < bound
    decreases bound, 3, 0
  {
    match Collect(seq(|rows|, k requires 0 <= k < |rows| => RowOf(o, rows[k])))
    case Fail(e) => Fail(e)
    case Ok(converted) => Ok(seq(|converted|, k requires 0 <= k < |converted| => RawRow(converted[k])))
  }

  /** `{ type: 'row', style: getCurrentNodeStyle(trNode), run: cells }`, the cells taken first. */
  function RowOf(o: Oracles, tr: Located): Result<Row>
    requires tr.node.Element?
    decreases Size(tr.node), 2, 0
  {
    match CellsOf(o, tr)
    case Fail(e) => Fail(e)
    case Ok(cells) =>
      match CurrentStyle(tr.node)
      case Fail(e) => Fail(e)
      case Ok(style) => Ok(Row(style, cells))
  }

  /** `Promise.all` over the `td` cells of a row. */
  function CellsOf(o: Oracles, tr: Located): Result<seq<Cell>>
    requires tr.node.Element?
    decreases Size(tr.node), 1, 0
  {
    var tds := Cells(tr.ancestors, tr.node);
    Collect(seq(|tds|, k requires 0 <= k < |tds| => CellOf(o, tds[k])))
  }

  /** `{ type: 'cell', style: getCurrentNodeStyle(tdNode), run: await parseTreeNode(tdNode) }` */
  function CellOf(o: Oracles, td: Located): Result<Cell>
    requires td.node.Element?
    decreases Size(td.node), 1, 0
  {
    match CurrentStyle(td.node)
    case Fail(e) => Fail(e)
    case Ok(style) =>
      match ParseTree(o, td.ancestors, td.node)
      case Fail(e) => Fail(e)
      case Ok(blocks) => Ok(Cell(style, blocks))
  }

  /** What `nodeTree` gives for the children of `<body>`: one normalized sheet per page. */
  function Sheets(o: Oracles, body: seq<Node>): Result<seq<seq<Block>>> {
    SheetsOf(o, Pages.Pages(body))
  }

  /** The sheets of `pages`, in order; the first page that throws ends `nodeTree`. */
  function SheetsOf(o: Oracles, pages: seq<seq<Node>>): Result<seq<seq<Block>>> {
    Collect(SheetResults(o, pages))
  }

  /** The sheet of each page, or its error. */
  function SheetResults(o: Oracles, pages: seq<seq<Node>>): (r: seq<Result<seq<Block>>>)
    ensures |r| == |pages| && forall k :: 0 <= k < |pages| ==> r[k] == SheetOf(o, pages[k])
  {
    seq(|pages|, k requires 0 <= k < |pages| => SheetOf(o, pages[k]))
  }

  /** `normalizeSheet(await parseTreeNode(page))` for the page holding `nodes`. */
  function SheetOf(o: Oracles, nodes: seq<Node>): Result<seq<Block>> {
    match ParseTree(o, [], Fragment(nodes))
    case Fail(e) => Fail(e)
    case Ok(sheet) => Ok(NormalizedSheet(sheet))
  }

  // ---------------------------------------------------------------------
  // The walks, as methods
  // ---------------------------------------------------------------------

  /** `parseTreeNode(mainNode)` */
  method ParseTreeNode(o: Oracles, chain: seq<Node>, main: Node) returns (r: Result<seq<Block>>)
    requires main.Element?
    ensures r == ParseTree(o, chain, main)
  {
    var path := chain + [main];
    var kids := main.children;
    var acc: Result<Acc> := Ok(Acc([], None));
    var i := 0;
    while i < |kids| && acc.Ok?
      invariant 0 <= i <= |kids|
      invariant acc == TopLoop(o, path, kids, i)
      decreases |kids| - i
    {
      acc := ParseTopNode(o, path, kids, i, acc.value);
      i := i + 1;
    }
    if acc.Fail? {
      TopFailureSticks(o, path, kids, i, |kids|);
      return Fail(acc.error);
    }
    var closed := Flush(o, acc.value);
    if closed.Fail? {
      return Fail(closed.error);
    }
    r := Ok(DropEmpty(closed.value.sheet));
  }

  /** The `switch` in the loop of `parseTreeNode`, for the child `kids[i]`. */
  method ParseTopNode(o: Oracles, path: seq<Node>, kids: seq<Node>, i: nat, acc: Acc) returns (r: Result<Acc>)
    requires |path| >= 1 && i < |kids|
    ensures r == TopStep(o, path, kids, i, acc)
  {
    var node := kids[i];
    if node.Text? {
      r := ParagraphNodeParse(o, path, kids, i, acc);
      return;
    }
    var tag := node.tag;
    if tag in Descended {
      var closed := Ok(acc);
      if tag in Closing {
        closed := Flush(o, acc);
        if closed.Fail? {
          return Fail(closed.error);
        }
      }
      var a := closed.value;
      if tag in {"ul", "ol"} && a.paragraph.None? {
        var format := GetListFormat(node);
        a := a.(paragraph := Some(Pending(List(Bullet(ListLevel(path), format, StartAttr(node))), Empty, [])));
      }
      r := ParseChildren(o, path + [node], node.children, a);
    } else if tag == "br" {
      r := BrStep(o, acc, kids, i);
    } else if tag == "img" {
      r := ParagraphNodeParse(o, path, kids, i, acc);
    } else if tag == "table" {
      var closed := Flush(o, acc);
      if closed.Fail? {
        return Fail(closed.error);
      }
      var style := GetCurrentNodeStyle(node);
      if style.Fail? {
        return Fail(style.error);
      }
      var rows := TableRows(o, Rows(path, node), Size(node));
      if rows.Fail? {
        return Fail(rows.error);
      }
      r := Ok(closed.value.(paragraph := Some(Pending(Table, style.value, rows.value))));
    } else {
      r := Ok(acc);
    }
  }

  /** `paragraphNodeParse(sheet, node, paragraph)` for the node `siblings[i]`. */
  method ParagraphNodeParse(o: Oracles, ancestors: seq<Node>, siblings: seq<Node>, i: nat, acc: Acc)
    returns (r: Result<Acc>)
    requires |ancestors| >= 1 && i < |siblings|
    ensures r == ParseNode(o, ancestors, siblings, i, acc)
    decreases Size(siblings[i]), 1
  {
    var node := siblings[i];
    if node.Text? {
      var style := GetStyle(ancestors);
      if style.Fail? {
        return Fail(style.error);
      }
      return Ok(Push(acc, RawText(style.value, node.raw)));
    }
    if node.tag == "img" {
      var image := ImageRunOf(o, ancestors, node);
      if image.Fail? {
        return Fail(image.error);
      }
      r := Ok(if image.value.Some? then Push(acc, image.value.value) else acc);
    } else if node.tag == "br" {
      r := BrStep(o, acc, siblings, i);
    } else {
      r := ParseChildren(o, ancestors + [node], node.children, acc);
    }
  }

  /** The `for (const child of node.childNodes)` loops: every child through `paragraphNodeParse`, the paragraph threaded. */
  method ParseChildren(o: Oracles, path: seq<Node>, kids: seq<Node>, acc: Acc) returns (r: Result<Acc>)
    requires |path| >= 1
    ensures r == NodeLoop(o, path, kids, |kids|, acc)
    decreases ForestSize(kids), 2
  {
    r := Ok(acc);
    var j := 0;
    while j < |kids| && r.Ok?
      invariant 0 <= j <= |kids|
      invariant r == NodeLoop(o, path, kids, j, acc)
      decreases |kids| - j
    {
      SizeWithin(kids, j);
      r := ParagraphNodeParse(o, path, kids, j, r.value);
      j := j + 1;
    }
    if r.Fail? {
      NodeFailureSticks(o, path, kids, acc, j, |kids|);
    }
  }

  /** `nodeTree(content)`, from the children of `<body>`. */
  method NodeTree(o: Oracles, body: seq<Node>) returns (r: Result<seq<seq<Block>>>)
    ensures r == Sheets(o, body)
  {
    var pages := PageNodes(body);
    r := PagesSheets(o, pages, Pages.Pages(body));
  }

  /** The `for (const index in pages)` loop of `nodeTree`, over the page roots `pages` holding the node lists `parts`. */
  method PagesSheets(o: Oracles, pages: seq<Node>, ghost parts: seq<seq<Node>>) returns (r: Result<seq<seq<Block>>>)
    requires |pages| == |parts| && forall k :: 0 <= k < |pages| ==> pages[k] == Fragment(parts[k])
    ensures r == SheetsOf(o, parts)
  {
    ghost var results := SheetResults(o, parts);
    r := Ok([]);
    var index := 0;
    while index < |pages| && r.Ok?
      invariant 0 <= index <= |pages|
      invariant r == Collect(results[..index])
      decreases |pages| - index
    {
      var sheet := PageSheet(o, pages[index], parts[index]);
      assert sheet == results[index];
      CollectPrefixStep(results, index);
      if sheet.Ok? {
        r := Ok(r.value + [sheet.value]);
      } else {
        r := Fail(sheet.error);
      }
      index := index + 1;
    }
    if r.Fail? {
      CollectFailureSticks(results, index);
    }
    assert results[..|results|] == results;
  }

  /** `sheets[index] = normalizeSheet(await parseTreeNode(pages[index]))`, one page of `nodeTree`'s loop. */
  method PageSheet(o: Oracles, page: Node, ghost nodes: seq<Node>) returns (r: Result<seq<Block>>)
    requires page == Fragment(nodes)
    ensures r == SheetOf(o, nodes)
  {
    var sheet := ParseTreeNode(o, [], page);
    if sheet.Fail? {
      return Fail(sheet.error);
    }
    var normalized := NormalizeSheet(sheet.value);
    r := Ok(normalized);
  }

  // ---------------------------------------------------------------------
  // What the walks keep between steps
  // ---------------------------------------------------------------------

  lemma SizeWithin(kids: seq<Node>, j: nat)
    requires j < |kids|
    ensures Size(kids[j]) <= ForestSize(kids)
  {
    ForestSizePrefix(kids, j + 1);
    assert kids == kids[..j + 1] + kids[j + 1..];
    ForestSizeAppend(kids[..j + 1], kids[j + 1..]);
  }

  /** Once a child has thrown, the rest of `parseTreeNode`'s loop is not reached. */
  lemma {:induction false} TopFailureSticks(o: Oracles, path: seq<Node>, kids: seq<Node>, m: nat, n: nat)
    requires |path| >= 1 && m <= n <= |kids| && TopLoop(o, path, kids, m).Fail?
    ensures TopLoop(o, path, kids, n) == TopLoop(o, path, kids, m)
    decreases n
  {
    if m < n {
      TopFailureSticks(o, path, kids, m, n - 1);
    }
  }

  /** The same for the loop over a node's children. */
  lemma {:induction false} NodeFailureSticks(o: Oracles, path: seq<Node>, kids: seq<Node>, acc: Acc, m: nat, n: nat)
    requires |path| >= 1 && m <= n <= |kids| && NodeLoop(o, path, kids, m, acc).Fail?
    ensures NodeLoop(o, path, kids, n, acc) == NodeLoop(o, path, kids, m, acc)
    decreases n
  {
    if m < n {
      NodeFailureSticks(o, path, kids, acc, m, n - 1);
    }
  }

  // ---------------------------------------------------------------------
  // Properties of the walks
  // ---------------------------------------------------------------------

  /** `paragraphNodeParse` only appends to the sheet. */
  lemma {:induction false} ParseNodeGrows(o: Oracles, ancestors: seq<Node>, siblings: seq<Node>, i: nat, acc: Acc)
    requires |ancestors| >= 1 && i < |siblings|
    ensures ParseNode(o, ancestors, siblings, i, acc).Ok? ==>
      acc.sheet <= ParseNode(o, ancestors, siblings, i, acc).value.sheet
    decreases Size(siblings[i]), 1, 0
  {
    var node := siblings[i];
    if node.Element? && node.tag != "img" && node.tag != "br" {
      assert node.children[..|node.children|] == node.children;
      NodeLoopGrows(o, ancestors + [node], node.children, |node.children|, acc);
    }
  }

  /** And so does a loop of it over children. */
  lemma {:induction false} NodeLoopGrows(o: Oracles, path: seq<Node>, kids: seq<Node>, n: nat, acc: Acc)
    requires |path| >= 1 && n <= |kids|
    ensures NodeLoop(o, path, kids, n, acc).Ok? ==> acc.sheet <= NodeLoop(o, path, kids, n, acc).value.sheet
    decreases ForestSize(kids[..n]), 2, 0
  {
    if n > 0 {
      ForestSizePrefix(kids, n);
      NodeLoopGrows(o, path, kids, n - 1, acc);
      var mid := NodeLoop(o, path, kids, n - 1, acc);
      if mid.Ok? {
        ParseNodeGrows(o, path, kids, n - 1, mid.value);
      }
    }
  }

  /** A step of `parseTreeNode`'s loop only appends to the sheet. */
  lemma TopStepGrows(o: Oracles, path: seq<Node>, kids: seq<Node>, i: nat, acc: Acc)
    requires |path| >= 1 && i < |kids|
    ensures TopStep(o, path, kids, i, acc).Ok? ==> acc.sheet <= TopStep(o, path, kids, i, acc).value.sheet
  {
    var node := kids[i];
    if node.Text? || node.tag == "img" {
      assert TopStep(o, path, kids, i, acc) == ParseNode(o, path, kids, i, acc);
      ParseNodeGrows(o, path, kids, i, acc);
    } else if node.tag in Descended {
      assert TopStep(o, path, kids, i, acc) == Descend(o, path, kids, i, acc);
      DescendGrows(o, path, kids, i, acc);
    } else if node.tag == "table" {
      assert TopStep(o, path, kids, i, acc) == TableStep(o, path, kids, i, acc);
      TableStepGrows(o, path, kids, i, acc);
    }
  }

  /** A table at the top closes the paragraph before it and only appends to the sheet. */
  lemma TableStepGrows(o: Oracles, path: seq<Node>, kids: seq<Node>, i: nat, acc: Acc)
    requires |path| >= 1 && i < |kids| && kids[i].Element?
    ensures TableStep(o, path, kids, i, acc).Ok? ==> acc.sheet <= TableStep(o, path, kids, i, acc).value.sheet
  {
  }

  lemma DescendGrows(o: Oracles, path: seq<Node>, kids: seq<Node>, i: nat, acc: Acc)
    requires |path| >= 1 && i < |kids| && kids[i].Element?
    ensures Descend(o, path, kids, i, acc).Ok? ==> acc.sheet <= Descend(o, path, kids, i, acc).value.sheet
  {
    var node := kids[i];
    var closed := if node.tag in Closing then Flush(o, acc) else Ok(acc);
    if closed.Ok? {
      var ready :=
        if node.tag in {"ul", "ol"} && closed.value.paragraph.None?
        then closed.value.(paragraph := Some(Pending(List(BulletOf(path, node)), Empty, [])))
        else closed.value;
      NodeLoopGrows(o, path + [node], node.children, |node.children|, ready);
      assert node.children[..|node.children|] == node.children;
    }
  }

  /**
   * A `p`, a heading or a list at the top closes the paragraph that was
   * open: its normalized block follows the blocks before it.
   */
  lemma ClosingTagFlushes(o: Oracles, path: seq<Node>, kids: seq<Node>, i: nat, acc: Acc)
    requires |path| >= 1 && i < |kids| && kids[i].Element? && kids[i].tag in Closing && acc.paragraph.Some?
    ensures var r := TopStep(o, path, kids, i, acc);
      r.Ok? ==>
        NormalizeParagraph(o.decode, acc.paragraph.value).Ok?
        && acc.sheet + [NormalizeParagraph(o.decode, acc.paragraph.value).value] <= r.value.sheet
  {
    assert kids[i].tag in Descended;
    var node := kids[i];
    var closed := Flush(o, acc);
    if closed.Ok? {
      var ready :=
        if node.tag in {"ul", "ol"} && closed.value.paragraph.None?
        then closed.value.(paragraph := Some(Pending(List(BulletOf(path, node)), Empty, [])))
        else closed.value;
      NodeLoopGrows(o, path + [node], node.children, |node.children|, ready);
      assert node.children[..|node.children|] == node.children;
    }
  }

  /** A node without a `<br>` anywhere in it. */
  predicate BreakFree(n: Node)
    decreases n
  {
    match n
    case Text(_) => true
    case Element(tag, _, kids) => tag != "br" && forall k :: 0 <= k < |kids| ==> BreakFree(kids[k])
  }

  /**
   * `after` continues `before`: no block was added, and a paragraph that
   * was open is still open, of the same kind and style, its runs extended.
   */
  predicate Extends(before: Acc, after: Acc) {
    after.sheet == before.sheet
    && (before.paragraph.Some? ==>
          after.paragraph.Some?
          && after.paragraph.value.kind == before.paragraph.value.kind
          && after.paragraph.value.style == before.paragraph.value.style
          && before.paragraph.value.run <= after.paragraph.value.run)
  }

  lemma ExtendsTransitive(a: Acc, b: Acc, c: Acc)
    requires Extends(a, b) && Extends(b, c)
    ensures Extends(a, c)
  {
    if a.paragraph.Some? {
      var x, y, z := a.paragraph.value.run, b.paragraph.value.run, c.paragraph.value.run;
      assert y[..|x|] == x;
      assert z[..|y|][..|x|] == z[..|x|];
    }
  }

  /**
   * Only a `<br>` closes a paragraph inside `paragraphNodeParse`: a node
   * without one adds no block and only appends runs to the open paragraph.
   */
  lemma {:induction false} BreakFreeExtends(o: Oracles, ancestors: seq<Node>, siblings: seq<Node>, i: nat, acc: Acc)
    requires |ancestors| >= 1 && i < |siblings| && BreakFree(siblings[i])
    ensures ParseNode(o, ancestors, siblings, i, acc).Ok? ==>
      Extends(acc, ParseNode(o, ancestors, siblings, i, acc).value)
    decreases Size(siblings[i]), 1, 0
  {
    var node := siblings[i];
    if node.Element? && node.tag != "img" {
      assert node.children[..|node.children|] == node.children;
      LoopExtends(o, ancestors + [node], node.children, |node.children|, acc);
    }
  }

  lemma {:induction false} LoopExtends(o: Oracles, path: seq<Node>, kids: seq<Node>, n: nat, acc: Acc)
    requires |path| >= 1 && n <= |kids| && forall k :: 0 <= k < |kids| ==> BreakFree(kids[k])
    ensures NodeLoop(o, path, kids, n, acc).Ok? ==> Extends(acc, NodeLoop(o, path, kids, n, acc).value)
    decreases ForestSize(kids[..n]), 2, 0
  {
    if n > 0 {
      ForestSizePrefix(kids, n);
      LoopExtends(o, path, kids, n - 1, acc);
      var mid := NodeLoop(o, path, kids, n - 1, acc);
      if mid.Ok? {
        BreakFreeExtends(o, path, kids, n - 1, mid.value);
        var last := ParseNode(o, path, kids, n - 1, mid.value);
        if last.Ok? {
          ExtendsTransitive(acc, mid.value, last.value);
        }
      }
    }
  }

  /**
   * A list at the top without a `<br>` in it becomes one list paragraph,
   * left open, with the list's bullet: the blocks before it are the
   * sheet with the earlier paragraph closed.
   */
  lemma ListOpensParagraph(o: Oracles, path: seq<Node>, kids: seq<Node>, i: nat, acc: Acc)
    requires |path| >= 1 && i < |kids| && kids[i].Element? && kids[i].tag in {"ul", "ol"} && BreakFree(kids[i])
    ensures var r := TopStep(o, path, kids, i, acc);
      r.Ok? ==>
        Flush(o, acc).Ok? && r.value.sheet == Flush(o, acc).value.sheet
        && r.value.paragraph.Some?
        && r.value.paragraph.value.kind == List(BulletOf(path, kids[i]))
        && r.value.paragraph.value.style == Empty
  {
    var node := kids[i];
    assert node.tag in Descended && node.tag in Closing;
    var closed := Flush(o, acc);
    if closed.Ok? {
      var ready := closed.value.(paragraph := Some(Pending(List(BulletOf(path, node)), Empty, [])));
      LoopExtends(o, path + [node], node.children, |node.children|, ready);
      assert node.children[..|node.children|] == node.children;
    }
  }

  /** The text runs, in order, of text nodes whose parent has the cascaded style `style`. */
  function TextRuns(style: Style, texts: seq<Node>): seq<RawRun>
    requires forall k :: 0 <= k < |texts| ==> texts[k].Text?
  {
    seq(|texts|, k requires 0 <= k < |texts| => RawText(style, texts[k].raw))
  }

  /** The open paragraph of `acc` with `runs` added at its end. */
  function Appended(acc: Acc, runs: seq<RawRun>): Acc
    requires acc.paragraph.Some?
  {
    acc.(paragraph := Some(acc.paragraph.value.(run := acc.paragraph.value.run + runs)))
  }

  /** One text node added to the open paragraph by `paragraphNodeParse`, with its parent's style. */
  lemma TextNodeStep(o: Oracles, path: seq<Node>, kids: seq<Node>, n: nat, acc: Acc, style: Style)
    requires |path| >= 1 && 0 < n <= |kids| && acc.paragraph.Some? && GetStyle(path) == Ok(style)
    requires forall k :: 0 <= k < |kids| ==> kids[k].Text?
    ensures ParseNode(o, path, kids, n - 1, Appended(acc, TextRuns(style, kids[..n - 1])))
      == Ok(Appended(acc, TextRuns(style, kids[..n])))
  {
    var before, run := TextRuns(style, kids[..n - 1]), RawText(style, kids[n - 1].raw);
    assert TextRuns(style, kids[..n]) == before + [run];
    assert acc.paragraph.value.run + before + [run] == acc.paragraph.value.run + (before + [run]);
  }

  /**
   * Text children going through `paragraphNodeParse` into an open paragraph:
   * each adds a text run with its parent's style, unless that style fails.
   */
  lemma {:induction false} TextLoop(o: Oracles, path: seq<Node>, kids: seq<Node>, n: nat, acc: Acc)
    requires |path| >= 1 && n <= |kids| && acc.paragraph.Some?
    requires forall k :: 0 <= k < |kids| ==> kids[k].Text?
    ensures var r := NodeLoop(o, path, kids, n, acc);
      var style := GetStyle(path);
      (style.Fail? ==> r == if n == 0 then Ok(acc) else Fail(style.error))
      && (style.Ok? ==> r == Ok(Appended(acc, TextRuns(style.value, kids[..n]))))
  {
    var style := GetStyle(path);
    if n == 0 {
      if style.Ok? {
        assert TextRuns(style.value, kids[..0]) == [];
        assert acc.paragraph.value.run + [] == acc.paragraph.value.run;
        assert Appended(acc, []) == acc;
      }
    } else {
      TextLoop(o, path, kids, n - 1, acc);
      if style.Ok? {
        TextNodeStep(o, path, kids, n, acc, style.value);
      }
    }
  }

  /**
   * A `ul` or `ol` holding only text: once it is open, the list paragraph
   * holds one text run per child, in order, with the list's cascaded style;
   * the step fails exactly when the open paragraph cannot be closed or, when
   * there is text, when the list's style cannot be read.
   */
  lemma ListCollectsText(o: Oracles, path: seq<Node>, kids: seq<Node>, i: nat, acc: Acc)
    requires |path| >= 1 && i < |kids| && kids[i].Element? && kids[i].tag in {"ul", "ol"}
    requires forall k :: 0 <= k < |kids[i].children| ==> kids[i].children[k].Text?
    ensures var r := TopStep(o, path, kids, i, acc);
      var style := GetStyle(path + [kids[i]]);
      (r.Ok? <==> Flush(o, acc).Ok? && (kids[i].children == [] || style.Ok?))
      && (r.Ok? ==> r.value.paragraph.Some? && r.value.paragraph.value.kind == List(BulletOf(path, kids[i])))
      && (r.Ok? && kids[i].children == [] ==> r.value.paragraph.value.run == [])
      && (r.Ok? && style.Ok? ==> r.value.paragraph.value.run == TextRuns(style.value, kids[i].children))
  {
    var node := kids[i];
    assert node.tag in Descended && node.tag in Closing;
    assert TopStep(o, path, kids, i, acc) == Descend(o, path, kids, i, acc);
    var closed := Flush(o, acc);
    if closed.Ok? {
      var ready := closed.value.(paragraph := Some(Pending(List(BulletOf(path, node)), Empty, [])));
      TextLoop(o, path + [node], node.children, |node.children|, ready);
      assert node.children[..|node.children|] == node.children;
    }
  }

  /** A top-level element `parseTreeNode` has no case for (a `div`, say) is dropped with all it holds. */
  lemma OtherTagsDropped(o: Oracles, path: seq<Node>, kids: seq<Node>, n: nat)
    requires |path| >= 1 && 0 < n <= |kids| && kids[n - 1].Element?
    requires kids[n - 1].tag !in Descended && kids[n - 1].tag !in {"br", "img", "table"}
    ensures TopLoop(o, path, kids, n) == TopLoop(o, path, kids, n - 1)
  {
  }

  /**
   * The rows of a table are its `tbody > tr` rows in order, each converted
   * by `RowOf`; the first row that throws is the table's error.
   */
  lemma TableRowsShape(o: Oracles, rows: seq<Located>, bound: nat)
    requires forall k :: 0 <= k < |rows| ==> rows[k].node.Element? && Size(rows[k].node) < bound
    ensures var r := TableRows(o, rows, bound);
      (r.Ok? <==> forall k :: 0 <= k < |rows| ==> RowOf(o, rows[k]).Ok?)
      && (r.Ok? ==> |r.value| == |rows| && forall k :: 0 <= k < |rows| ==> r.value[k] == RawRow(RowOf(o, rows[k]).value))
  {
    var results := seq(|rows|, k requires 0 <= k < |rows| => RowOf(o, rows[k]));
    assert forall k :: 0 <= k < |rows| ==> results[k] == RowOf(o, rows[k]);
    CollectShape(results);
    if Collect(results).Ok? {
      var converted := Collect(results).value;
      assert TableRows(o, rows, bound) == Ok(seq(|converted|, k requires 0 <= k < |converted| => RawRow(converted[k])));
    }
  }

  /** The cells of a row are its `td` descendants in order, each with its own style and parsed content. */
  lemma CellsShape(o: Oracles, tr: Located)
    requires tr.node.Element?
    ensures var r := CellsOf(o, tr);
      var tds := Cells(tr.ancestors, tr.node);
      (r.Ok? <==> forall k :: 0 <= k < |tds| ==> CurrentStyle(tds[k].node).Ok? && ParseTree(o, tds[k].ancestors, tds[k].node).Ok?)
      && (r.Ok? ==> |r.value| == |tds| && forall k :: 0 <= k < |tds| ==>
            r.value[k] == Cell(CurrentStyle(tds[k].node).value, ParseTree(o, tds[k].ancestors, tds[k].node).value))
  {
    var tds := Cells(tr.ancestors, tr.node);
    var results := seq(|tds|, k requires 0 <= k < |tds| => CellOf(o, tds[k]));
    assert forall k :: 0 <= k < |tds| ==> results[k] == CellOf(o, tds[k]);
    assert CellsOf(o, tr) == Collect(results);
    CollectShape(results);
  }

  /**
   * A table at the top closes the open paragraph and leaves a table
   * paragraph open, with the table's own style and one row run per row.
   */
  lemma TableOpensParagraph(o: Oracles, path: seq<Node>, kids: seq<Node>, i: nat, acc: Acc)
    requires |path| >= 1 && i < |kids| && kids[i].Element? && kids[i].tag == "table"
    ensures var r := TopStep(o, path, kids, i, acc);
      r.Ok? ==>
        Flush(o, acc).Ok? && r.value.sheet == Flush(o, acc).value.sheet
        && CurrentStyle(kids[i]).Ok?
        && r.value.paragraph.Some?
        && r.value.paragraph.value.kind == Table && r.value.paragraph.value.style == CurrentStyle(kids[i]).value
        && |r.value.paragraph.value.run| == |Rows(path, kids[i])|
        && forall k :: 0 <= k < |Rows(path, kids[i])| ==>
             RowOf(o, Rows(path, kids[i])[k]).Ok?
             && r.value.paragraph.value.run[k] == RawRow(RowOf(o, Rows(path, kids[i])[k]).value)
  {
    assert kids[i].tag !in Descended;
    TableRowsShape(o, Rows(path, kids[i]), Size(kids[i]));
  }

  /**
   * What an image's two sides come to: a width alone gives the height
   * `width / ratio` (the aspect ratio kept), a height alone gives the width
   * `height * ratio`, and otherwise each side is the declared length, or
   * the decoded image's own size when none is declared.
   */
  lemma ImageSides(own: Style, info: ImageInfo)
    ensures var (w, h) := Sizing(own, info);
      var dw, dh := WidthAmount(own.width), HeightAmount(own.height);
      (dw.Some? && dh.None? ==>
         w == Amount(dw.value) && (info.ratio == 0.0 <==> h.Infinite?)
         && (info.ratio != 0.0 ==> h.Amount? && h.value * info.ratio == dw.value))
      && (dw.None? && dh.Some? ==> h == Amount(dh.value) && w == Amount(dh.value * info.ratio))
      && (dw.Some? == dh.Some? ==>
            (own.width.None? ==> w == Intrinsic(info.width)) && (own.height.None? ==> h == Intrinsic(info.height))
            && (own.width.Some? && own.width.value.CssWidth? ==> w == Given(own.width.value.length))
            && (own.height.Some? ==> h == Given(own.height.value)))
  {
  }

  /** An image outside a table never carries a table width, so a declared width is always a CSS length. */
  lemma ImageWidthIsCss(img: Node)
    requires img.Element? && img.tag == "img" && CurrentStyle(img).Ok?
    ensures CssWidthOnly(CurrentStyle(img).value)
  {
    CurrentStyleCssWidth(img);
  }

  /** One sheet per page, in page order, each the normalized sheet of the page; the first page that throws is the error. */
  lemma SheetsShape(o: Oracles, pages: seq<seq<Node>>)
    ensures var r := SheetsOf(o, pages);
      (r.Ok? <==> forall k :: 0 <= k < |pages| ==> ParseTree(o, [], Fragment(pages[k])).Ok?)
      && (r.Ok? ==> |r.value| == |pages| && forall k :: 0 <= k < |pages| ==>
            r.value[k] == NormalizedSheet(ParseTree(o, [], Fragment(pages[k])).value))
  {
    CollectShape(SheetResults(o, pages));
  }

  /**
   * `nodeTree` gives one sheet per page, and in every sheet each block is
   * a break or holds a run, and each list block holds one item.
   */
  lemma NodeTreeShape(o: Oracles, body: seq<Node>)
    ensures var r := Sheets(o, body);
      r.Ok? ==> (
        |r.value| == |Pages.Pages(body)|
        && (forall k, j :: 0 <= k < |r.value| && 0 <= j < |r.value[k]| && r.value[k][j].kind.List? ==>
             |r.value[k][j].run| == 1)
        && (forall k, j :: 0 <= k < |r.value| && 0 <= j < |r.value[k]| ==>
             r.value[k][j].kind.Break? || r.value[k][j].run != []))
  {
    var pages := Pages.Pages(body);
    SheetsShape(o, pages);
    var r := Sheets(o, body);
    if r.Ok? {
      forall k | 0 <= k < |r.value|
        ensures forall j :: 0 <= j < |r.value[k]| && r.value[k][j].kind.List? ==> |r.value[k][j].run| == 1
        ensures forall j :: 0 <= j < |r.value[k]| ==> r.value[k][j].kind.Break? || r.value[k][j].run != []
      {
        var parsed := ParseTree(o, [], Fragment(pages[k])).value;
        OneItemPerListBlock(parsed);
        NormalizedKeepsRuns(parsed);
      }
    }
  }
}
