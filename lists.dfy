/**
 * The list handling of `src/tree.js`: `getListLevel` and `getListFormat`,
 * which fill in a list paragraph's bullet, and `normalizeSheet`, which
 * splits every list block into one numbered block per item.
 */
module Lists {
  import opened Js
  import opened Dom
  import opened Styles
  import opened Runs

  // ---------------------------------------------------------------------
  // getListLevel
  // ---------------------------------------------------------------------

  /** Whether `n` is a `ul` or an `ol` element. */
  predicate IsList(n: Node) {
    HasTag(n, {"ul", "ol"})
  }

  /** `getListLevel(node)`, from the node's ancestors (outermost first): the number of them that are lists. */
  function ListLevel(ancestors: seq<Node>): (r: nat)
    ensures r <= |ancestors|
    ensures r == 0 <==> forall k :: 0 <= k < |ancestors| ==> !IsList(ancestors[k])
  {
    if ancestors == [] then 0
    else
      assert forall k :: 0 <= k < |ancestors| - 1 ==> ancestors[..|ancestors| - 1][k] == ancestors[k];
      ListLevel(ancestors[..|ancestors| - 1]) + (if IsList(ancestors[|ancestors| - 1]) then 1 else 0)
  }

  /** The level is additive along the chain: going one list deeper adds exactly one. */
  lemma {:induction false} ListLevelAppend(outer: seq<Node>, inner: seq<Node>)
    ensures ListLevel(outer + inner) == ListLevel(outer) + ListLevel(inner)
    decreases |inner|
  {
    if inner == [] {
      assert outer + inner == outer;
    } else {
      var init := inner[..|inner| - 1];
      assert (outer + inner)[..|outer + inner| - 1] == outer + init;
      ListLevelAppend(outer, init);
    }
  }

  /** A list directly inside a list item of a list is one level deeper than that outer list. */
  lemma NestedListLevel(ancestors: seq<Node>, list: Node, item: Node)
    requires IsList(list) && !IsList(item)
    ensures ListLevel(ancestors + [list, item]) == ListLevel(ancestors) + 1
  {
    ListLevelAppend(ancestors, [list, item]);
    assert [list, item][..1] == [list];
    assert [list][..0] == [];
  }

  // ---------------------------------------------------------------------
  // getListFormat
  // ---------------------------------------------------------------------

  /** `Array.prototype.map(item => item.trim())` */
  function TrimAll(items: seq<string>): (r: seq<string>)
    ensures |r| == |items| && forall k :: 0 <= k < |r| ==> r[k] == Trim(items[k])
  {
    seq(|items|, k requires 0 <= k < |items| => Trim(items[k]))
  }

  /** `filter(item => item.startsWith('list-style'))`: the items that start so, in order. */
  function ListStyleOnly(items: seq<string>): (r: seq<string>)
    ensures |r| <= |items|
    ensures forall k :: 0 <= k < |r| ==> StartsWith(r[k], "list-style")
    ensures forall k :: 0 <= k < |r| ==> r[k] in items
    ensures forall x :: x in items && StartsWith(x, "list-style") ==> x in r
  {
    if items == [] then []
    else if StartsWith(items[0], "list-style") then [items[0]] + ListStyleOnly(items[1..])
    else ListStyleOnly(items[1..])
  }

  /** The trimmed `list-style…` items of an element's inline style, in order. */
  function ListStyleItems(n: Node): seq<string> {
    match Attr(n, "style")
    case None => []
    case Some(text) => ListStyleOnly(TrimAll(Split(text, ';')))
  }

  /** Whether a declaration names the list marker: its key is `list-style-type` or `list-style`. */
  predicate NamesMarker(item: string) {
    var key := Declaration(item).0;
    key == "list-style-type" || key == "list-style"
  }

  /** The format used when no declaration names one: `decimal` for `ol`, `bullet` for anything else. */
  function DefaultFormat(n: Node): string {
    if TagOf(n) == Some("ol") then "decimal" else "bullet"
  }

  /** What the loop over `items` returns: the value of the first that names the marker, else the default. */
  function FormatFrom(items: seq<string>, n: Node): Option<string> {
    if items == [] then Some(DefaultFormat(n))
    else if NamesMarker(items[0]) then Declaration(items[0]).1
    else FormatFrom(items[1..], n)
  }

  /** What `getListFormat(node)` returns; `None` is the `undefined` of a declaration without a `:`. */
  function ListFormat(n: Node): Option<string> {
    FormatFrom(ListStyleItems(n), n)
  }

  /** `getListFormat(node)` */
  method GetListFormat(n: Node) returns (r: Option<string>)
    ensures r == ListFormat(n)
  {
    var items := ListStyleItems(n);
    var i := 0;
    while i < |items|
      invariant 0 <= i <= |items|
      invariant FormatFrom(items[i..], n) == FormatFrom(items, n)
    {
      assert items[i..][1..] == items[i + 1..];
      if NamesMarker(items[i]) {
        return Declaration(items[i]).1;
      }
      i := i + 1;
    }
    r := Some(DefaultFormat(n));
  }

  /**
   * The first declaration that names the marker decides the format,
   * whatever follows it, and a declaration before it that does not name
   * the marker (such as `list-style-position`) is passed over.
   */
  lemma {:induction false} FirstMarkerWins(items: seq<string>, n: Node, k: nat)
    requires k < |items| && NamesMarker(items[k])
    requires forall j :: 0 <= j < k ==> !NamesMarker(items[j])
    ensures FormatFrom(items, n) == Declaration(items[k]).1
  {
    if k > 0 {
      FirstMarkerWins(items[1..], n, k - 1);
    }
  }

  /** With no declaration naming the marker, an `ol` is numbered `decimal` and every other list gets `bullet`. */
  lemma {:induction false} NoMarkerDefault(items: seq<string>, n: Node)
    requires forall j :: 0 <= j < |items| ==> !NamesMarker(items[j])
    ensures FormatFrom(items, n) == Some(if TagOf(n) == Some("ol") then "decimal" else "bullet")
  {
    if items != [] {
      NoMarkerDefault(items[1..], n);
    }
  }

  /** An element without a `style` attribute takes the default format. */
  lemma UnstyledListFormat(n: Node)
    requires Attr(n, "style").None?
    ensures ListFormat(n) == Some(DefaultFormat(n))
  {
  }

  /** `key: value` with a space after the colon reads back as that key and value. */
  lemma DeclarationOf(key: string, v: string)
    requires Trimmed(key) && Trimmed(v) && ':' !in key && ':' !in v
    ensures Declaration(key + ": " + v) == (key, Some(v))
  {
    var rest := " " + v;
    var item := key + [':'] + rest;
    assert item == key + ": " + v;
    FirstPieceBefore(key, ':', rest);
    assert ':' !in rest;
    FirstPieceWithout(rest, ':');
    TrimmedFixed(v);
    TrimmedFixed(key);
    assert rest[1..] == v;
    assert TrimStart(rest) == TrimStart(v);
  }

  lemma NoSemicolon(v: string)
    requires ';' !in v
    ensures ';' !in "list-style-type: " + v
  {
    var item := "list-style-type: " + v;
    forall k | 0 <= k < |item|
      ensures item[k] != ';'
    {
      if k >= 17 {
        assert item[k] == v[k - 17];
      }
    }
  }

  /** `style="list-style-type: v"` on a list gives the format `v`, the space after the colon notwithstanding. */
  lemma MarkerDeclaration(v: string)
    requires Trimmed(v) && ':' !in v && ';' !in v
    ensures ListFormat(Element("ul", map["style" := "list-style-type: " + v], [])) == Some(v)
  {
    var item := "list-style-type: " + v;
    var list := Element("ul", map["style" := item], []);
    MarkerItem(v);
    SingleStyleItem(list, item);
    DeclarationOf("list-style-type", v);
    SingleMarker(list, item, v);
  }

  /** A list whose only `list-style…` item names the marker as `v` has the format `v`. */
  lemma SingleMarker(n: Node, item: string, v: string)
    requires ListStyleItems(n) == [item] && Declaration(item) == ("list-style-type", Some(v))
    ensures ListFormat(n) == Some(v)
  {
    assert NamesMarker(item);
  }

  /** The declaration `list-style-type: v` is one trimmed `list-style…` item. */
  lemma MarkerItem(v: string)
    requires Trimmed(v) && ';' !in v
    ensures var item := "list-style-type: " + v;
      Trimmed(item) && ';' !in item && StartsWith(item, "list-style")
      && item == "list-style-type" + ": " + v
  {
    var item := "list-style-type: " + v;
    NoSemicolon(v);
    assert item[|item| - 1] == v[|v| - 1];
    assert item[..10] == "list-style";
  }

  /** A style attribute of one trimmed `list-style…` declaration is the one item `getListFormat` reads. */
  lemma SingleStyleItem(n: Node, item: string)
    requires Attr(n, "style") == Some(item)
    requires Trimmed(item) && ';' !in item && StartsWith(item, "list-style")
    ensures ListStyleItems(n) == [item]
  {
    SplitNoSeparator(item, ';');
    TrimmedFixed(item);
    assert TrimAll([item]) == [item];
    assert ListStyleOnly([item]) == [item] by {
      assert [item][1..] == [];
    }
  }

  // ---------------------------------------------------------------------
  // The bullet of a list paragraph
  // ---------------------------------------------------------------------

  /** `node.attributes?.start && parseInt(node.attributes?.start)`: `None` for a missing or empty attribute or `NaN`. */
  function StartAttr(n: Node): Option<int> {
    match Attr(n, "start")
    case None => None
    case Some(v) => if v == "" then None else ParseInt(v)
  }

  /** The bullet `parseTreeNode` gives the list paragraph it opens for a `ul` or `ol`. */
  function BulletOf(ancestors: seq<Node>, list: Node): Bullet {
    Bullet(ListLevel(ancestors), ListFormat(list), StartAttr(list))
  }

  // ---------------------------------------------------------------------
  // normalizeSheet
  // ---------------------------------------------------------------------

  /** `bullet.start && bullet.start > 0 ? bullet.start : undefined` */
  function FixedStart(b: Bullet): Option<int> {
    if b.start.Some? && b.start.value > 0 then b.start else None
  }

  /** The style object of a finished run. */
  function RunStyle(r: Run): Style {
    match r
    case TextRun(s, _) => s
    case ImageRun(img) => img.style
    case RowRun(row) => row.style
  }

  /** The content of a finished run; images and rows have none. */
  function RunContent(r: Run): Option<string> {
    if r.TextRun? then r.content else None
  }

  /** The number the `k`-th item of a list gets: the fixed start for every item when there is one, else `k + 1`. */
  function ItemNumber(b: Bullet, k: nat): int {
    if FixedStart(b).Some? then FixedStart(b).value else k + 1
  }

  /** The block `normalizeSheet` emits for the `k`-th run of a list block. */
  function Entry(block: Block, k: nat): Block
    requires block.kind.List? && k < |block.run|
  {
    var b := block.kind.bullet;
    Block(List(Bullet(b.level, b.format, Some(ItemNumber(b, k)))),
          Merge(block.style, RunStyle(block.run[k])),
          [TextRun(Empty, RunContent(block.run[k]))])
  }

  /** The blocks one block of the sheet becomes: one per item for a list, itself otherwise. */
  function Expand(block: Block): (r: seq<Block>)
    ensures block.kind.List? ==> |r| == |block.run| && forall k :: 0 <= k < |r| ==> r[k] == Entry(block, k)
    ensures !block.kind.List? ==> r == [block]
  {
    if block.kind.List? then seq(|block.run|, k requires 0 <= k < |block.run| => Entry(block, k)) else [block]
  }

  /** What `normalizeSheet(sheet)` returns. */
  function NormalizedSheet(sheet: seq<Block>): seq<Block> {
    if sheet == [] then [] else Expand(sheet[0]) + NormalizedSheet(sheet[1..])
  }

  /** `normalizeSheet(sheet)` */
  method NormalizeSheet(sheet: seq<Block>) returns (items: seq<Block>)
    ensures items == NormalizedSheet(sheet)
  {
    items := [];
    var index := 0;
    while index < |sheet|
      invariant 0 <= index <= |sheet|
      invariant items == NormalizedSheet(sheet[..index])
    {
      var item := sheet[index];
      ghost var before := items;
      if item.kind.List? {
        var i := 0;
        while i < |item.run|
          invariant 0 <= i <= |item.run|
          invariant items == before + Expand(item)[..i]
        {
          items := items + [Entry(item, i)];
          assert Expand(item)[..i + 1] == Expand(item)[..i] + [Entry(item, i)];
          i := i + 1;
        }
        assert Expand(item)[..i] == Expand(item);
      } else {
        items := items + [item];
      }
      assert items == before + Expand(item);
      NormalizedPrefix(sheet, index);
      index := index + 1;
    }
    assert sheet[..index] == sheet;
  }

  /** Normalizing one more block of a sheet's prefix appends that block's expansion. */
  lemma NormalizedPrefix(sheet: seq<Block>, index: nat)
    requires index < |sheet|
    ensures NormalizedSheet(sheet[..index + 1]) == NormalizedSheet(sheet[..index]) + Expand(sheet[index])
  {
    assert sheet[..index + 1] == sheet[..index] + [sheet[index]];
    NormalizedSnoc(sheet[..index], sheet[index]);
  }

  /** Normalizing a concatenation normalizes each part. */
  lemma {:induction false} NormalizedAppend(a: seq<Block>, b: seq<Block>)
    ensures NormalizedSheet(a + b) == NormalizedSheet(a) + NormalizedSheet(b)
    decreases |a|
  {
    if a == [] {
      assert a + b == b;
    } else {
      assert (a + b)[1..] == a[1..] + b;
      NormalizedAppend(a[1..], b);
    }
  }

  /** Normalizing a sheet with one block more appends that block's expansion. */
  lemma NormalizedSnoc(sheet: seq<Block>, last: Block)
    ensures NormalizedSheet(sheet + [last]) == NormalizedSheet(sheet) + Expand(last)
  {
    NormalizedAppend(sheet, [last]);
    assert [last][1..] == [];
  }

  /** A sheet without lists comes out exactly as it went in. */
  lemma {:induction false} NoListsUnchanged(sheet: seq<Block>)
    requires forall k :: 0 <= k < |sheet| ==> !sheet[k].kind.List?
    ensures NormalizedSheet(sheet) == sheet
  {
    if sheet != [] {
      NoListsUnchanged(sheet[1..]);
    }
  }

  /**
   * The `k`-th entry of a list is a list block of one text run with no
   * style of its own, holding the `k`-th item's content; its bullet keeps
   * the list's level and format, and its style is the list's with the
   * item's merged over it.
   */
  lemma EntryShape(block: Block, k: nat)
    requires block.kind.List? && k < |block.run|
    ensures var e := Entry(block, k);
      e.kind.List? && e.kind.bullet.level == block.kind.bullet.level
      && e.kind.bullet.format == block.kind.bullet.format
      && e.run == [TextRun(Empty, RunContent(block.run[k]))]
      && Covers(e.style, RunStyle(block.run[k])) && KeepsRest(e.style, block.style, RunStyle(block.run[k]))
  {
    MergeOverridesAndKeeps(block.style, RunStyle(block.run[k]));
  }

  /**
   * Numbering: without a positive `start` the items are numbered 1, 2, 3, …;
   * with one, every item of the list gets that same number, since the code
   * assigns `i = start` on each item.
   */
  lemma Numbering(block: Block, k: nat)
    requires block.kind.List? && k < |block.run|
    ensures var b := block.kind.bullet;
      Entry(block, k).kind.bullet.start
        == Some(if b.start.Some? && b.start.value > 0 then b.start.value else k + 1)
  {
  }

  /** The length of the sheet: a list counts its items, every other block one. */
  function EntryCount(sheet: seq<Block>): nat {
    if sheet == [] then 0
    else (if sheet[0].kind.List? then |sheet[0].run| else 1) + EntryCount(sheet[1..])
  }

  lemma {:induction false} NormalizedLength(sheet: seq<Block>)
    ensures |NormalizedSheet(sheet)| == EntryCount(sheet)
  {
    if sheet != [] {
      NormalizedLength(sheet[1..]);
    }
  }

  /** After `normalizeSheet` every list block holds exactly one item. */
  lemma {:induction false} OneItemPerListBlock(sheet: seq<Block>)
    ensures forall k :: 0 <= k < |NormalizedSheet(sheet)| && NormalizedSheet(sheet)[k].kind.List? ==>
      |NormalizedSheet(sheet)[k].run| == 1
  {
    if sheet != [] {
      OneItemPerListBlock(sheet[1..]);
      var a, b := Expand(sheet[0]), NormalizedSheet(sheet[1..]);
      var c := a + b;
      assert NormalizedSheet(sheet) == c;
      forall k | 0 <= k < |c| && c[k].kind.List?
        ensures |c[k].run| == 1
      {
        if k >= |a| {
          assert c[k] == b[k - |a|];
        }
      }
    }
  }

  /** Normalising keeps every block either a break or a block that holds a run. */
  lemma {:induction false} NormalizedKeepsRuns(sheet: seq<Block>)
    requires forall k :: 0 <= k < |sheet| ==> sheet[k].kind.Break? || sheet[k].run != []
    ensures forall k :: 0 <= k < |NormalizedSheet(sheet)| ==>
      NormalizedSheet(sheet)[k].kind.Break? || NormalizedSheet(sheet)[k].run != []
  {
    if sheet != [] {
      NormalizedKeepsRuns(sheet[1..]);
      var a, b := Expand(sheet[0]), NormalizedSheet(sheet[1..]);
      var c := a + b;
      assert NormalizedSheet(sheet) == c;
      forall k | 0 <= k < |c|
        ensures c[k].kind.Break? || c[k].run != []
      {
        if k >= |a| {
          assert c[k] == b[k - |a|];
        }
      }
    }
  }
}
