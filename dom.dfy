/**
 * The parsed HTML the converter walks, as `node-html-parser` hands it over:
 * text nodes with their raw text and elements with a tag name (compared in
 * lower case throughout the code, so kept in lower case here), attributes
 * and children. A node's ancestors are passed alongside it as a sequence,
 * outermost first, in place of the parser's `parentNode` links.
 */
module Dom {
  import opened Js

  datatype Node =
    | Text(raw: string)
    | Element(tag: string, attrs: map<string, string>, children: seq<Node>)

  /** `node.attributes[name]`, when the attribute is there. */
  function Attr(n: Node, name: string): (r: Option<string>)
    ensures r.Some? <==> n.Element? && name in n.attrs
  {
    if n.Element? && name in n.attrs then Some(n.attrs[name]) else None
  }

  /** `node.tagName?.toLowerCase()`: text nodes have none. */
  function TagOf(n: Node): (r: Option<string>)
    ensures r.Some? <==> n.Element?
  {
    if n.Element? then Some(n.tag) else None
  }

  /** Whether `n` is an element with one of the names `tags`. */
  predicate HasTag(n: Node, tags: set<string>) {
    n.Element? && n.tag in tags
  }

  // ---------------------------------------------------------------------
  // Sizes, the measure every walk over the tree decreases
  // ---------------------------------------------------------------------

  /** The number of nodes in the tree rooted at `n`. */
  function Size(n: Node): (r: nat)
    ensures r >= 1
    decreases n
  {
    match n
    case Text(_) => 1
    case Element(_, _, kids) => 1 + ForestSize(kids)
  }

  /** The number of nodes in the trees rooted at `kids`. */
  function ForestSize(kids: seq<Node>): nat
    decreases kids
  {
    if kids == [] then 0 else Size(kids[0]) + ForestSize(kids[1..])
  }

  /** The size of a concatenation of forests is the sum of their sizes. */
  lemma {:induction false} ForestSizeAppend(a: seq<Node>, b: seq<Node>)
    ensures ForestSize(a + b) == ForestSize(a) + ForestSize(b)
    decreases |a|
  {
    if a == [] {
      assert a + b == b;
    } else {
      assert (a + b)[1..] == a[1..] + b;
      ForestSizeAppend(a[1..], b);
    }
  }

  /**
   * The first `n` children weigh the first `n - 1` plus the `n`-th, and all
   * of them weigh the forest: the facts the walks over children decrease by.
   */
  lemma ForestSizePrefix(kids: seq<Node>, n: nat)
    requires 0 < n <= |kids|
    ensures ForestSize(kids[..n]) == ForestSize(kids[..n - 1]) + Size(kids[n - 1])
    ensures ForestSize(kids[..|kids|]) == ForestSize(kids)
  {
    assert kids[..n] == kids[..n - 1] + [kids[n - 1]];
    ForestSizeAppend(kids[..n - 1], [kids[n - 1]]);
    assert kids[..|kids|] == kids;
  }

  // ---------------------------------------------------------------------
  // Siblings and descendants
  // ---------------------------------------------------------------------

  /**
   * The tag of `previousElementSibling` for the child at index `i`: the
   * nearest element before it, text nodes skipped.
   */
  function PrevElementTag(kids: seq<Node>, i: nat): (r: Option<string>)
    requires i <= |kids|
    ensures r.None? <==> forall j :: 0 <= j < i ==> kids[j].Text?
    ensures r.Some? ==>
      exists j :: 0 <= j < i && kids[j].Element? && kids[j].tag == r.value
        && forall k :: j < k < i ==> kids[k].Text?
  {
    if i == 0 then None
    else if kids[i - 1].Element? then Some(kids[i - 1].tag)
    else PrevElementTag(kids, i - 1)
  }

  /** A node found below some element, with its ancestors outermost first. */
  datatype Located = Located(ancestors: seq<Node>, node: Node)

  /** Whether the parent of a located node is an element tagged `tag`. */
  predicate ParentTagged(l: Located, tag: string) {
    |l.ancestors| > 0 && l.ancestors[|l.ancestors| - 1].Element? && l.ancestors[|l.ancestors| - 1].tag == tag
  }

  /**
   * Every descendant of the children `kids` of the last node of `path`, in
   * document order (pre-order), each with its full chain of ancestors.
   */
  function Below(path: seq<Node>, kids: seq<Node>): (r: seq<Located>)
    ensures forall k :: 0 <= k < |r| ==> Size(r[k].node) <= ForestSize(kids)
    decreases kids
  {
    if kids == [] then []
    else
      var first := kids[0];
      var inner := if first.Element? then Below(path + [first], first.children) else [];
      var rest := Below(path, kids[1..]);
      [Located(path, first)] + inner + rest
  }

  /** The elements among `ls` tagged `tag`, those whose parent is tagged `parent` when one is given. */
  function Select(ls: seq<Located>, parent: Option<string>, tag: string): (r: seq<Located>)
    ensures forall k :: 0 <= k < |r| ==> r[k].node.Element? && r[k].node.tag == tag
    ensures forall k :: 0 <= k < |r| ==> r[k] in ls
    ensures |r| <= |ls|
  {
    if ls == [] then []
    else
      var l := ls[0];
      var rest := Select(ls[1..], parent, tag);
      if l.node.Element? && l.node.tag == tag && (parent.None? || ParentTagged(l, parent.value)) then [l] + rest else rest
  }

  /**
   * `table.querySelectorAll('tbody > tr')` for a table whose ancestors are
   * `chain`: every `tr` below the table whose parent is a `tbody`, in
   * document order, rows of nested tables included.
   */
  function Rows(chain: seq<Node>, table: Node): (r: seq<Located>)
    requires table.Element?
    ensures forall k :: 0 <= k < |r| ==>
      r[k].node.Element? && r[k].node.tag == "tr" && Size(r[k].node) < Size(table) && ParentTagged(r[k], "tbody")
  {
    var r := Select(Below(chain + [table], table.children), Some("tbody"), "tr");
    assert forall k :: 0 <= k < |r| ==> ParentTagged(r[k], "tbody") by {
      SelectParent(Below(chain + [table], table.children), "tbody", "tr");
    }
    r
  }

  lemma {:induction false} SelectParent(ls: seq<Located>, parent: string, tag: string)
    ensures forall k :: 0 <= k < |Select(ls, Some(parent), tag)| ==> ParentTagged(Select(ls, Some(parent), tag)[k], parent)
  {
    if ls != [] {
      SelectParent(ls[1..], parent, tag);
    }
  }

  /** `tr.querySelectorAll('td')` for a row whose ancestors are `chain`: every `td` below the row, in document order. */
  function Cells(chain: seq<Node>, tr: Node): (r: seq<Located>)
    requires tr.Element?
    ensures forall k :: 0 <= k < |r| ==> r[k].node.Element? && r[k].node.tag == "td" && Size(r[k].node) < Size(tr)
  {
    Select(Below(chain + [tr], tr.children), None, "td")
  }

  /** A row straight under a `tbody` directly inside the table is its first row. */
  lemma DirectRow(chain: seq<Node>, attrs: map<string, string>, tbodyAttrs: map<string, string>, tr: Node)
    requires tr.Element? && tr.tag == "tr"
    ensures var table := Element("table", attrs, [Element("tbody", tbodyAttrs, [tr])]);
      |Rows(chain, table)| >= 1 && Rows(chain, table)[0] == Located(chain + [table, Element("tbody", tbodyAttrs, [tr])], tr)
  {
    var tbody := Element("tbody", tbodyAttrs, [tr]);
    var table := Element("table", attrs, [tbody]);
    var path := chain + [table];
    var ls := Below(path, [tbody]);
    assert path + [tbody] == chain + [table, tbody];
    assert Below(path + [tbody], [tr]) == [Located(path + [tbody], tr)] + Below(path + [tbody] + [tr], tr.children);
    assert ls[1] == Located(path + [tbody], tr);
    assert Select(ls, Some("tbody"), "tr") == Select(ls[1..], Some("tbody"), "tr");
    assert ls[1..][0] == Located(path + [tbody], tr);
  }

  /** Without a `tbody` a table has no rows: the parser inserts none. */
  lemma RowsNeedBody(chain: seq<Node>, attrs: map<string, string>, trs: seq<Node>)
    requires forall k :: 0 <= k < |trs| ==> trs[k].Element? && trs[k].tag == "tr" && trs[k].children == []
    ensures Rows(chain, Element("table", attrs, trs)) == []
  {
    NoBodyRows(chain + [Element("table", attrs, trs)], trs);
  }

  lemma {:induction false} NoBodyRows(path: seq<Node>, trs: seq<Node>)
    requires |path| > 0 && path[|path| - 1].Element? && path[|path| - 1].tag != "tbody"
    requires forall k :: 0 <= k < |trs| ==> trs[k].Element? && trs[k].tag == "tr" && trs[k].children == []
    ensures Select(Below(path, trs), Some("tbody"), "tr") == []
    decreases |trs|
  {
    if trs != [] {
      NoBodyRows(path, trs[1..]);
      assert Below(path + [trs[0]], trs[0].children) == [];
      assert Below(path, trs) == [Located(path, trs[0])] + Below(path, trs[1..]);
    }
  }
}
