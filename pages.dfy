/**
 * `pageNodes(bodyElm)`: the children of `<body>` cut into pages at every
 * element whose class list holds `page-break`. The markers themselves are
 * dropped, a page is emitted at every marker even when it is empty, and the
 * children after the last marker make a final page only when there are any.
 */
module Pages {
  import opened Js
  import opened Dom

  /** `child.classList?.contains('page-break')`: the class attribute, split at whitespace, names `page-break`. */
  predicate IsPageBreak(n: Node) {
    n.Element? && "class" in n.attrs && "page-break" in SplitWhere(n.attrs["class"], IsSpace)
  }

  /** `arrayToNodeHTMLElement(children)`: a parser root holding the nodes; it has no tag name and no attributes. */
  function Fragment(kids: seq<Node>): (r: Node)
    ensures r.Element? && r.children == kids && r.attrs == map[]
  {
    Element("", map[], kids)
  }

  /** The node lists of the pages `pageNodes` returns, in order. */
  function Pages(nodes: seq<Node>): (r: seq<seq<Node>>)
    ensures |r| <= |SplitWhere(nodes, IsPageBreak)|
  {
    var parts := SplitWhere(nodes, IsPageBreak);
    if parts[|parts| - 1] == [] then parts[..|parts| - 1] else parts
  }

  /** `pageNodes(bodyElm)` over the body's children. */
  method PageNodes(body: seq<Node>) returns (pages: seq<Node>)
    ensures |pages| == |Pages(body)|
    ensures forall k :: 0 <= k < |pages| ==> pages[k] == Fragment(Pages(body)[k])
  {
    pages := [];
    var children: seq<Node> := [];
    var i := 0;
    while i < |body|
      invariant 0 <= i <= |body|
      invariant var parts := SplitWhere(body[..i], IsPageBreak);
        |pages| == |parts| - 1 && children == parts[|parts| - 1]
        && forall k :: 0 <= k < |pages| ==> pages[k] == Fragment(parts[k])
    {
      var child := body[i];
      SplitPrefixStep(body, i, IsPageBreak);
      if IsPageBreak(child) {
        pages := pages + [Fragment(children)];
        children := [];
      } else {
        children := children + [child];
      }
      i := i + 1;
    }
    assert body[..i] == body;
    if |children| > 0 {
      pages := pages + [Fragment(children)];
    }
  }

  /** The split of a prefix one element longer: a separator opens a new piece, anything else extends the last one. */
  lemma SplitPrefixStep<T>(s: seq<T>, i: nat, isSep: T -> bool)
    requires i < |s|
    ensures var prev, next := SplitWhere(s[..i], isSep), SplitWhere(s[..i + 1], isSep);
      if isSep(s[i]) then next == prev + [[]]
      else next == prev[..|prev| - 1] + [prev[|prev| - 1] + [s[i]]]
  {
    assert s[..i + 1][..i] == s[..i];
  }

  // ---------------------------------------------------------------------
  // Independent descriptions of what the split keeps
  // ---------------------------------------------------------------------

  /** All pieces joined end to end. */
  function Flatten<T>(ps: seq<seq<T>>): seq<T> {
    if ps == [] then [] else Flatten(ps[..|ps| - 1]) + ps[|ps| - 1]
  }

  /** The elements of `s` that are not separators, in order. */
  function Keep<T>(s: seq<T>, isSep: T -> bool): (r: seq<T>)
    ensures |r| <= |s|
  {
    if s == [] then [] else Keep(s[..|s| - 1], isSep) + (if isSep(s[|s| - 1]) then [] else [s[|s| - 1]])
  }

  /** The number of separators in `s`. */
  function CountSep<T>(s: seq<T>, isSep: T -> bool): nat {
    if s == [] then 0 else CountSep(s[..|s| - 1], isSep) + (if isSep(s[|s| - 1]) then 1 else 0)
  }

  /** What follows the last separator of `s` (all of `s` when there is none). */
  function AfterLast<T>(s: seq<T>, isSep: T -> bool): seq<T> {
    if s == [] then [] else if isSep(s[|s| - 1]) then [] else AfterLast(s[..|s| - 1], isSep) + [s[|s| - 1]]
  }

  /** The pieces of a split, joined, are the input without its separators. */
  lemma {:induction false} FlattenSplit<T>(s: seq<T>, isSep: T -> bool)
    ensures Flatten(SplitWhere(s, isSep)) == Keep(s, isSep)
  {
    if s != [] {
      var init := s[..|s| - 1];
      var prev := SplitWhere(init, isSep);
      FlattenSplit(init, isSep);
      var parts := SplitWhere(s, isSep);
      if isSep(s[|s| - 1]) {
        assert parts[..|parts| - 1] == prev;
      } else {
        var n := |prev|;
        assert parts[..|parts| - 1] == prev[..n - 1];
        assert prev[..n - 1] == prev[..|prev| - 1];
        if n > 1 {
          assert Flatten(prev) == Flatten(prev[..n - 1]) + prev[n - 1];
        } else {
          assert Flatten(prev) == Flatten(prev[..0]) + prev[0];
        }
      }
    }
  }

  /** A split has one piece more than there are separators, and its last piece is what follows the last separator. */
  lemma {:induction false} SplitCount<T>(s: seq<T>, isSep: T -> bool)
    ensures |SplitWhere(s, isSep)| == CountSep(s, isSep) + 1
    ensures SplitWhere(s, isSep)[|SplitWhere(s, isSep)| - 1] == AfterLast(s, isSep)
  {
    if s != [] {
      SplitCount(s[..|s| - 1], isSep);
    }
  }

  /** A split of `x + y` begins with every piece of the split of `x` but its last. */
  lemma {:induction false} SplitPrefix<T>(x: seq<T>, y: seq<T>, isSep: T -> bool)
    ensures var px := SplitWhere(x, isSep); var pxy := SplitWhere(x + y, isSep);
      |px| <= |pxy| && pxy[..|px| - 1] == px[..|px| - 1]
    decreases |y|
  {
    if y != [] {
      var y' := y[..|y| - 1];
      SplitPrefix(x, y', isSep);
      assert (x + y)[..|x + y| - 1] == x + y';
    } else {
      assert x + y == x;
    }
  }

  /** Joining the pages gives back the body's children without the markers, in order. */
  lemma PagesFlatten(nodes: seq<Node>)
    ensures Flatten(Pages(nodes)) == Keep(nodes, IsPageBreak)
  {
    var parts := SplitWhere(nodes, IsPageBreak);
    FlattenSplit(nodes, IsPageBreak);
    if parts[|parts| - 1] == [] {
      assert Flatten(parts) == Flatten(parts[..|parts| - 1]) + [];
    }
  }

  /** There is one page per marker, and one more when children follow the last marker. */
  lemma PagesCount(nodes: seq<Node>)
    ensures |Pages(nodes)| == CountSep(nodes, IsPageBreak) + (if AfterLast(nodes, IsPageBreak) == [] then 0 else 1)
  {
    SplitCount(nodes, IsPageBreak);
  }

  /** Without a marker, non-empty content makes exactly one page holding all of it. */
  lemma {:induction false} SinglePage(nodes: seq<Node>)
    requires nodes != [] && forall k :: 0 <= k < |nodes| ==> !IsPageBreak(nodes[k])
    ensures Pages(nodes) == [nodes]
  {
    NoSeparatorSplit(nodes, IsPageBreak);
  }

  lemma {:induction false} NoSeparatorSplit<T>(s: seq<T>, isSep: T -> bool)
    requires forall k :: 0 <= k < |s| ==> !isSep(s[k])
    ensures SplitWhere(s, isSep) == [s]
  {
    if s != [] {
      NoSeparatorSplit(s[..|s| - 1], isSep);
      assert s[..|s| - 1] + [s[|s| - 1]] == s;
    }
  }

  /** A marker before any content produces an empty first page. */
  lemma LeadingMarker(m: Node, rest: seq<Node>)
    requires IsPageBreak(m)
    ensures |Pages([m] + rest)| >= 1 && Pages([m] + rest)[0] == []
  {
    SplitPrefix([m], rest, IsPageBreak);
    assert SplitWhere([m], IsPageBreak) == [[], []] by {
      assert [m][..0] == [];
    }
  }

  /** Two markers in a row produce an empty page between them. */
  lemma ConsecutiveMarkers(a: seq<Node>, m1: Node, m2: Node, b: seq<Node>)
    requires IsPageBreak(m1) && IsPageBreak(m2)
    ensures [] in Pages(a + [m1, m2] + b)
  {
    var x := a + [m1, m2];
    assert x[..|x| - 1] == a + [m1];
    assert (a + [m1])[..|a|] == a;
    var px := SplitWhere(x, IsPageBreak);
    assert px == SplitWhere(a + [m1], IsPageBreak) + [[]];
    assert SplitWhere(a + [m1], IsPageBreak) == SplitWhere(a, IsPageBreak) + [[]];
    assert px[|px| - 2] == [];
    SplitPrefix(x, b, IsPageBreak);
    var all := SplitWhere(x + b, IsPageBreak);
    assert all[|px| - 2] == [];
  }
}
