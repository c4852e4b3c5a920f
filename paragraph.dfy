/**
 * `normalizeParagraph` of `src/tree.js` and its three passes, in the order
 * the code runs them: `trimParagraph` (drop whitespace-only edge runs, trim
 * the edges, decode entities), `reflectStyleToParagraph` (hoist alignment,
 * indent, heading and spacing onto the paragraph) and `applyStyle` (the text
 * transforms). The two passes that loop are methods proved against the
 * functions that specify them.
 */
module Paragraphs {
  import opened Js
  import opened Styles
  import opened Runs
  import TextHelper

  // ---------------------------------------------------------------------
  // trimContent
  // ---------------------------------------------------------------------

  /** `trimContent(content, isFirst, isLast, isSingle)`, with `decode` the entity decoder. */
  function TrimContent(decode: string -> string, content: string, isFirst: bool, isLast: bool, isSingle: bool): string {
    if isSingle then decode(Trim(content))
    else if isFirst then decode(TrimStart(content))
    else if isLast then decode(TrimEnd(content))
    else decode(content)
  }

  /** The final `run.map(...)` of `trimParagraph`: each text run's content trimmed by its position, other runs as they are. */
  function TrimRuns(decode: string -> string, rs: seq<RawRun>): (r: seq<RawRun>)
    ensures |r| == |rs|
  {
    seq(|rs|, k requires 0 <= k < |rs| =>
      match rs[k]
      case RawText(s, c) => RawText(s, TrimContent(decode, c, k == 0, k == |rs| - 1, |rs| == 1))
      case other => other)
  }

  /**
   * By position: a single run is trimmed on both sides, the first of several
   * at its start, the last at its end, and the runs between keep their text;
   * every text keeps its style and is decoded; images and rows are untouched.
   */
  lemma TrimRunsAt(decode: string -> string, rs: seq<RawRun>, k: nat)
    requires k < |rs|
    ensures var r := TrimRuns(decode, rs)[k];
      match rs[k]
      case RawText(s, c) =>
        r.RawText? && r.style == s
        && r.content == decode(if |rs| == 1 then Trim(c) else if k == 0 then TrimStart(c)
                               else if k == |rs| - 1 then TrimEnd(c) else c)
      case _ => r == rs[k]
  {
  }

  // ---------------------------------------------------------------------
  // trimParagraph
  // ---------------------------------------------------------------------

  /** The number of whitespace-only text runs `rs` starts with. */
  function LeadBlank(rs: seq<RawRun>): (n: nat)
    ensures n <= |rs|
    ensures forall k :: 0 <= k < n ==> BlankText(rs[k])
    ensures n < |rs| ==> !BlankText(rs[n])
  {
    if rs == [] || !BlankText(rs[0]) then 0 else 1 + LeadBlank(rs[1..])
  }

  /** The number of whitespace-only text runs `rs` ends with. */
  function TrailBlank(rs: seq<RawRun>): (n: nat)
    ensures n <= |rs|
    ensures forall k :: |rs| - n <= k < |rs| ==> BlankText(rs[k])
    ensures n < |rs| ==> !BlankText(rs[|rs| - 1 - n])
  {
    if rs == [] || !BlankText(rs[|rs| - 1]) then 0 else 1 + TrailBlank(rs[..|rs| - 1])
  }

  /** `rs` without the whitespace-only text runs it ends with: what the `pop` loop leaves. */
  function DropTrail(rs: seq<RawRun>): seq<RawRun> {
    rs[..|rs| - TrailBlank(rs)]
  }

  /**
   * The runs a list keeps: every whitespace-only one dropped, every other
   * one trimmed. A run without text (an image) makes `line.content.trim()`
   * throw.
   */
  function ListKept(rs: seq<RawRun>): (r: Result<seq<RawRun>>)
    ensures r.Ok? ==> |r.value| <= |rs|
    ensures r.Fail? ==> r.error == RunWithoutContent
    ensures r.Fail? <==> exists k :: 0 <= k < |rs| && !rs[k].RawText?
  {
    if rs == [] then Ok([])
    else
      var last := rs[|rs| - 1];
      assert forall k :: 0 <= k < |rs| - 1 ==> rs[..|rs| - 1][k] == rs[k];
      match ListKept(rs[..|rs| - 1])
      case Fail(e) => Fail(e)
      case Ok(init) =>
        if !last.RawText? then Fail(RunWithoutContent)
        else if IsBlank(last.content) then Ok(init)
        else Ok(init + [RawText(last.style, Trim(last.content))])
  }

  /** The runs the first loop of `trimParagraph` keeps: a list's per `ListKept`, any other from its first non-blank run on. */
  function Kept(p: Pending): Result<seq<RawRun>> {
    if p.kind.List? then ListKept(p.run) else Ok(p.run[LeadBlank(p.run)..])
  }

  /** What `trimParagraph(paragraph)` returns or throws. */
  function TrimmedParagraph(decode: string -> string, p: Pending): Result<Pending> {
    if p.run == [] then Ok(p)
    else
      match Kept(p)
      case Fail(e) => Fail(e)
      case Ok(kept) => Ok(p.(run := TrimRuns(decode, DropTrail(kept))))
  }

  /** `trimParagraph(paragraph)` */
  method TrimParagraph(decode: string -> string, p: Pending) returns (r: Result<Pending>)
    ensures r == TrimmedParagraph(decode, p)
  {
    if p.run == [] {
      return Ok(p);
    }
    var kept := KeepRuns(p);
    if kept.Fail? {
      return Fail(kept.error);
    }
    r := PopTrailing(decode, p, kept.value);
    assert Kept(p) == Ok(kept.value);
  }

  /** The `for (const line of paragraph.run)` loop of `trimParagraph`. */
  method KeepRuns(p: Pending) returns (r: Result<seq<RawRun>>)
    ensures r == Kept(p)
  {
    var isList := p.kind.List?;
    var run: seq<RawRun> := [];
    var foundNonEmptyText := false;
    var i := 0;
    while i < |p.run|
      invariant 0 <= i <= |p.run|
      invariant isList ==> ListKept(p.run[..i]) == Ok(run)
      invariant !isList ==> foundNonEmptyText == (LeadBlank(p.run) < i)
      invariant !isList ==> run == if foundNonEmptyText then p.run[LeadBlank(p.run)..i] else []
    {
      var line := p.run[i];
      assert p.run[..i + 1][..i] == p.run[..i];
      if isList && !line.RawText? {
        assert !p.run[..i + 1][i].RawText?;
        assert ListKept(p.run).Fail? by {
          assert !p.run[i].RawText?;
        }
        assert Kept(p) == ListKept(p.run);
        return Fail(RunWithoutContent);
      }
      if isList && IsBlank(line.content) {
        i := i + 1;
        continue;
      } else if !isList && !foundNonEmptyText && BlankText(line) {
        LeadBlankPast(p.run, i);
        i := i + 1;
        continue;
      }
      if !isList && !foundNonEmptyText {
        LeadBlankAt(p.run, i);
      }
      foundNonEmptyText := true;
      if isList {
        run := run + [RawText(line.style, Trim(line.content))];
      } else {
        run := run + [line];
      }
      i := i + 1;
    }
    assert p.run[..i] == p.run;
    if !isList && !foundNonEmptyText {
      assert LeadBlank(p.run) == |p.run|;
    }
    r := Ok(run);
  }

  /** The `while (...) run.pop()` loop and the closing `return`, once the kept runs are known. */
  method PopTrailing(decode: string -> string, p: Pending, kept: seq<RawRun>) returns (r: Result<Pending>)
    ensures r == Ok(p.(run := TrimRuns(decode, DropTrail(kept))))
  {
    var run := kept;
    while |run| > 0 && BlankText(run[|run| - 1])
      invariant |run| <= |kept| && run == kept[..|run|]
      invariant TrailBlank(kept) == |kept| - |run| + TrailBlank(run)
      decreases |run|
    {
      run := run[..|run| - 1];
    }
    r := Ok(p.(run := TrimRuns(decode, run)));
  }

  /** While only blank runs have been seen, the leading blank stretch reaches past them. */
  lemma {:induction false} LeadBlankPast(rs: seq<RawRun>, i: nat)
    requires i < |rs| && i <= LeadBlank(rs) && BlankText(rs[i])
    ensures i < LeadBlank(rs)
  {
  }

  /** The first run that is not blank text marks the end of the leading blank stretch. */
  lemma {:induction false} LeadBlankAt(rs: seq<RawRun>, i: nat)
    requires i < |rs| && i <= LeadBlank(rs) && !BlankText(rs[i])
    ensures i == LeadBlank(rs)
  {
  }

  /**
   * Outside lists the runs kept are one contiguous stretch `run[a..b]` of
   * the original: everything before `a` and from `b` on is whitespace-only
   * text, the first and last kept runs are not, and the order is kept.
   */
  lemma TrimmedIsStretch(decode: string -> string, p: Pending)
    requires !p.kind.List? && p.run != []
    ensures exists a: nat, b: nat ::
              (a <= b <= |p.run|
               && TrimmedParagraph(decode, p) == Ok(p.(run := TrimRuns(decode, p.run[a..b])))
               && (forall k :: 0 <= k < a ==> BlankText(p.run[k]))
               && (forall k :: b <= k < |p.run| ==> BlankText(p.run[k]))
               && (a < b ==> !BlankText(p.run[a]) && !BlankText(p.run[b - 1])))
  {
    var a, b := StretchOf(p.run);
    assert TrimmedParagraph(decode, p) == Ok(p.(run := TrimRuns(decode, p.run[a..b])));
  }

  /** Where the stretch `TrimmedIsStretch` keeps starts and ends in `rs`. */
  lemma StretchOf(rs: seq<RawRun>) returns (a: nat, b: nat)
    ensures a <= b <= |rs| && DropTrail(rs[LeadBlank(rs)..]) == rs[a..b]
    ensures forall k :: 0 <= k < a ==> BlankText(rs[k])
    ensures forall k :: b <= k < |rs| ==> BlankText(rs[k])
    ensures a < b ==> !BlankText(rs[a]) && !BlankText(rs[b - 1])
  {
    a := LeadBlank(rs);
    var rest := rs[a..];
    var t := TrailBlank(rest);
    b := a + |rest| - t;
    assert rest[..|rest| - t] == rs[a..b];
    forall k | b <= k < |rs|
      ensures BlankText(rs[k])
    {
      assert rs[k] == rest[k - a];
    }
    if a < b {
      assert rs[b - 1] == rest[|rest| - 1 - t];
    }
  }

  /** A paragraph whose text is all whitespace comes out with no runs at all. */
  lemma AllBlankIsEmpty(decode: string -> string, p: Pending)
    requires forall k :: 0 <= k < |p.run| ==> BlankText(p.run[k])
    ensures TrimmedParagraph(decode, p).Ok? && TrimmedParagraph(decode, p).value.run == []
  {
    if p.run != [] && p.kind.List? {
      AllBlankList(p.run);
    }
  }

  lemma {:induction false} AllBlankList(rs: seq<RawRun>)
    requires forall k :: 0 <= k < |rs| ==> BlankText(rs[k])
    ensures ListKept(rs) == Ok([])
  {
    if rs != [] {
      AllBlankList(rs[..|rs| - 1]);
    }
  }

  /** Outside lists trimming never throws, and it keeps the paragraph's kind and style. */
  lemma TrimmedNonList(decode: string -> string, p: Pending)
    requires !p.kind.List?
    ensures TrimmedParagraph(decode, p).Ok?
    ensures TrimmedParagraph(decode, p).value.kind == p.kind && TrimmedParagraph(decode, p).value.style == p.style
  {
  }

  /** A text run with some non-space character and no space at either end. */
  predicate TrimmedText(r: RawRun) {
    r.RawText? && Trimmed(r.content)
  }

  /** The non-blank runs of a list in order, each as a trimmed text. */
  function ListItems(rs: seq<RawRun>): (r: seq<RawRun>)
    requires forall k :: 0 <= k < |rs| ==> rs[k].RawText?
    ensures |r| <= |rs| && forall k :: 0 <= k < |r| ==> TrimmedText(r[k])
  {
    if rs == [] then []
    else
      var last := rs[|rs| - 1];
      var init := ListItems(rs[..|rs| - 1]);
      if IsBlank(last.content) then init
      else
        var item := RawText(last.style, Trim(last.content));
        TrimIsTrimmed(last.content);
        init + [item]
  }

  /** A list of texts keeps exactly its non-blank runs, each trimmed. */
  lemma {:induction false} ListKeptItems(rs: seq<RawRun>)
    requires forall k :: 0 <= k < |rs| ==> rs[k].RawText?
    ensures ListKept(rs) == Ok(ListItems(rs))
  {
    if rs != [] {
      ListKeptItems(rs[..|rs| - 1]);
    }
  }

  /** Runs with text that trimming leaves alone are not whitespace-only, so the `pop` loop removes none of them. */
  lemma NoTrailingBlank(rs: seq<RawRun>)
    requires forall k :: 0 <= k < |rs| ==> TrimmedText(rs[k])
    ensures DropTrail(rs) == rs
  {
    if rs != [] {
      TrimmedFixed(rs[|rs| - 1].content);
    }
  }

  /**
   * A list throws exactly when one of its runs has no text; otherwise every
   * whitespace-only run is dropped and every other one comes out trimmed on
   * both sides and decoded, in order.
   */
  lemma TrimmedList(decode: string -> string, p: Pending)
    requires p.kind.List?
    ensures TrimmedParagraph(decode, p).Fail? <==> exists k :: 0 <= k < |p.run| && !p.run[k].RawText?
    ensures (forall k :: 0 <= k < |p.run| ==> p.run[k].RawText?) ==>
      var items := ListItems(p.run);
      var r := TrimmedParagraph(decode, p).value.run;
      |r| == |items|
      && forall k :: 0 <= k < |r| ==> r[k] == RawText(items[k].style, decode(items[k].content))
  {
    TrimmedListThrows(decode, p);
    if forall k :: 0 <= k < |p.run| ==> p.run[k].RawText? {
      TrimmedListItems(decode, p);
    }
  }

  /** The throwing half of `TrimmedList`. */
  lemma TrimmedListThrows(decode: string -> string, p: Pending)
    requires p.kind.List?
    ensures TrimmedParagraph(decode, p).Fail? <==> exists k :: 0 <= k < |p.run| && !p.run[k].RawText?
  {
  }

  /** The kept half of `TrimmedList`. */
  lemma TrimmedListItems(decode: string -> string, p: Pending)
    requires p.kind.List? && forall k :: 0 <= k < |p.run| ==> p.run[k].RawText?
    ensures TrimmedParagraph(decode, p).Ok?
    ensures var items := ListItems(p.run);
      var r := TrimmedParagraph(decode, p).value.run;
      |r| == |items|
      && forall k :: 0 <= k < |r| ==> r[k] == RawText(items[k].style, decode(items[k].content))
  {
    ListKeptItems(p.run);
    var items := ListItems(p.run);
    NoTrailingBlank(items);
    if p.run != [] {
      assert TrimmedParagraph(decode, p).value.run == TrimRuns(decode, items);
      TrimRunsOfTrimmed(decode, items);
    }
  }

  /** Texts that are already trimmed are only decoded by `TrimRuns`, whatever their position. */
  lemma TrimRunsOfTrimmed(decode: string -> string, items: seq<RawRun>)
    requires forall k :: 0 <= k < |items| ==> items[k].RawText? && Trimmed(items[k].content)
    ensures var r := TrimRuns(decode, items);
      forall k :: 0 <= k < |items| ==> r[k] == RawText(items[k].style, decode(items[k].content))
  {
    var r := TrimRuns(decode, items);
    forall k | 0 <= k < |items|
      ensures r[k] == RawText(items[k].style, decode(items[k].content))
    {
      TrimmedFixed(items[k].content);
    }
  }

  // ---------------------------------------------------------------------
  // reflectStyleToParagraph
  // ---------------------------------------------------------------------

  /** `{ ...a, ...b }` on two style objects: a key `b` has replaces `a`'s, `spacing` as a whole. */
  function Spread(a: Style, b: Style): Style {
    Style(
      a.bold || b.bold, a.italics || b.italics, a.underline || b.underline, a.strike || b.strike,
      Over(a.heading, b.heading),
      a.uppercase || b.uppercase, a.capitalize || b.capitalize, a.lowercase || b.lowercase,
      a.invertcase || b.invertcase, a.uppercasesentence || b.uppercasesentence,
      Over(a.font, b.font), Over(a.size, b.size), Over(a.color, b.color),
      Over(a.spacing, b.spacing), Over(a.alignment, b.alignment),
      Over(a.indent, b.indent), Over(a.width, b.width), Over(a.height, b.height))
  }

  /** The four keys `reflectStyleToParagraph` hoists, each as a function on styles. */
  function AlignmentKey(s: Style): Option<Alignment> { s.alignment }
  function IndentKey(s: Style): Option<Indent> { s.indent }
  function HeadingKey(s: Style): Option<nat> { s.heading }
  function SpacingKey(s: Style): Option<Spacing> { s.spacing }

  /**
   * The value `key` has in the style of the last run that defines it:
   * after spreading every run's style in order, the last definer wins.
   */
  function LastOf<T>(rs: seq<RawRun>, key: Style -> Option<T>): (r: Option<T>)
    ensures r.None? <==> forall k :: 0 <= k < |rs| ==> key(RawStyle(rs[k])).None?
    ensures r.Some? ==> exists k :: (0 <= k < |rs| && key(RawStyle(rs[k])) == r
                                     && forall j :: k < j < |rs| ==> key(RawStyle(rs[j])).None?)
  {
    if rs == [] then None
    else
      var v := key(RawStyle(rs[|rs| - 1]));
      if v.Some? then v
      else
        assert forall k :: 0 <= k < |rs| - 1 ==> rs[..|rs| - 1][k] == rs[k];
        LastOf(rs[..|rs| - 1], key)
  }

  /** Spreading one more run's style: its value wins if it has one. */
  lemma LastOfStep<T>(rs: seq<RawRun>, i: nat, key: Style -> Option<T>)
    requires i < |rs|
    ensures LastOf(rs[..i + 1], key) == Over(LastOf(rs[..i], key), key(RawStyle(rs[i])))
  {
    assert rs[..i + 1][..i] == rs[..i];
  }

  /** The paragraph style with the four hoisted keys set from the runs, where a run defines them. */
  function Hoisted(own: Style, rs: seq<RawRun>): Style {
    own.(alignment := Over(own.alignment, LastOf(rs, AlignmentKey)),
         indent := Over(own.indent, LastOf(rs, IndentKey)),
         heading := Over(own.heading, LastOf(rs, HeadingKey)),
         spacing := Over(own.spacing, LastOf(rs, SpacingKey)))
  }

  /** What `reflectStyleToParagraph(paragraph)` gives. */
  function Reflected(p: Pending): Pending {
    if p.run == [] then p else p.(style := Hoisted(p.style, p.run))
  }

  /** `reflectStyleToParagraph(paragraph)` */
  method ReflectStyleToParagraph(p: Pending) returns (r: Pending)
    ensures r == Reflected(p)
  {
    if p.run == [] {
      return p;
    }
    var style := Empty;
    var i := 0;
    while i < |p.run|
      invariant 0 <= i <= |p.run|
      invariant style.alignment == LastOf(p.run[..i], AlignmentKey)
      invariant style.indent == LastOf(p.run[..i], IndentKey)
      invariant style.heading == LastOf(p.run[..i], HeadingKey)
      invariant style.spacing == LastOf(p.run[..i], SpacingKey)
    {
      LastOfStep(p.run, i, AlignmentKey);
      LastOfStep(p.run, i, IndentKey);
      LastOfStep(p.run, i, HeadingKey);
      LastOfStep(p.run, i, SpacingKey);
      style := Spread(style, RawStyle(p.run[i]));
      i := i + 1;
    }
    assert p.run[..i] == p.run;
    var alignment, indent, heading, spacing := p.style.alignment, p.style.indent, p.style.heading, p.style.spacing;
    if style.alignment.Some? {
      alignment := style.alignment;
    }
    if style.indent.Some? {
      indent := style.indent;
    }
    if style.heading.Some? {
      heading := style.heading;
    }
    if style.spacing.Some? {
      spacing := style.spacing;
    }
    r := p.(style := p.style.(alignment := alignment, indent := indent, heading := heading, spacing := spacing));
  }

  /** The hoisting leaves the runs alone and copies no key but alignment, indent, heading and spacing. */
  lemma ReflectedKeepsRest(p: Pending)
    ensures Reflected(p).run == p.run && Reflected(p).kind == p.kind
    ensures var s := Reflected(p).style;
      p.style.(alignment := s.alignment, indent := s.indent, heading := s.heading, spacing := s.spacing) == s
  {
  }

  /**
   * A run's alignment becomes the paragraph's when no later run has one of
   * its own; a paragraph none of whose runs has one keeps its own.
   */
  lemma ReflectedAlignment(p: Pending, k: nat)
    requires k < |p.run| && RawStyle(p.run[k]).alignment.Some?
    requires forall j :: k < j < |p.run| ==> RawStyle(p.run[j]).alignment.None?
    ensures Reflected(p).style.alignment == RawStyle(p.run[k]).alignment
  {
    var m :| 0 <= m < |p.run| && AlignmentKey(RawStyle(p.run[m])) == LastOf(p.run, AlignmentKey)
      && forall j :: m < j < |p.run| ==> AlignmentKey(RawStyle(p.run[j])).None?;
  }

  /** The same for the spacing object, which is taken whole from that run and not merged key by key. */
  lemma ReflectedSpacing(p: Pending, k: nat)
    requires k < |p.run| && RawStyle(p.run[k]).spacing.Some?
    requires forall j :: k < j < |p.run| ==> RawStyle(p.run[j]).spacing.None?
    ensures Reflected(p).style.spacing == RawStyle(p.run[k]).spacing
  {
    var m :| 0 <= m < |p.run| && SpacingKey(RawStyle(p.run[m])) == LastOf(p.run, SpacingKey)
      && forall j :: m < j < |p.run| ==> SpacingKey(RawStyle(p.run[j])).None?;
  }

  // ---------------------------------------------------------------------
  // applyStyle
  // ---------------------------------------------------------------------

  /** `char === char.toUpperCase() ? char.toLowerCase() : char.toUpperCase()` */
  function InvertChar(c: char): char {
    if c == UpperChar(c) then LowerChar(c) else UpperChar(c)
  }

  /**
   * The `invertcase` transform: every lower-case letter becomes a capital,
   * every capital lower-case, and every other character stays.
   */
  function InvertCase(s: string): (r: string)
    ensures |r| == |s|
    ensures forall k :: 0 <= k < |s| ==>
      (IsLowerLetter(s[k]) ==> r[k] == UpperChar(s[k]))
      && (IsUpperLetter(s[k]) ==> r[k] == LowerChar(s[k]))
      && (!IsLetter(s[k]) ==> r[k] == s[k])
  {
    seq(|s|, k requires 0 <= k < |s| => InvertChar(s[k]))
  }

  /** The index of the first ASCII letter (`search(/[a-zA-Z]/)`), or `|s|` when there is none. */
  function FirstLetter(s: string): (k: nat)
    ensures k <= |s| && (k < |s| ==> IsLetter(s[k]))
    ensures forall j :: 0 <= j < k ==> !IsLetter(s[j])
  {
    if s == [] then 0 else if IsLetter(s[0]) then 0 else 1 + FirstLetter(s[1..])
  }

  /** One sentence of `uppercasesentence`: its first letter upper-cased. */
  function CapFirstLetter(s: string): string {
    var k := FirstLetter(s);
    if k < |s| then s[..k] + [UpperChar(s[k])] + s[k + 1..] else s
  }

  /** The `uppercasesentence` transform: lower-case it all, then upper-case the first letter after every `.`. */
  function SentenceCase(s: string): string {
    var parts := Split(ToLower(s), '.');
    Join(seq(|parts|, k requires 0 <= k < |parts| => CapFirstLetter(parts[k])), '.')
  }

  /** The transform the run's style selects, in the code's order of precedence. */
  function Transformed(style: Style, content: string): string {
    if style.uppercase then ToUpper(content)
    else if style.capitalize then TextHelper.Capitalize(content, true)
    else if style.lowercase then ToLower(content)
    else if style.invertcase then InvertCase(content)
    else if style.uppercasesentence then SentenceCase(content)
    else content
  }

  /** One run as `applyStyle` maps it. */
  function ApplyRun(r: RawRun): Run {
    match r
    case RawText(s, c) => TextRun(s, if |c| > 0 then Some(Transformed(s, c)) else None)
    case RawImage(img) => ImageRun(img)
    case RawRow(row) => RowRun(row)
  }

  /** `applyStyle(paragraph)`: the runs mapped, the paragraph's kind and style kept. */
  function ApplyStyle(p: Pending): (b: Block)
    ensures b.kind == p.kind && b.style == p.style && |b.run| == |p.run|
  {
    Block(p.kind, p.style, seq(|p.run|, k requires 0 <= k < |p.run| => ApplyRun(p.run[k])))
  }

  /** Images and rows pass through untouched; a text keeps its style, and its content becomes `null` exactly when empty. */
  lemma ApplyRunShape(r: RawRun)
    ensures r.RawImage? ==> ApplyRun(r) == ImageRun(r.image)
    ensures r.RawRow? ==> ApplyRun(r) == RowRun(r.row)
    ensures r.RawText? ==>
              (ApplyRun(r).TextRun? && ApplyRun(r).style == r.style
               && (ApplyRun(r).content.None? <==> r.content == []))
  {
  }

  /** A style with no transform flag leaves the text as it is. */
  lemma NoTransform(style: Style, c: string)
    requires !style.uppercase && !style.capitalize && !style.lowercase && !style.invertcase && !style.uppercasesentence
    ensures Transformed(style, c) == c
  {
  }

  /**
   * Only the flag of highest precedence counts: the result is what that
   * flag alone would give, whatever flags of lower precedence are set too.
   */
  lemma TransformPrecedence(style: Style, c: string)
    ensures style.uppercase ==> Transformed(style, c) == Transformed(Empty.(uppercase := true), c)
    ensures !style.uppercase && style.capitalize ==> Transformed(style, c) == Transformed(Empty.(capitalize := true), c)
    ensures !style.uppercase && !style.capitalize && style.lowercase ==>
      Transformed(style, c) == Transformed(Empty.(lowercase := true), c)
    ensures !style.uppercase && !style.capitalize && !style.lowercase && style.invertcase ==>
      Transformed(style, c) == Transformed(Empty.(invertcase := true), c)
    ensures !style.uppercase && !style.capitalize && !style.lowercase && !style.invertcase && style.uppercasesentence ==>
      Transformed(style, c) == Transformed(Empty.(uppercasesentence := true), c)
  {
  }

  /** On ASCII case mapping `invertcase` undoes itself. */
  lemma InvertCaseInvolution(s: string)
    ensures InvertCase(InvertCase(s)) == s
  {
    forall k | 0 <= k < |s|
      ensures InvertChar(InvertChar(s[k])) == s[k]
    {
    }
  }

  /** `b` is `a` with some characters upper-cased. */
  predicate UpperedFrom(a: string, b: string) {
    |a| == |b| && forall k :: 0 <= k < |a| ==> b[k] == a[k] || b[k] == UpperChar(a[k])
  }

  lemma CapFirstLetterUppers(s: string)
    ensures UpperedFrom(s, CapFirstLetter(s))
  {
    var k := FirstLetter(s);
    if k < |s| {
      var r := CapFirstLetter(s);
      assert forall j :: 0 <= j < |s| ==> r[j] == if j == k then UpperChar(s[k]) else s[j];
    }
  }

  /** Joining pieces that were each upper-cased in places is the join upper-cased in places. */
  lemma {:induction false} JoinUppered(ps: seq<string>, qs: seq<string>, c: char)
    requires |ps| == |qs| >= 1 && forall k :: 0 <= k < |ps| ==> UpperedFrom(ps[k], qs[k])
    ensures UpperedFrom(Join(ps, c), Join(qs, c))
    decreases |ps|
  {
    if |ps| > 1 {
      JoinUppered(ps[..|ps| - 1], qs[..|qs| - 1], c);
      var a, b := Join(ps[..|ps| - 1], c), Join(qs[..|qs| - 1], c);
      var x, y := ps[|ps| - 1], qs[|qs| - 1];
      assert Join(ps, c) == a + [c] + x;
      assert Join(qs, c) == b + [c] + y;
      forall k | 0 <= k < |a| + 1 + |x|
        ensures Join(qs, c)[k] == Join(ps, c)[k] || Join(qs, c)[k] == UpperChar(Join(ps, c)[k])
      {
        if k < |a| {
        } else if k == |a| {
        } else {
          assert Join(ps, c)[k] == x[k - |a| - 1] && Join(qs, c)[k] == y[k - |a| - 1];
        }
      }
    }
  }

  /** `uppercasesentence` keeps the length and puts every `.` where it was, and nothing else becomes a `.`. */
  lemma SentenceCaseKeepsStops(s: string)
    ensures |SentenceCase(s)| == |s|
    ensures forall k :: 0 <= k < |s| ==> (SentenceCase(s)[k] == '.' <==> s[k] == '.')
  {
    var lower := ToLower(s);
    var parts := Split(lower, '.');
    var caps := seq(|parts|, k requires 0 <= k < |parts| => CapFirstLetter(parts[k]));
    forall k | 0 <= k < |parts|
      ensures UpperedFrom(parts[k], caps[k])
    {
      CapFirstLetterUppers(parts[k]);
    }
    JoinUppered(parts, caps, '.');
    JoinSplit(lower, '.');
  }

  // ---------------------------------------------------------------------
  // normalizeParagraph
  // ---------------------------------------------------------------------

  /** `normalizeParagraph(paragraph)`: trimmed, then its style hoisted, then its runs transformed. */
  function NormalizeParagraph(decode: string -> string, p: Pending): (r: Result<Block>)
    ensures r.Ok? ==> r.value.kind == p.kind
    ensures !p.kind.List? ==> r.Ok?
  {
    match TrimmedParagraph(decode, p)
    case Fail(e) => Fail(e)
    case Ok(t) => Ok(ApplyStyle(Reflected(t)))
  }

  /** A paragraph of whitespace-only text normalizes to a block with no runs, which the builder then drops. */
  lemma BlankParagraphIsEmpty(decode: string -> string, p: Pending)
    requires forall k :: 0 <= k < |p.run| ==> BlankText(p.run[k])
    ensures NormalizeParagraph(decode, p).Ok? && NormalizeParagraph(decode, p).value.run == []
  {
    AllBlankIsEmpty(decode, p);
  }
}
