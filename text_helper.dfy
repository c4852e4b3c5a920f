/**
 * The string helpers `trim(str, ch)` and `capitalize(str, lower)`.
 *
 * `trim` walks two indices inwards; it is a method proved against the
 * function `TrimChar`. `capitalize` is a single regular-expression
 * replacement; it is a function whose contract says which characters the
 * replacement upper-cases.
 */
module TextHelper {
  import opened Js

  // ---------------------------------------------------------------------
  // trim(str, ch)
  // ---------------------------------------------------------------------

  /** `str` without its leading run of `ch`. */
  function TrimCharStart(s: string, ch: char): (r: string)
    ensures |r| <= |s| && r == s[|s| - |r|..]
    ensures r == [] || r[0] != ch
    ensures forall k :: 0 <= k < |s| - |r| ==> s[k] == ch
  {
    if |s| > 0 && s[0] == ch then TrimCharStart(s[1..], ch) else s
  }

  /** `str` without its trailing run of `ch`. */
  function TrimCharEnd(s: string, ch: char): (r: string)
    ensures |r| <= |s| && r == s[..|r|]
    ensures r == [] || r[|r| - 1] != ch
    ensures forall k :: |r| <= k < |s| ==> s[k] == ch
  {
    if |s| > 0 && s[|s| - 1] == ch then TrimCharEnd(s[..|s| - 1], ch) else s
  }

  /** What `trim(str, ch)` returns: `str` with the runs of `ch` at both ends removed. */
  function TrimChar(s: string, ch: char): string {
    TrimCharEnd(TrimCharStart(s, ch), ch)
  }

  /** The leading run of `ch` ends exactly where the first other character is. */
  lemma {:induction false} TrimCharStartAt(s: string, ch: char, a: nat)
    requires a <= |s| && (forall k :: 0 <= k < a ==> s[k] == ch) && (a == |s| || s[a] != ch)
    ensures TrimCharStart(s, ch) == s[a..]
    decreases a
  {
    if a > 0 {
      assert s[1..][a - 1..] == s[a..];
      TrimCharStartAt(s[1..], ch, a - 1);
    }
  }

  /** In the part of `s` from `a` on, the trailing run of `ch` starts exactly after the last other character. */
  lemma {:induction false} TrimCharEndAt(s: string, ch: char, a: nat, b: nat)
    requires a <= b <= |s| && (forall k :: b <= k < |s| ==> s[k] == ch) && (b == a || s[b - 1] != ch)
    ensures TrimCharEnd(s[a..], ch) == s[a..b]
    decreases |s| - b
  {
    if b < |s| {
      var u := s[..|s| - 1];
      assert s[a..][..|s[a..]| - 1] == u[a..];
      assert u[a..b] == s[a..b];
      TrimCharEndAt(u, ch, a, b);
    }
  }

  /** A run of `ch` before `a` and from `b` on, with other characters at `a` and before `b`, is what `trim` removes. */
  lemma TrimCharBetween(s: string, ch: char, a: nat, b: nat)
    requires a <= b <= |s|
    requires (forall k :: 0 <= k < a ==> s[k] == ch) && (a == |s| || s[a] != ch)
    requires (forall k :: b <= k < |s| ==> s[k] == ch) && (b == a || s[b - 1] != ch)
    ensures TrimChar(s, ch) == s[a..b]
  {
    TrimCharStartAt(s, ch, a);
    TrimCharEndAt(s, ch, a, b);
  }

  /** `trim(str, ch)` */
  method Trim(str: string, ch: char) returns (r: string)
    ensures r == TrimChar(str, ch)
  {
    var start, end := 0, |str|;
    while start < end && str[start] == ch
      invariant 0 <= start <= end == |str|
      invariant forall k :: 0 <= k < start ==> str[k] == ch
    {
      start := start + 1;
    }
    while end > start && str[end - 1] == ch
      invariant start <= end <= |str|
      invariant forall k :: end <= k < |str| ==> str[k] == ch
    {
      end := end - 1;
    }
    TrimCharBetween(str, ch, start, end);
    if start > 0 || end < |str| {
      r := str[start..end];
    } else {
      r := str;
    }
  }

  /**
   * `trim(str, ch)` is a contiguous piece of `str` that neither starts nor
   * ends with `ch`, and everything cut off on either side is `ch`.
   */
  lemma TrimCharShape(s: string, ch: char)
    ensures var r := TrimChar(s, ch);
      (r == [] || (r[0] != ch && r[|r| - 1] != ch))
      && (exists a, b ::
            0 <= a <= b <= |s| && r == s[a..b]
            && (forall k :: 0 <= k < a ==> s[k] == ch) && (forall k :: b <= k < |s| ==> s[k] == ch))
  {
    var t := TrimCharStart(s, ch);
    var r := TrimCharEnd(t, ch);
    var a := |s| - |t|;
    var b := a + |r|;
    assert r == s[a..b];
    assert forall k :: b <= k < |s| ==> s[k] == t[k - a];
  }

  /** A string that neither starts nor ends with `ch` comes back as it is. */
  lemma TrimCharKeeps(s: string, ch: char)
    requires s == [] || (s[0] != ch && s[|s| - 1] != ch)
    ensures TrimChar(s, ch) == s
  {
  }

  /** Trimming twice trims no more than once. */
  lemma TrimCharIdempotent(s: string, ch: char)
    ensures TrimChar(TrimChar(s, ch), ch) == TrimChar(s, ch)
  {
    TrimCharShape(s, ch);
    TrimCharKeeps(TrimChar(s, ch), ch);
  }

  // ---------------------------------------------------------------------
  // capitalize(str, lower)
  // ---------------------------------------------------------------------

  /** The characters after which `/(?:^|\s|["'([{])+\S/g` finds the start of a word. */
  predicate IsBoundary(c: char) {
    IsSpace(c) || c == '"' || c == '\'' || c == '(' || c == '[' || c == '{'
  }

  /** Whether position `i` of `t` starts a word: the first position, or one after a boundary character. */
  predicate WordStart(t: string, i: nat)
    requires i < |t|
  {
    i == 0 || IsBoundary(t[i - 1])
  }

  /**
   * The replacement scanning `t` from the left: `atBoundary` says whether the
   * previous character (or the start of the text) lets a word begin here.
   */
  function CapitalizeFrom(t: string, atBoundary: bool): (r: string)
    ensures |r| == |t|
    ensures forall i :: 0 <= i < |t| ==>
      r[i] == if (i == 0 && atBoundary) || (i > 0 && IsBoundary(t[i - 1])) then UpperChar(t[i]) else t[i]
  {
    if t == [] then []
    else [if atBoundary then UpperChar(t[0]) else t[0]] + CapitalizeFrom(t[1..], IsBoundary(t[0]))
  }

  /** `capitalize(str, lower)`: the first character of every word upper-cased, after lower-casing all of `str` if asked. */
  function Capitalize(str: string, lower: bool): (r: string)
    ensures var t := if lower then ToLower(str) else str;
      |r| == |str| && forall i :: 0 <= i < |t| ==> r[i] == if WordStart(t, i) then UpperChar(t[i]) else t[i]
  {
    CapitalizeFrom(if lower then ToLower(str) else str, true)
  }

  /** Upper-casing never makes or breaks a boundary. */
  lemma BoundaryIgnoresCase(c: char)
    ensures IsBoundary(UpperChar(c)) == IsBoundary(c)
  {
  }

  /** Capitalizing what is already capitalized changes nothing. */
  lemma {:induction false} CapitalizeFromIdempotent(t: string, atBoundary: bool)
    ensures CapitalizeFrom(CapitalizeFrom(t, atBoundary), atBoundary) == CapitalizeFrom(t, atBoundary)
    decreases |t|
  {
    if t != [] {
      var r := CapitalizeFrom(t, atBoundary);
      BoundaryIgnoresCase(t[0]);
      CapitalizeFromIdempotent(t[1..], IsBoundary(t[0]));
      assert r[1..] == CapitalizeFrom(t[1..], IsBoundary(t[0]));
      assert IsBoundary(r[0]) == IsBoundary(t[0]);
    }
  }

  /** `capitalize` of its own result changes nothing. */
  lemma CapitalizeIdempotent(s: string, lower: bool)
    ensures Capitalize(Capitalize(s, lower), false) == Capitalize(s, lower)
  {
    CapitalizeFromIdempotent(if lower then ToLower(s) else s, true);
  }

  /** Capitalizing after lower-casing only changes the case of letters. */
  lemma CapitalizeKeepsLetters(s: string)
    ensures ToLower(Capitalize(s, true)) == ToLower(s)
  {
  }

  /** The replacement works piece by piece: the second piece starts a word exactly when the first ends in a boundary. */
  lemma {:induction false} CapitalizeFromConcat(a: string, b: string, atBoundary: bool)
    requires a != []
    ensures CapitalizeFrom(a + b, atBoundary) == CapitalizeFrom(a, atBoundary) + CapitalizeFrom(b, IsBoundary(a[|a| - 1]))
    decreases |a|
  {
    assert (a + b)[0] == a[0] && (a + b)[1..] == a[1..] + b;
    if |a| > 1 {
      CapitalizeFromConcat(a[1..], b, IsBoundary(a[0]));
    } else {
      assert a[1..] + b == b;
    }
  }

  /** A non-empty word with no boundary character in it. */
  predicate PlainWord(w: string) {
    w != [] && forall k :: 0 <= k < |w| ==> !IsBoundary(w[k])
  }

  /** A word with its first character upper-cased and the rest left alone. */
  function CapWord(w: string): string {
    if w == [] then [] else [UpperChar(w[0])] + w[1..]
  }

  /** Inside a plain word only the first character can change, and only when a word starts there. */
  lemma {:induction false} PlainWordCapitalized(w: string, atBoundary: bool)
    requires PlainWord(w)
    ensures CapitalizeFrom(w, atBoundary) == if atBoundary then CapWord(w) else w
    decreases |w|
  {
    if |w| > 1 {
      PlainWordCapitalized(w[1..], false);
    }
  }

  /**
   * Plain words joined by single spaces come out with each word's first
   * character upper-cased (`capitalize('fix this string')` is
   * `Fix This String`).
   */
  lemma {:induction false} CapitalizeJoinedWords(ws: seq<string>)
    requires |ws| >= 1 && forall k :: 0 <= k < |ws| ==> PlainWord(ws[k])
    ensures CapitalizeFrom(Join(ws, ' '), true) == Join(seq(|ws|, k requires 0 <= k < |ws| => CapWord(ws[k])), ' ')
    decreases |ws|
  {
    var caps := seq(|ws|, k requires 0 <= k < |ws| => CapWord(ws[k]));
    var last := ws[|ws| - 1];
    if |ws| == 1 {
      PlainWordCapitalized(last, true);
    } else {
      var init := ws[..|ws| - 1];
      var j := Join(init, ' ');
      CapitalizeJoinedWords(init);
      JoinEndsWithLast(init, ' ');
      assert Join(ws, ' ') == j + ([' '] + last);
      CapitalizeFromConcat(j, [' '] + last, true);
      CapitalizeFromConcat([' '], last, false);
      PlainWordCapitalized(last, true);
      assert caps[..|ws| - 1] == seq(|init|, k requires 0 <= k < |init| => CapWord(init[k]));
    }
  }

  /** A join ends with its last part. */
  lemma JoinEndsWithLast(parts: seq<string>, c: char)
    requires |parts| >= 1 && parts[|parts| - 1] != []
    ensures var j := Join(parts, c); |j| >= 1 && j[|j| - 1] == parts[|parts| - 1][|parts[|parts| - 1]| - 1]
  {
  }

  /**
   * A single plain word keeps everything after its first character, or has it
   * lower-cased when asked (`capitalize('javaSCrIPT')` is `JavaSCrIPT`,
   * `capitalize('javaSCrIPT', true)` is `Javascript`).
   */
  lemma CapitalizeOneWord(w: string, lower: bool)
    requires PlainWord(w)
    ensures Capitalize(w, lower) == CapWord(if lower then ToLower(w) else w)
  {
    var t := if lower then ToLower(w) else w;
    forall k | 0 <= k < |t|
      ensures !IsBoundary(t[k])
    {
      assert t[k] == w[k] || t[k] == LowerChar(w[k]);
    }
    PlainWordCapitalized(t, true);
  }
}
