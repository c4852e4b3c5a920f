/**
 * The parts of the JavaScript runtime the converter leans on, stated as
 * Dafny values and functions: nullable values, thrown TypeErrors, the
 * whitespace class used by `String.prototype.trim` and the regular
 * expression `\s`, ASCII case mapping, `split`/`join` on one separator,
 * and the number parsers `parseInt`/`parseFloat` with `Math.round`.
 */
module Js {

  /** `undefined`/`null` versus a present value. */
  datatype Option<+T> = None | Some(value: T)

  /** The ways the converter can throw. */
  datatype Error =
    /** a declaration such as `color` with no `:` reaches a string method with `undefined` */
    | MissingValue(property: string)
    /** `line.content.trim()` on a list run that has no `content` (an image) */
    | RunWithoutContent
    /** `undefined.toUpperCase()` on a letter or Greek list marker whose index falls before the alphabet */
    | UndefinedLetter
    /** `sharp(buffer).metadata()` rejecting image bytes it cannot read */
    | UnreadableImage

  /** An evaluation that either returns normally or throws. */
  datatype Result<+T> = Ok(value: T) | Fail(error: Error) {
    predicate IsFailure() { Fail? }
    function PropagateFailure<U>(): Result<U>
      requires Fail?
    {
      Fail(error)
    }
    function Extract(): T
      requires Ok?
    {
      value
    }
  }

  /**
   * Evaluations run one after the other, as a loop or `Promise.all` over
   * them: every value in order, or the error of the first that throws.
   */
  function Collect<T>(rs: seq<Result<T>>): Result<seq<T>> {
    if rs == [] then Ok([])
    else
      match Collect(rs[..|rs| - 1])
      case Fail(e) => Fail(e)
      case Ok(vs) =>
        match rs[|rs| - 1]
        case Fail(e) => Fail(e)
        case Ok(v) => Ok(vs + [v])
  }

  /**
   * `Collect` succeeds exactly when every evaluation does, with their values
   * in order; otherwise its error is that of the first evaluation that failed.
   */
  lemma {:induction false} CollectShape<T>(rs: seq<Result<T>>)
    ensures Collect(rs).Ok? <==> forall k :: 0 <= k < |rs| ==> rs[k].Ok?
    ensures Collect(rs).Ok? ==> |Collect(rs).value| == |rs| && forall k :: 0 <= k < |rs| ==> Collect(rs).value[k] == rs[k].value
    ensures Collect(rs).Fail? ==>
      exists k :: 0 <= k < |rs| && rs[k].Fail? && Collect(rs).error == rs[k].error && forall j :: 0 <= j < k ==> rs[j].Ok?
  {
    if rs != [] {
      var init := rs[..|rs| - 1];
      CollectShape(init);
      assert forall k :: 0 <= k < |init| ==> init[k] == rs[k];
      if Collect(init).Ok? && rs[|rs| - 1].Ok? {
        var vs := Collect(init).value + [rs[|rs| - 1].value];
        assert Collect(rs) == Ok(vs);
        assert forall k :: 0 <= k < |init| ==> vs[k] == Collect(init).value[k];
      } else if Collect(init).Ok? {
        assert Collect(rs).error == rs[|rs| - 1].error;
      }
    }
  }

  /** Once an evaluation has failed, those after it are not reached. */
  lemma {:induction false} CollectFailureSticks<T>(rs: seq<Result<T>>, m: nat)
    requires m <= |rs| && Collect(rs[..m]).Fail?
    ensures Collect(rs) == Collect(rs[..m])
    decreases |rs|
  {
    if m == |rs| {
      assert rs[..m] == rs;
    } else {
      var init := rs[..|rs| - 1];
      assert init[..m] == rs[..m];
      CollectFailureSticks(init, m);
    }
  }

  /** The evaluations up to `i` and the one at `i`, as `CollectSnoc` puts them together. */
  lemma CollectPrefixStep<T>(rs: seq<Result<T>>, i: nat)
    requires i < |rs|
    ensures Collect(rs[..i + 1]) ==
      if Collect(rs[..i]).Fail? then Collect(rs[..i])
      else if rs[i].Fail? then Fail(rs[i].error)
      else Ok(Collect(rs[..i]).value + [rs[i].value])
  {
    assert rs[..i + 1] == rs[..i] + [rs[i]];
    CollectSnoc(rs[..i], rs[i]);
  }

  /** One evaluation more: its value follows the others, or its error is the result. */
  lemma CollectSnoc<T>(rs: seq<Result<T>>, x: Result<T>)
    ensures Collect(rs + [x]) ==
      if Collect(rs).Fail? then Collect(rs)
      else if x.Fail? then Fail(x.error)
      else Ok(Collect(rs).value + [x.value])
  {
    assert (rs + [x])[..|rs|] == rs;
  }

  // ---------------------------------------------------------------------
  // Whitespace, as `trim()` and `\s` see it
  // ---------------------------------------------------------------------

  /** ECMAScript WhiteSpace and LineTerminator code points. */
  predicate IsSpace(c: char) {
    c == '\t' || c == '\n' || c == '\U{000B}' || c == '\U{000C}' || c == '\r' || c == ' '
    || c == '\U{00A0}' || c == '\U{1680}' || ('\U{2000}' <= c <= '\U{200A}')
    || c == '\U{2028}' || c == '\U{2029}' || c == '\U{202F}' || c == '\U{205F}'
    || c == '\U{3000}' || c == '\U{FEFF}'
  }

  /** `s.trim().length === 0`. */
  predicate IsBlank(s: string) {
    forall i :: 0 <= i < |s| ==> IsSpace(s[i])
  }

  /** `s.trimStart()`. */
  function TrimStart(s: string): (r: string)
    ensures |r| <= |s|
    ensures r == [] || !IsSpace(r[0])
  {
    if |s| > 0 && IsSpace(s[0]) then TrimStart(s[1..]) else s
  }

  /** `trimStart()` removes a blank prefix and keeps the rest. */
  lemma {:induction false} TrimStartSuffix(s: string)
    ensures var r := TrimStart(s); r == s[|s| - |r|..] && IsBlank(s[..|s| - |r|])
  {
    if |s| > 0 && IsSpace(s[0]) {
      var r := TrimStart(s[1..]);
      TrimStartSuffix(s[1..]);
      assert s[..|s| - |r|] == [s[0]] + s[1..][..|s| - 1 - |r|];
    }
  }

  /** `s.trimEnd()`. */
  function TrimEnd(s: string): (r: string)
    ensures |r| <= |s|
    ensures r == [] || !IsSpace(r[|r| - 1])
  {
    if |s| > 0 && IsSpace(s[|s| - 1]) then TrimEnd(s[..|s| - 1]) else s
  }

  /** `trimEnd()` removes a blank suffix and keeps the rest. */
  lemma {:induction false} TrimEndPrefix(s: string)
    ensures var r := TrimEnd(s); r == s[..|r|] && IsBlank(s[|r|..])
  {
    if |s| > 0 && IsSpace(s[|s| - 1]) {
      var r := TrimEnd(s[..|s| - 1]);
      TrimEndPrefix(s[..|s| - 1]);
      assert s[|r|..] == s[..|s| - 1][|r|..] + [s[|s| - 1]];
    }
  }

  /** `s.trim()`. */
  function Trim(s: string): string {
    TrimEnd(TrimStart(s))
  }

  lemma {:induction false} TrimStartBlank(s: string)
    ensures TrimStart(s) == [] <==> IsBlank(s)
  {
    if |s| > 0 && IsSpace(s[0]) {
      TrimStartBlank(s[1..]);
    }
  }

  /** The text left by `trim()` is empty exactly when the string is whitespace only. */
  lemma TrimEmptyIffBlank(s: string)
    ensures Trim(s) == [] <==> IsBlank(s)
  {
    TrimStartBlank(s);
    var t := TrimStart(s);
    TrimStartSuffix(s);
    assert s == s[..|s| - |t|] + t;
    if TrimEnd(t) == [] {
      TrimEndPrefix(t);
      assert IsBlank(t);
    }
  }

  /** A string that `trim()` left alone has nothing left to trim. */
  lemma TrimIdempotent(s: string)
    ensures Trim(Trim(s)) == Trim(s)
    ensures TrimStart(Trim(s)) == Trim(s) && TrimEnd(Trim(s)) == Trim(s)
  {
    var t := Trim(s);
    var u := TrimStart(s);
    TrimEndPrefix(u);
    assert t == u[..|t|];
    if |t| > 0 {
      assert t[0] == u[0];
    }
  }

  /** A non-empty string with no whitespace at either end. */
  predicate Trimmed(s: string) {
    |s| > 0 && !IsSpace(s[0]) && !IsSpace(s[|s| - 1])
  }

  /** `trim()` of a string that is not whitespace only is `Trimmed`. */
  lemma TrimIsTrimmed(s: string)
    requires !IsBlank(s)
    ensures Trimmed(Trim(s))
  {
    TrimEmptyIffBlank(s);
    var t := Trim(s);
    var u := TrimStart(s);
    TrimEndPrefix(u);
    assert t == u[..|t|];
    assert t[0] == u[0];
  }

  /** Each of the three trims leaves a `Trimmed` string alone. */
  lemma TrimmedFixed(s: string)
    requires Trimmed(s)
    ensures TrimStart(s) == s && TrimEnd(s) == s && Trim(s) == s && !IsBlank(s)
  {
    assert !IsSpace(s[0]);
  }

  // ---------------------------------------------------------------------
  // ASCII case mapping (`toUpperCase`/`toLowerCase` restricted to ASCII)
  // ---------------------------------------------------------------------

  predicate IsLowerLetter(c: char) { 'a' <= c <= 'z' }
  predicate IsUpperLetter(c: char) { 'A' <= c <= 'Z' }
  predicate IsLetter(c: char) { IsLowerLetter(c) || IsUpperLetter(c) }

  function UpperChar(c: char): (r: char)
    ensures IsLowerLetter(c) ==> IsUpperLetter(r) && r as int == c as int - 32
    ensures !IsLowerLetter(c) ==> r == c
  {
    if IsLowerLetter(c) then (c as int - 32) as char else c
  }

  function LowerChar(c: char): (r: char)
    ensures IsUpperLetter(c) ==> IsLowerLetter(r) && r as int == c as int + 32
    ensures !IsUpperLetter(c) ==> r == c
  {
    if IsUpperLetter(c) then (c as int + 32) as char else c
  }

  /** `s.toUpperCase()` */
  function ToUpper(s: string): (r: string)
    ensures |r| == |s| && forall i :: 0 <= i < |s| ==> r[i] == UpperChar(s[i])
  {
    if s == [] then [] else [UpperChar(s[0])] + ToUpper(s[1..])
  }

  /** `s.toLowerCase()` */
  function ToLower(s: string): (r: string)
    ensures |r| == |s| && forall i :: 0 <= i < |s| ==> r[i] == LowerChar(s[i])
  {
    if s == [] then [] else [LowerChar(s[0])] + ToLower(s[1..])
  }

  /** `isUpper ? s.toUpperCase() : s.toLowerCase()`, the tail of every list-marker helper. */
  function CaseAs(s: string, isUpper: bool): string {
    if isUpper then ToUpper(s) else ToLower(s)
  }

  // ---------------------------------------------------------------------
  // Sequences split at separators (`split`, `join`)
  // ---------------------------------------------------------------------

  /**
   * The pieces of `s` between separator elements, as `String.prototype.split`
   * with a one-character separator returns them: always at least one piece,
   * and an empty piece on either side of a separator at an end.
   */
  function SplitWhere<T>(s: seq<T>, isSep: T -> bool): (parts: seq<seq<T>>)
    ensures |parts| >= 1
    ensures forall p, x :: p in parts && x in p ==> !isSep(x)
  {
    if s == [] then [[]]
    else
      var prev := SplitWhere(s[..|s| - 1], isSep);
      var x := s[|s| - 1];
      if isSep(x) then prev + [[]]
      else
        var last := prev[|prev| - 1] + [x];
        assert forall y :: y in last ==> y in prev[|prev| - 1] || y == x;
        prev[..|prev| - 1] + [last]
  }

  /** `s.split(c)` */
  function Split(s: string, c: char): (parts: seq<string>)
    ensures |parts| >= 1
    ensures forall p :: p in parts ==> c !in p
  {
    SplitWhere(s, (x: char) => x == c)
  }

  /** `parts.join(c)` */
  function Join(parts: seq<string>, c: char): string
    requires |parts| >= 1
  {
    if |parts| == 1 then parts[0] else Join(parts[..|parts| - 1], c) + [c] + parts[|parts| - 1]
  }

  /** Joining the pieces of a split with the same separator gives the string back. */
  lemma {:induction false} JoinSplit(s: string, c: char)
    ensures Join(Split(s, c), c) == s
  {
    if s != [] {
      var init := s[..|s| - 1];
      JoinSplit(init, c);
      var prev := Split(init, c);
      if s[|s| - 1] != c {
        var parts := Split(s, c);
        assert parts[..|parts| - 1] == prev[..|prev| - 1];
        if |prev| > 1 {
          assert Join(parts, c) == Join(prev[..|prev| - 1], c) + [c] + prev[|prev| - 1] + [s[|s| - 1]];
        }
      }
      assert s == init + [s[|s| - 1]];
    }
  }

  /** A string without the separator splits into itself alone. */
  lemma {:induction false} SplitNoSeparator(s: string, c: char)
    requires c !in s
    ensures Split(s, c) == [s]
  {
    if s != [] {
      SplitNoSeparator(s[..|s| - 1], c);
      assert s[..|s| - 1] + [s[|s| - 1]] == s;
    }
  }

  /** A separator followed by separator-free text `y` ends the split with the piece `y`. */
  lemma {:induction false} SplitSeparatorThen(x: string, c: char, y: string)
    requires c !in y
    ensures Split(x + [c] + y, c) == Split(x, c) + [y]
  {
    if y != [] {
      var y' := y[..|y| - 1];
      SplitSeparatorThen(x, c, y');
      assert (x + [c] + y)[..|x + [c] + y| - 1] == x + [c] + y';
      assert y' + [y[|y| - 1]] == y;
    } else {
      assert x + [c] + y == x + [c];
      assert (x + [c])[..|x|] == x;
    }
  }

  /** Splitting a join of separator-free pieces gives the pieces back. */
  lemma {:induction false} SplitJoin(parts: seq<string>, c: char)
    requires |parts| >= 1
    requires forall i :: 0 <= i < |parts| ==> c !in parts[i]
    ensures Split(Join(parts, c), c) == parts
  {
    if |parts| == 1 {
      SplitNoSeparator(parts[0], c);
    } else {
      var init := parts[..|parts| - 1];
      SplitJoin(init, c);
      SplitSeparatorThen(Join(init, c), c, parts[|parts| - 1]);
      assert init + [parts[|parts| - 1]] == parts;
    }
  }

  /** The text before the first `c` (all of `s` when there is none): the first piece of `s.split(c)`. */
  function FirstPiece(s: string, c: char): string {
    if s == [] || s[0] == c then [] else [s[0]] + FirstPiece(s[1..], c)
  }

  /** The text after the first `c`, when `s` has one. */
  function AfterFirst(s: string, c: char): Option<string> {
    if s == [] then None else if s[0] == c then Some(s[1..]) else AfterFirst(s[1..], c)
  }

  lemma {:induction false} FirstPieceWithout(s: string, c: char)
    requires c !in s
    ensures FirstPiece(s, c) == s && AfterFirst(s, c).None?
  {
    if s != [] {
      FirstPieceWithout(s[1..], c);
    }
  }

  lemma {:induction false} FirstPieceBefore(a: string, c: char, rest: string)
    requires c !in a
    ensures FirstPiece(a + [c] + rest, c) == a && AfterFirst(a + [c] + rest, c) == Some(rest)
  {
    if a != [] {
      assert (a + [c] + rest)[1..] == a[1..] + [c] + rest;
      FirstPieceBefore(a[1..], c, rest);
    } else {
      assert a + [c] + rest == [c] + rest;
    }
  }

  /** A split at the first separator: the piece before it, then the split of what follows. */
  lemma {:induction false} SplitFront(a: string, c: char, rest: string)
    requires c !in a
    ensures Split(a + [c] + rest, c) == [a] + Split(rest, c)
    decreases |rest|
  {
    if rest == [] {
      SplitNoSeparator(a, c);
      assert (a + [c] + rest)[..|a|] == a;
    } else {
      var r' := rest[..|rest| - 1];
      SplitFront(a, c, r');
      assert (a + [c] + rest)[..|a + [c] + rest| - 1] == a + [c] + r';
    }
  }

  /** `s.split(c)[0]` is the text before the first `c`, and `s.split(c)[1]` the text between the first and the second. */
  lemma {:induction false} SplitHead(s: string, c: char)
    ensures Split(s, c)[0] == FirstPiece(s, c)
    ensures |Split(s, c)| >= 2 <==> AfterFirst(s, c).Some?
    ensures AfterFirst(s, c).Some? ==> Split(s, c)[1] == FirstPiece(AfterFirst(s, c).value, c)
    decreases |s|
  {
    if c !in s {
      SplitNoSeparator(s, c);
      FirstPieceWithout(s, c);
    } else {
      var i :| 0 <= i < |s| && s[i] == c && forall j :: 0 <= j < i ==> s[j] != c by {
        FirstSeparator(s, c);
      }
      var a, rest := s[..i], s[i + 1..];
      assert s == a + [c] + rest;
      SplitFront(a, c, rest);
      FirstPieceBefore(a, c, rest);
      SplitHead(rest, c);
    }
  }

  lemma FirstSeparator(s: string, c: char)
    requires c in s
    ensures exists i :: 0 <= i < |s| && s[i] == c && forall j :: 0 <= j < i ==> s[j] != c
  {
    var k :| 0 <= k < |s| && s[k] == c;
    var i := k;
    while i > 0 && c in s[..i]
      invariant 0 <= i <= k && s[i] == c
      decreases i
    {
      var j :| 0 <= j < i && s[..i][j] == c;
      i := j;
    }
    assert forall j :: 0 <= j < i ==> s[j] != c by {
      forall j | 0 <= j < i
        ensures s[j] != c
      {
        assert s[..i][j] == s[j];
      }
    }
  }

  /** `s.startsWith(p)` */
  predicate StartsWith(s: string, p: string) {
    |p| <= |s| && s[..|p|] == p
  }

  /** `s.endsWith(p)` */
  predicate EndsWith(s: string, p: string) {
    |p| <= |s| && s[|s| - |p|..] == p
  }

  // ---------------------------------------------------------------------
  // Decimal and hexadecimal digits
  // ---------------------------------------------------------------------

  predicate IsDigit(c: char) { '0' <= c <= '9' }

  predicate AllDigits(s: string) {
    forall i :: 0 <= i < |s| ==> IsDigit(s[i])
  }

  function DigitValue(c: char): nat
    requires IsDigit(c)
  {
    c as int - '0' as int
  }

  /** A character that is not a digit does not occur in a string of digits. */
  lemma NonDigitNotIn(c: char, d: string)
    requires AllDigits(d) && !IsDigit(c)
    ensures c !in d
  {
  }

  /** The value of a string of decimal digits, read left to right. */
  function DigitsValue(s: string): nat
    requires AllDigits(s)
  {
    if s == [] then 0 else DigitsValue(s[..|s| - 1]) * 10 + DigitValue(s[|s| - 1])
  }

  /** `String(n)` for a non-negative integer. */
  function DecimalString(n: nat): (r: string)
    ensures |r| >= 1 && AllDigits(r)
  {
    if n < 10 then [('0' as int + n) as char] else DecimalString(n / 10) + [('0' as int + n % 10) as char]
  }

  /** Reading back the digits of `String(n)` gives `n`. */
  lemma {:induction false} DecimalStringValue(n: nat)
    ensures DigitsValue(DecimalString(n)) == n
  {
    if n >= 10 {
      DecimalStringValue(n / 10);
      var s := DecimalString(n);
      assert s[..|s| - 1] == DecimalString(n / 10);
    }
  }

  /** The longest prefix of `s` made of decimal digits. */
  function DigitPrefix(s: string): (p: string)
    ensures AllDigits(p) && |p| <= |s| && s[..|p|] == p
    ensures |p| < |s| ==> !IsDigit(s[|p|])
  {
    if |s| > 0 && IsDigit(s[0]) then [s[0]] + DigitPrefix(s[1..]) else []
  }

  lemma {:induction false} DigitPrefixOfDigits(d: string, rest: string)
    requires AllDigits(d)
    requires rest == [] || !IsDigit(rest[0])
    ensures DigitPrefix(d + rest) == d
  {
    if d != [] {
      assert (d + rest)[1..] == d[1..] + rest;
      DigitPrefixOfDigits(d[1..], rest);
    } else {
      assert d + rest == rest;
    }
  }

  predicate IsHexDigit(c: char) {
    IsDigit(c) || ('a' <= c <= 'f') || ('A' <= c <= 'F')
  }

  function HexDigitValue(c: char): nat
    requires IsHexDigit(c)
  {
    if IsDigit(c) then DigitValue(c)
    else if 'a' <= c <= 'f' then c as int - 'a' as int + 10
    else c as int - 'A' as int + 10
  }

  /** The longest prefix of `s` made of hexadecimal digits. */
  function HexPrefix(s: string): (p: string)
    ensures |p| <= |s| && s[..|p|] == p
    ensures forall i :: 0 <= i < |p| ==> IsHexDigit(p[i])
  {
    if |s| > 0 && IsHexDigit(s[0]) then [s[0]] + HexPrefix(s[1..]) else []
  }

  function HexValue(s: string): nat
    requires forall i :: 0 <= i < |s| ==> IsHexDigit(s[i])
  {
    if s == [] then 0 else HexValue(s[..|s| - 1]) * 16 + HexDigitValue(s[|s| - 1])
  }

  /** The lower-case hexadecimal digit for `d`, as `toString(16)` prints it. */
  function HexChar(d: nat): (c: char)
    requires d < 16
    ensures IsHexDigit(c) && HexDigitValue(c) == d
  {
    if d < 10 then ('0' as int + d) as char else ('a' as int + d - 10) as char
  }

  /** `n.toString(16)` for a non-negative integer. */
  function HexOfNat(n: nat): (r: string)
    ensures |r| >= 1
    ensures forall i :: 0 <= i < |r| ==> IsHexDigit(r[i])
  {
    if n < 16 then [HexChar(n)] else HexOfNat(n / 16) + [HexChar(n % 16)]
  }

  /** Reading back the digits of `n.toString(16)` gives `n`. */
  lemma {:induction false} HexOfNatValue(n: nat)
    ensures HexValue(HexOfNat(n)) == n
  {
    if n >= 16 {
      HexOfNatValue(n / 16);
      var s := HexOfNat(n);
      assert s[..|s| - 1] == HexOfNat(n / 16);
    }
  }

  /** `n.toString(16)` has at most two digits exactly for `n < 256`. */
  lemma HexOfNatShort(n: nat)
    ensures n < 16 <==> |HexOfNat(n)| == 1
    ensures n < 256 <==> |HexOfNat(n)| <= 2
  {
    if n >= 16 {
      assert |HexOfNat(n / 16)| >= 1;
      if n >= 256 {
        assert n / 16 >= 16;
        assert |HexOfNat(n / 16)| >= 2;
      }
    }
  }

  /** `n.toString(16)` for any integer: a minus sign before the magnitude's digits. */
  function HexOfInt(n: int): string {
    if n >= 0 then HexOfNat(n) else "-" + HexOfNat(-n)
  }

  /** `s.padStart(2, '0')` */
  function PadStart2(s: string): (r: string)
    ensures |r| == if |s| < 2 then 2 else |s|
  {
    if |s| == 0 then "00" else if |s| == 1 then "0" + s else s
  }

  // ---------------------------------------------------------------------
  // Numbers
  // ---------------------------------------------------------------------

  /** `Math.round(x)`: the nearest integer, halves rounded up. */
  function Round(x: real): (r: int)
    ensures x - 1.0 / 2.0 < r as real <= x + 1.0 / 2.0
  {
    (x + 1.0 / 2.0).Floor
  }

  /** `Math.round` of an exact integer is that integer. */
  lemma RoundOfInt(n: int)
    ensures Round(n as real) == n
  {
  }

  function Pow10(e: nat): (r: nat)
    ensures r >= 1
  {
    if e == 0 then 1 else 10 * Pow10(e - 1)
  }

  /** `Math.trunc(a / b)`: the quotient rounded toward zero. */
  function TruncQuot(a: int, b: int): int
    requires b > 0
  {
    if a >= 0 then a / b else 0 - (0 - a) / b
  }

  /**
   * `a % b` as C-family languages and JavaScript compute it: what is left
   * after the quotient rounded toward zero, so the remainder is zero or
   * has the dividend's sign.
   */
  function JsRem(a: int, b: int): (r: int)
    requires b > 0
    ensures a == TruncQuot(a, b) * b + r
    ensures r == 0 || (r < 0 <==> a < 0)
    ensures -b < r < b
  {
    if a >= 0 then a % b else 0 - (0 - a) % b
  }

  /** The text after one optional leading sign, and whether that sign was `-`. */
  function SplitSign(t: string): (r: (bool, string))
    ensures |r.1| <= |t|
  {
    if |t| > 0 && (t[0] == '-' || t[0] == '+') then (t[0] == '-', t[1..]) else (false, t)
  }

  function Signed(negative: bool, m: nat): int {
    if negative then 0 - m else m
  }

  /** The unsigned integer `parseInt` reads at the start of `u`. */
  function IntMagnitude(u: string): Option<nat> {
    if |u| >= 2 && u[0] == '0' && (u[1] == 'x' || u[1] == 'X') then
      var h := HexPrefix(u[2..]);
      if h == [] then None else Some(HexValue(h))
    else
      var d := DigitPrefix(u);
      if d == [] then None else Some(DigitsValue(d))
  }

  /**
   * `parseInt(s)` with no radix: leading whitespace and one sign are
   * skipped, a `0x`/`0X` prefix selects base 16, and the longest run of
   * digits that follows is read; `NaN` (here `None`) when there is none.
   */
  function ParseInt(s: string): Option<int> {
    var (negative, u) := SplitSign(TrimStart(s));
    match IntMagnitude(u)
    case None => None
    case Some(m) => Some(Signed(negative, m))
  }

  /** `parseInt` reads back what `String(n)` printed. */
  lemma ParseIntOfDecimal(n: nat)
    ensures ParseInt(DecimalString(n)) == Some(n)
  {
    var s := DecimalString(n);
    assert !IsSpace(s[0]);
    assert TrimStart(s) == s;
    assert SplitSign(s) == (false, s);
    DigitPrefixOfDigits(s, []);
    assert s + [] == s;
    DecimalStringValue(n);
    assert |s| >= 2 ==> IsDigit(s[1]);
    assert IntMagnitude(s) == Some(n);
  }

  /** The value of a decimal literal `int.frac`. */
  function DecimalValue(intDigits: string, fracDigits: string): real
    requires AllDigits(intDigits) && AllDigits(fracDigits)
  {
    DigitsValue(intDigits) as real + DigitsValue(fracDigits) as real / Pow10(|fracDigits|) as real
  }

  /** The exponent part `e[+-]digits` of a float literal, when one starts `s`. */
  function ExponentPrefix(s: string): Option<int> {
    if |s| >= 2 && (s[0] == 'e' || s[0] == 'E') then
      var signed := s[1] == '+' || s[1] == '-';
      var d := DigitPrefix(if signed then s[2..] else s[1..]);
      if d == [] then None
      else Some(Signed(signed && s[1] == '-', DigitsValue(d)))
    else None
  }

  function ScaleBy10(x: real, e: int): real {
    if e >= 0 then x * Pow10(e) as real else x / Pow10(-e) as real
  }

  /** The unsigned number `parseFloat` reads at the start of `u`. */
  function FloatMagnitude(u: string): Option<real> {
    var intDigits := DigitPrefix(u);
    var afterInt := u[|intDigits|..];
    var dotted := |afterInt| > 0 && afterInt[0] == '.';
    var fracDigits := if dotted then DigitPrefix(afterInt[1..]) else [];
    var afterFrac := if dotted then afterInt[1 + |fracDigits|..] else afterInt;
    if intDigits == [] && fracDigits == [] then None
    else
      var mantissa := DecimalValue(intDigits, fracDigits);
      var e := ExponentPrefix(afterFrac);
      Some(if e.Some? then ScaleBy10(mantissa, e.value) else mantissa)
  }

  /**
   * `parseFloat(s)`: leading whitespace is skipped, then the longest prefix
   * of the form `[+-] digits [. digits] [e[+-]digits]` (at least one digit
   * in the mantissa) is read exactly; `NaN` (here `None`) when there is none.
   */
  function ParseFloat(s: string): Option<real> {
    var (negative, u) := SplitSign(TrimStart(s));
    match FloatMagnitude(u)
    case None => None
    case Some(m) => Some(if negative then -m else m)
  }

  lemma FloatMagnitudeOfDigits(d: string, suffix: string)
    requires AllDigits(d) && d != []
    requires DigitPrefix(d + suffix) == d
    requires suffix == [] || (suffix[0] != '.' && suffix[0] != 'e' && suffix[0] != 'E')
    ensures FloatMagnitude(d + suffix) == Some(DecimalValue(d, []))
  {
    assert (d + suffix)[|d|..] == suffix;
    assert ExponentPrefix(suffix) == None;
  }

  /** `parseFloat` of digits followed by a non-numeric suffix reads the digits. */
  lemma ParseFloatOfDecimal(n: nat, suffix: string)
    requires suffix == [] || (!IsDigit(suffix[0]) && suffix[0] != '.' && suffix[0] != 'e' && suffix[0] != 'E')
    ensures ParseFloat(DecimalString(n) + suffix) == Some(n as real)
  {
    DecimalStringValue(n);
    ParseFloatOfDigits(DecimalString(n), suffix);
  }

  lemma ParseFloatOfDigits(d: string, suffix: string)
    requires AllDigits(d) && d != []
    requires suffix == [] || (!IsDigit(suffix[0]) && suffix[0] != '.' && suffix[0] != 'e' && suffix[0] != 'E')
    ensures ParseFloat(d + suffix) == Some(DigitsValue(d) as real)
  {
    var s := d + suffix;
    DigitPrefixOfDigits(d, suffix);
    NoLeadingSpace(s);
    assert SplitSign(s) == (false, s);
    DecimalValueOfInteger(d);
    FloatMagnitudeOfDigits(d, suffix);
    ParseFloatUnsigned(s);
  }

  lemma ParseFloatUnsigned(s: string)
    requires TrimStart(s) == s && SplitSign(s) == (false, s)
    ensures ParseFloat(s) == FloatMagnitude(s)
  {
  }

  lemma NoLeadingSpace(s: string)
    requires |s| > 0 && IsDigit(s[0])
    ensures TrimStart(s) == s
  {
    assert !IsSpace(s[0]);
  }

  lemma DecimalValueOfInteger(d: string)
    requires AllDigits(d)
    ensures DecimalValue(d, []) == DigitsValue(d) as real
  {
  }
}
