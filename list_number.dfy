/**
 * List markers (`getListItemNumber` and its helpers `toRoman`, `toAlpha`,
 * `toGreek`, `toLetter`) and the list indentation `getWordIndent`.
 *
 * `toRoman` and `toAlpha` loop; they are methods proved against the
 * functions `RomanNumeral` and `Bijective`, and the properties the markers
 * promise (the numerals read back as the ordinal, the letters are bijective
 * base 26) are lemmas about those functions.
 */
module ListNumber {
  import opened Js

  // ---------------------------------------------------------------------
  // Roman numerals
  // ---------------------------------------------------------------------

  /** One row of the `romanNumerals` table. */
  datatype RomanDigit = RomanDigit(value: nat, numeral: string)

  /** The table `toRoman` walks from the largest value down. */
  const RomanTable: seq<RomanDigit> := [
    RomanDigit(1000, "M"), RomanDigit(900, "CM"), RomanDigit(500, "D"), RomanDigit(400, "CD"),
    RomanDigit(100, "C"), RomanDigit(90, "XC"), RomanDigit(50, "L"), RomanDigit(40, "XL"),
    RomanDigit(10, "X"), RomanDigit(9, "IX"), RomanDigit(5, "V"), RomanDigit(4, "IV"),
    RomanDigit(1, "I")
  ]

  /**
   * The numerals the greedy walk emits for `n` from row `i` on: as many of
   * row `i` as fit, then the rest from row `i + 1`.
   */
  function Greedy(n: nat, i: nat): string
    requires i <= |RomanTable|
    decreases |RomanTable| - i, n
  {
    if i == |RomanTable| then ""
    else if n >= RomanTable[i].value then RomanTable[i].numeral + Greedy(n - RomanTable[i].value, i)
    else Greedy(n, i + 1)
  }

  /** The upper-case numerals of `toRoman(num)`; nothing for `num <= 0`. */
  function RomanNumeral(num: int): string {
    if num <= 0 then "" else Greedy(num, 0)
  }

  /** `toRoman(num, isUpper)` */
  method ToRoman(num: int, isUpper: bool) returns (r: string)
    ensures r == CaseAs(RomanNumeral(num), isUpper)
  {
    var result := "";
    var tempNum := num;
    var i := 0;
    while i < |RomanTable|
      invariant 0 <= i <= |RomanTable|
      invariant num <= 0 ==> result == "" && tempNum == num
      invariant num > 0 ==> tempNum >= 0 && result + Greedy(tempNum, i) == RomanNumeral(num)
    {
      result, tempNum := EmitRow(result, tempNum, i);
      i := i + 1;
    }
    r := CaseAs(result, isUpper);
  }

  /** The inner loop of `toRoman`: append row `i`'s numeral while its value fits. */
  method EmitRow(result: string, n: int, i: nat) returns (res: string, m: int)
    requires i < |RomanTable|
    ensures n <= 0 ==> res == result && m == n
    ensures n >= 0 ==> m >= 0 && res + Greedy(m, i + 1) == result + Greedy(n, i)
  {
    var row := RomanTable[i];
    res, m := result, n;
    while m >= row.value
      invariant n <= 0 ==> res == result && m == n
      invariant n >= 0 ==> m >= 0 && res + Greedy(m, i) == result + Greedy(n, i)
      decreases m
    {
      GreedyTakes(m, i);
      assert res + Greedy(m, i) == (res + row.numeral) + Greedy(m - row.value, i);
      res := res + row.numeral;
      m := m - row.value;
    }
    if n >= 0 {
      GreedyMoves(m, i);
    }
  }

  /** A row whose value still fits is emitted once more. */
  lemma GreedyTakes(n: nat, i: nat)
    requires i < |RomanTable| && n >= RomanTable[i].value
    ensures Greedy(n, i) == RomanTable[i].numeral + Greedy(n - RomanTable[i].value, i)
  {
  }

  /** A row whose value no longer fits is passed over. */
  lemma GreedyMoves(n: nat, i: nat)
    requires i < |RomanTable| && n < RomanTable[i].value
    ensures Greedy(n, i) == Greedy(n, i + 1)
  {
  }

  /** The value of one Roman symbol in either case; 0 for any other character. */
  function Sym(c: char): nat {
    match c
    case 'M' => 1000 case 'm' => 1000
    case 'D' => 500 case 'd' => 500
    case 'C' => 100 case 'c' => 100
    case 'L' => 50 case 'l' => 50
    case 'X' => 10 case 'x' => 10
    case 'V' => 5 case 'v' => 5
    case 'I' => 1 case 'i' => 1
    case _ => 0
  }

  /**
   * The value of a numeral read the usual way, independently of the table:
   * a symbol followed by a larger one counts as their difference, any other
   * symbol counts as itself.
   */
  function RomanValue(s: string): int
    decreases |s|
  {
    if |s| == 0 then 0
    else if |s| >= 2 && Sym(s[0]) < Sym(s[1]) then Sym(s[1]) - Sym(s[0]) + RomanValue(s[2..])
    else Sym(s[0]) + RomanValue(s[1..])
  }

  /** The value of the last symbol of row `i`; every symbol of row `i` and of later rows is at most this. */
  function Top(i: nat): nat
    requires i <= |RomanTable|
  {
    if i == |RomanTable| then 0 else Sym(RomanTable[i].numeral[|RomanTable[i].numeral| - 1])
  }

  /** Two numerals read separately when the first does not end below the start of the second. */
  lemma {:induction false} RomanValueConcat(a: string, b: string)
    requires a != [] && (b == [] || Sym(a[|a| - 1]) >= Sym(b[0]))
    ensures RomanValue(a + b) == RomanValue(a) + RomanValue(b)
    decreases |a|
  {
    if |a| == 1 {
      if b == [] {
        assert a + b == a;
      } else {
        assert (a + b)[1..] == b;
      }
    } else if Sym(a[0]) < Sym(a[1]) {
      if |a| == 2 {
        assert (a + b)[2..] == b;
      } else {
        assert (a + b)[2..] == a[2..] + b;
        RomanValueConcat(a[2..], b);
      }
    } else {
      assert (a + b)[1..] == a[1..] + b;
      RomanValueConcat(a[1..], b);
    }
  }

  /** Each row's numeral reads as the row's value, uses the symbols `MDCLXVI`, and stays at or below its row's top. */
  lemma RowFacts(i: nat)
    requires i < |RomanTable|
    ensures var t := RomanTable[i].numeral;
      t != [] && RomanValue(t) == RomanTable[i].value
      && (forall k :: 0 <= k < |t| ==> RomanUpper(t[k]) && Sym(t[k]) <= Top(i))
      && Top(i + 1) <= Top(i)
  {
    RowValue(i);
    RowSymbols(i);
  }

  lemma RowValue(i: nat)
    requires i < |RomanTable|
    ensures RomanTable[i].numeral != [] && RomanValue(RomanTable[i].numeral) == RomanTable[i].value
  {
    var t := RomanTable[i].numeral;
    if |t| == 1 {
      assert RomanValue(t) == Sym(t[0]) + RomanValue(t[1..]);
    } else {
      assert |t| == 2 && Sym(t[0]) < Sym(t[1]);
      assert RomanValue(t) == Sym(t[1]) - Sym(t[0]) + RomanValue(t[2..]);
    }
  }

  lemma RowSymbols(i: nat)
    requires i < |RomanTable|
    ensures var t := RomanTable[i].numeral;
      (forall k :: 0 <= k < |t| ==> RomanUpper(t[k]) && Sym(t[k]) <= Top(i)) && Top(i + 1) <= Top(i)
  {
    var t := RomanTable[i].numeral;
    assert 1 <= |t| <= 2;
    assert RomanUpper(t[0]) && RomanUpper(t[|t| - 1]) && Sym(t[0]) <= Top(i);
  }

  /** One of the upper-case symbols `M D C L X V I`. */
  predicate RomanUpper(c: char) {
    c == 'M' || c == 'D' || c == 'C' || c == 'L' || c == 'X' || c == 'V' || c == 'I'
  }

  /** One of the lower-case symbols `m d c l x v i`. */
  predicate RomanLower(c: char) {
    c == 'm' || c == 'd' || c == 'c' || c == 'l' || c == 'x' || c == 'v' || c == 'i'
  }

  /** Every symbol the greedy walk emits from row `i` is one of `MDCLXVI` and at most row `i`'s top. */
  lemma {:induction false} GreedySymbols(n: nat, i: nat)
    requires i <= |RomanTable|
    ensures forall k :: 0 <= k < |Greedy(n, i)| ==> RomanUpper(Greedy(n, i)[k]) && Sym(Greedy(n, i)[k]) <= Top(i)
    decreases |RomanTable| - i, n
  {
    if i < |RomanTable| {
      RowFacts(i);
      if n >= RomanTable[i].value {
        GreedySymbols(n - RomanTable[i].value, i);
      } else {
        GreedySymbols(n, i + 1);
      }
    }
  }

  /** From any row but past the end, the greedy walk emits numerals worth exactly `n`. */
  lemma {:induction false} GreedyValue(n: nat, i: nat)
    requires i < |RomanTable|
    ensures RomanValue(Greedy(n, i)) == n
    decreases |RomanTable| - i, n
  {
    var v := RomanTable[i].value;
    if n >= v {
      var t := RomanTable[i].numeral;
      RowFacts(i);
      GreedySymbols(n - v, i);
      GreedyValue(n - v, i);
      RomanValueConcat(t, Greedy(n - v, i));
    } else if i + 1 < |RomanTable| {
      GreedyValue(n, i + 1);
    } else {
      assert n == 0;
    }
  }

  /** Numerals with the same symbol values, position by position, have the same value. */
  lemma {:induction false} RomanValueBySymbols(s: string, t: string)
    requires |s| == |t| && forall k :: 0 <= k < |s| ==> Sym(s[k]) == Sym(t[k])
    ensures RomanValue(s) == RomanValue(t)
    decreases |s|
  {
    if |s| >= 2 {
      RomanValueBySymbols(s[1..], t[1..]);
      RomanValueBySymbols(s[2..], t[2..]);
    } else if |s| == 1 {
      RomanValueBySymbols(s[1..], t[1..]);
    }
  }

  /** Case does not change a symbol's value. */
  lemma SymIgnoresCase(c: char)
    ensures Sym(UpperChar(c)) == Sym(c) && Sym(LowerChar(c)) == Sym(c)
  {
  }

  /** The numerals of `toRoman(n)`, in either case, read back as `n`; nothing is emitted below 1. */
  lemma RomanRoundTrip(n: int, isUpper: bool)
    ensures RomanValue(CaseAs(RomanNumeral(n), isUpper)) == if n > 0 then n else 0
  {
    var s := RomanNumeral(n);
    if n > 0 {
      GreedyValue(n, 0);
    }
    var t := CaseAs(s, isUpper);
    forall k | 0 <= k < |s|
      ensures Sym(s[k]) == Sym(t[k])
    {
      SymIgnoresCase(s[k]);
    }
    RomanValueBySymbols(s, t);
  }

  /** `toRoman` uses only `M D C L X V I`, upper-case or lower-case as asked. */
  lemma RomanSymbols(n: int, isUpper: bool)
    ensures var t := CaseAs(RomanNumeral(n), isUpper);
      forall k :: 0 <= k < |t| ==> if isUpper then RomanUpper(t[k]) else RomanLower(t[k])
  {
    if n > 0 {
      GreedySymbols(n, 0);
    }
  }

  /** Distinct positive ordinals get distinct numerals. */
  lemma RomanInjective(a: int, b: int, isUpper: bool)
    requires a > 0 && b > 0 && CaseAs(RomanNumeral(a), isUpper) == CaseAs(RomanNumeral(b), isUpper)
    ensures a == b
  {
    RomanRoundTrip(a, isUpper);
    RomanRoundTrip(b, isUpper);
  }

  // ---------------------------------------------------------------------
  // Bijective base 26
  // ---------------------------------------------------------------------

  const Alphabet: string := "abcdefghijklmnopqrstuvwxyz"

  /** The position of a lower-case letter in the alphabet. */
  function LetterIndex(c: char): (k: nat)
    requires IsLowerLetter(c)
    ensures k < 26
  {
    c as int - 'a' as int
  }

  /** The alphabet lists the lower-case letters in code order. */
  lemma AlphabetIndex(c: char)
    requires IsLowerLetter(c)
    ensures Alphabet[LetterIndex(c)] == c
  {
  }

  /** The letters `toAlpha(num)` builds: one letter per bijective base-26 digit. */
  function Bijective(num: int): string
    decreases num
  {
    if num <= 0 then "" else Bijective((num - 1) / 26) + [Alphabet[(num - 1) % 26]]
  }

  /** `toAlpha(num, isUpper)` */
  method ToAlpha(num: int, isUpper: bool) returns (r: string)
    ensures r == CaseAs(Bijective(num), isUpper)
  {
    var n := num;
    var result := "";
    while n > 0
      invariant Bijective(n) + result == Bijective(num)
      decreases n
    {
      var before := n;
      n := n - 1;
      result := [Alphabet[n % 26]] + result;
      n := n / 26;
      assert Bijective(before) == Bijective(n) + [Alphabet[(before - 1) % 26]];
    }
    r := CaseAs(result, isUpper);
  }

  /** A word of lower-case letters read as a bijective base-26 numeral (`a` is 1, `z` is 26, `aa` is 27). */
  function AlphaValue(s: string): (v: nat)
    requires forall k :: 0 <= k < |s| ==> IsLowerLetter(s[k])
    ensures s != [] ==> v >= 1
  {
    if s == [] then 0 else 26 * AlphaValue(s[..|s| - 1]) + LetterIndex(s[|s| - 1]) + 1
  }

  /** `toAlpha(n)` spells `n` in bijective base 26, in lower-case letters. */
  lemma {:induction false} AlphaOfBijective(n: int)
    ensures forall k :: 0 <= k < |Bijective(n)| ==> IsLowerLetter(Bijective(n)[k])
    ensures AlphaValue(Bijective(n)) == if n > 0 then n else 0
    decreases n
  {
    if n > 0 {
      var q, d := (n - 1) / 26, (n - 1) % 26;
      AlphaOfBijective(q);
      var s := Bijective(n);
      assert s == Bijective(q) + [Alphabet[d]];
      assert s[..|s| - 1] == Bijective(q);
      assert LetterIndex(Alphabet[d]) == d;
    }
  }

  /** Every non-empty word of lower-case letters is `toAlpha` of its value. */
  lemma {:induction false} BijectiveOfAlpha(s: string)
    requires s != [] && forall k :: 0 <= k < |s| ==> IsLowerLetter(s[k])
    ensures Bijective(AlphaValue(s)) == s
    decreases |s|
  {
    var p, c := s[..|s| - 1], s[|s| - 1];
    if p != [] {
      BijectiveOfAlpha(p);
    }
    AlphaLastLetter(p, c);
    InitThenLast(s, p, c);
  }

  /** A non-empty word is its letters but the last, then the last. */
  lemma InitThenLast(s: string, p: string, c: char)
    requires s != [] && p == s[..|s| - 1] && c == s[|s| - 1]
    ensures s == p + [c]
  {
  }

  /** A letter after a word spelling its own value is the last digit of the longer word's value. */
  lemma AlphaLastLetter(p: string, c: char)
    requires forall k :: 0 <= k < |p| ==> IsLowerLetter(p[k])
    requires IsLowerLetter(c) && Bijective(AlphaValue(p)) == p
    ensures Bijective(AlphaValue(p + [c])) == p + [c]
  {
    AlphaSnocValue(p, c);
    AlphabetIndex(c);
    BijectiveStep(AlphaValue(p + [c]), AlphaValue(p), LetterIndex(c));
  }

  /** The value of a word with one more letter. */
  lemma AlphaSnocValue(p: string, c: char)
    requires forall k :: 0 <= k < |p| ==> IsLowerLetter(p[k])
    requires IsLowerLetter(c)
    ensures forall k :: 0 <= k < |p + [c]| ==> IsLowerLetter((p + [c])[k])
    ensures AlphaValue(p + [c]) == 26 * AlphaValue(p) + LetterIndex(c) + 1
  {
    assert (p + [c])[..|p|] == p;
  }

  /** One more digit `d` after the word of `q`. */
  lemma BijectiveStep(v: nat, q: nat, d: nat)
    requires d < 26 && v == 26 * q + d + 1
    ensures Bijective(v) == Bijective(q) + [Alphabet[d]]
  {
    DivMod26(q, d);
  }

  /** Division by 26 undoes `26 * q + d` for a digit `d`. */
  lemma DivMod26(q: nat, d: nat)
    requires d < 26
    ensures (26 * q + d) / 26 == q && (26 * q + d) % 26 == d
  {
  }

  /** Distinct positive ordinals get distinct letter words. */
  lemma AlphaInjective(a: int, b: int)
    requires a > 0 && b > 0 && Bijective(a) == Bijective(b)
    ensures a == b
  {
    AlphaOfBijective(a);
    AlphaOfBijective(b);
  }

  /** `toAlpha`: 1 is `a`, 26 is `z`, 27 is `aa`, and nothing below 1. */
  lemma AlphaExamples()
    ensures Bijective(1) == "a" && Bijective(26) == "z" && Bijective(27) == "aa" && Bijective(0) == ""
  {
    assert Bijective(1) == Bijective(0) + [Alphabet[0]];
    assert Bijective(26) == Bijective(0) + [Alphabet[25]];
    assert Bijective(27) == Bijective(1) + [Alphabet[0]];
  }

  // ---------------------------------------------------------------------
  // Cyclic letters
  // ---------------------------------------------------------------------

  /** `toLetter(num, isUpper)`: the letter at `(num - 1) % 26`, which is `undefined` (and throws) when negative. */
  function LetterMarker(num: int, isUpper: bool): Result<string> {
    var k := JsRem(num - 1, 26);
    if k < 0 then Fail(UndefinedLetter) else Ok(CaseAs([Alphabet[k]], isUpper))
  }

  const GreekLetters: string := "αβγδεζηθικλμνξοπρστυφχψω"

  /** What `toUpperCase` gives for each of `GreekLetters`. */
  const GreekCapitals: string := "ΑΒΓΔΕΖΗΘΙΚΛΜΝΞΟΠΡΣΤΥΦΧΨΩ"

  /** Each capital lies 32 code points below its small letter, as in the Unicode Greek block. */
  lemma GreekCapitalsShifted()
    ensures |GreekLetters| == |GreekCapitals| == 24
    ensures forall k :: 0 <= k < 24 ==> GreekCapitals[k] as int == GreekLetters[k] as int - 32
  {
  }

  /** `toGreek(num, isUpper)`: the letter at `(num - 1) % 24`; `toLowerCase` leaves a small letter as it is. */
  function GreekMarker(num: int, isUpper: bool): Result<string> {
    var k := JsRem(num - 1, 24);
    if k < 0 then Fail(UndefinedLetter)
    else if isUpper then Ok([GreekCapitals[k]])
    else Ok([GreekLetters[k]])
  }

  /** The letter marker repeats every 26 ordinals from 1 on. */
  lemma LetterPeriodic(n: int, isUpper: bool)
    requires n >= 1
    ensures LetterMarker(n + 26, isUpper) == LetterMarker(n, isUpper)
  {
    assert (n + 25) % 26 == (n - 1) % 26;
  }

  /** The Greek marker repeats every 24 ordinals from 1 on. */
  lemma GreekPeriodic(n: int, isUpper: bool)
    requires n >= 1
    ensures GreekMarker(n + 24, isUpper) == GreekMarker(n, isUpper)
  {
    assert (n + 23) % 24 == (n - 1) % 24;
  }

  /** A letter marker throws exactly for an ordinal below 1 that is not 1 less a multiple of 26. */
  lemma LetterThrows(n: int, isUpper: bool)
    ensures LetterMarker(n, isUpper).Fail? <==> n < 1 && (1 - n) % 26 != 0
  {
  }

  /** A Greek marker throws exactly for an ordinal below 1 that is not 1 less a multiple of 24. */
  lemma GreekThrows(n: int, isUpper: bool)
    ensures GreekMarker(n, isUpper).Fail? <==> n < 1 && (1 - n) % 24 != 0
  {
  }

  /** For the first 26 ordinals the cyclic letter and the bijective word agree. */
  lemma LetterIsAlphaBelow27(n: int, isUpper: bool)
    requires 1 <= n <= 26
    ensures LetterMarker(n, isUpper) == Ok(CaseAs(Bijective(n), isUpper))
  {
    assert (n - 1) / 26 == 0 && (n - 1) % 26 == n - 1;
    assert Bijective(n) == [Alphabet[n - 1]];
  }

  // ---------------------------------------------------------------------
  // getListItemNumber
  // ---------------------------------------------------------------------

  /** What `getListItemNumber` returns: the ordinal itself or a text. */
  datatype Marker = Ordinal(n: int) | Label(text: string)

  /** `getListItemNumber(styleType, start)` */
  function ListItemNumber(styleType: string, start: int): (r: Result<Marker>)
    ensures r.Fail? ==> start < 1
    ensures r.Ok? && r.value.Ordinal? ==> r.value.n == start
  {
    match styleType
    case "decimal" => Ok(Ordinal(start))
    case "upper-roman" => Ok(Label(CaseAs(RomanNumeral(start), true)))
    case "lower-roman" => Ok(Label(CaseAs(RomanNumeral(start), false)))
    case "upper-alpha" => Ok(Label(CaseAs(Bijective(start), true)))
    case "lower-alpha" => Ok(Label(CaseAs(Bijective(start), false)))
    case "upper-letter" => var t :- LetterMarker(start, true); Ok(Label(t))
    case "lower-letter" => var t :- LetterMarker(start, false); Ok(Label(t))
    case "upper-greek" => var t :- GreekMarker(start, true); Ok(Label(t))
    case "lower-greek" => var t :- GreekMarker(start, false); Ok(Label(t))
    case "circle" => Ok(Label("○"))
    case "disc" => Ok(Label("•"))
    case "square" => Ok(Label("▪"))
    case "none" => Ok(Label(""))
    case _ => Ok(Ordinal(start))
  }

  /** The formats `getListItemNumber` knows besides `decimal`. */
  predicate KnownFormat(styleType: string) {
    styleType in {"upper-roman", "lower-roman", "upper-alpha", "lower-alpha", "upper-letter", "lower-letter",
                  "upper-greek", "lower-greek", "circle", "disc", "square", "none"}
  }

  /** `decimal` and every unknown format give the ordinal back unchanged; the known ones give a text or throw. */
  lemma OrdinalFormats(styleType: string, start: int)
    ensures ListItemNumber(styleType, start) == Ok(Ordinal(start)) <==> !KnownFormat(styleType)
  {
  }

  /** The glyph formats ignore the ordinal, and `none` gives the empty text. */
  lemma GlyphFormats(a: int, b: int)
    ensures ListItemNumber("circle", a) == ListItemNumber("circle", b) == Ok(Label("○"))
    ensures ListItemNumber("disc", a) == ListItemNumber("disc", b) == Ok(Label("•"))
    ensures ListItemNumber("square", a) == ListItemNumber("square", b) == Ok(Label("▪"))
    ensures ListItemNumber("none", a) == Ok(Label(""))
  {
  }

  /** A Roman marker for a positive ordinal reads back as that ordinal. */
  lemma RomanMarker(styleType: string, n: int)
    requires styleType == "upper-roman" || styleType == "lower-roman"
    requires n > 0
    ensures var r := ListItemNumber(styleType, n); r.Ok? && r.value.Label? && RomanValue(r.value.text) == n
  {
    RomanRoundTrip(n, styleType == "upper-roman");
  }

  /** The letter formats repeat every 26 ordinals and the Greek ones every 24, from 1 on. */
  lemma CyclicMarkers(styleType: string, n: int)
    requires n >= 1
    ensures styleType == "upper-letter" || styleType == "lower-letter" ==>
      ListItemNumber(styleType, n + 26) == ListItemNumber(styleType, n)
    ensures styleType == "upper-greek" || styleType == "lower-greek" ==>
      ListItemNumber(styleType, n + 24) == ListItemNumber(styleType, n)
  {
    LetterPeriodic(n, true);
    LetterPeriodic(n, false);
    GreekPeriodic(n, true);
    GreekPeriodic(n, false);
  }

  // ---------------------------------------------------------------------
  // getWordIndent
  // ---------------------------------------------------------------------

  /** The `{left, hanging}` indentation in twips. */
  datatype WordIndent = WordIndent(left: int, hanging: int)

  /** `getWordIndent(level)`: half an inch per level, a quarter-inch hanging indent. */
  function GetWordIndent(level: int): WordIndent {
    WordIndent(level * 720, 360)
  }

  /** Each nesting level moves the text half an inch (720 twips) right and keeps the hanging indent. */
  lemma WordIndentSteps(level: int)
    ensures GetWordIndent(level + 1).left == GetWordIndent(level).left + 720
    ensures GetWordIndent(level + 1).hanging == GetWordIndent(level).hanging == 360
    ensures GetWordIndent(0).left == 0
  {
  }
}
