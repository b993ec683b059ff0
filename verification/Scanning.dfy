/** Integers in text: what %d prints and what the scanf family reads. */
module Scanning {
  import opened CText
  import opened Numerals

  function IntegerText(n: int): string {
    if n < 0 then "-" + Numeral(-n, 10, false) else Numeral(n, 10, false)
  }

  /** The number read and the input that follows it. */
  datatype Scan = Scanned(n: int, rest: string) | NoNumber

  /** %d: leading white space, an optional sign, at least one digit. */
  function ScanInt(s: string): (r: Scan)
    ensures r.Scanned? ==> |r.rest| < |s|
  {
    var t := SkipSpaces(s);
    var signed := t != "" && (t[0] == '-' || t[0] == '+');
    var u := if signed then t[1..] else t;
    var n := Span(u, IsDigit);
    if n == 0 then NoNumber
    else Scanned(if signed && t[0] == '-' then -(ValueOf(u[..n], 10) as int) else ValueOf(u[..n], 10), u[n..])
  }

  lemma SkipSpacesIs(ws: string, s: string)
    requires forall i :: 0 <= i < |ws| ==> IsSpace(ws[i])
    requires s == "" || !IsSpace(s[0])
    ensures SkipSpaces(ws + s) == s
  {
    SpanIs(ws + s, IsSpace, |ws|);
  }

  /** What %d makes of an optional sign and some digits. */
  lemma ScanDigits(s: string, negative: bool, digits: string, rest: string)
    requires SkipSpaces(s) == (if negative then "-" else "") + (digits + rest)
    requires digits != "" && (forall i :: 0 <= i < |digits| ==> IsDigit(digits[i])) && (rest == "" || !IsDigit(rest[0]))
    ensures ScanInt(s) == Scanned(if negative then -(ValueOf(digits, 10) as int) else ValueOf(digits, 10), rest)
  {
    hide SkipSpaces, Span, ValueOf;
    DigitsTaken(digits, rest);
    var t := SkipSpaces(s);
    if negative {
      assert t[1..] == digits + rest;
    } else {
      assert t == digits + rest && t[0] == digits[0];
    }
  }

  /** A plus before a number changes nothing. */
  lemma ScanPlus(ws: string, s: string)
    requires forall i :: 0 <= i < |ws| ==> IsSpace(ws[i])
    requires s != "" && IsDigit(s[0])
    ensures ScanInt(ws + ("+" + s)) == ScanInt(s)
  {
    hide SkipSpaces, ValueOf, Span;
    var plus := "+" + s;
    SkipSpacesIs(ws, plus);
    SkipSpacesIs("", s);
    assert "" + s == s && plus[1..] == s;
  }

  /** Without a digit in place, after white space and a sign, there is no number. */
  lemma ScanNothing(ws: string, sign: string, s: string)
    requires forall i :: 0 <= i < |ws| ==> IsSpace(ws[i])
    requires sign in {"", "+", "-"} && (s == "" || !IsDigit(s[0]))
    requires sign == "" && s != "" ==> !IsSpace(s[0]) && s[0] !in "+-"
    ensures ScanInt(ws + (sign + s)) == NoNumber
  {
    hide SkipSpaces, ValueOf;
    var t := sign + s;
    assert t[|sign|..] == s;
    if sign == "" { assert t == s; }
    SkipSpacesIs(ws, t);
  }

  /** Reading back a printed integer, after any white space and before anything but a digit. */
  lemma ScanIntegerText(ws: string, n: int, rest: string)
    requires forall i :: 0 <= i < |ws| ==> IsSpace(ws[i])
    requires rest == "" || !IsDigit(rest[0])
    ensures ScanInt(ws + (IntegerText(n) + rest)) == Scanned(n, rest)
  {
    hide Numeral, ValueOf, SkipSpaces, ScanInt;
    var digits := Numeral(if n < 0 then -n else n, 10, false);
    NumeralChars(if n < 0 then -n else n, 10, false);
    NumeralDenotes(if n < 0 then -n else n, 10, false);
    var t := IntegerText(n) + rest;
    assert t == (if n < 0 then "-" else "") + (digits + rest);
    assert IsDigit(digits[0]) && !IsSpace(digits[0]);
    SkipSpacesIs(ws, t);
    ScanDigits(ws + t, n < 0, digits, rest);
  }

  lemma DigitsTaken(digits: string, rest: string)
    requires forall i :: 0 <= i < |digits| ==> IsDigit(digits[i])
    requires rest == "" || !IsDigit(rest[0])
    ensures var u := digits + rest; var n := Span(u, IsDigit); n == |digits| && u[..n] == digits && u[n..] == rest
  {
    hide IsDigit;
    SpanIs(digits + rest, IsDigit, |digits|);
  }
}
