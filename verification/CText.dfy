/** C strings and the character classes of <ctype.h>, as the engine's source uses them. */
module CText {

  datatype Option<+T> = None | Some(value: T)

  /** A C string: the characters before the terminating NUL. */
  type CString = s: string | '\0' !in s

  /** The character at offset `i`; offset |s| holds the terminator. */
  function CharAt(s: CString, i: nat): char
    requires i <= |s|
  {
    if i < |s| then s[i] else '\0'
  }

  predicate IsSpace(c: char) {
    c == ' ' || '\U{9}' <= c <= '\U{D}'
  }

  /** Blank, tab, newline, vertical tab, form feed, carriage return. */
  lemma SpacesAre(c: char)
    ensures IsSpace(c) <==> c in " \t\n\U{B}\U{C}\r"
  {
  }

  /** Length of the longest prefix whose characters all satisfy `p`. */
  function Span(s: string, p: char -> bool): (n: nat)
    ensures n <= |s|
    ensures forall i :: 0 <= i < n ==> p(s[i])
    ensures n < |s| ==> !p(s[n])
  {
    if s != "" && p(s[0]) then 1 + Span(s[1..], p) else 0
  }

  /** A prefix that is followed by a stopping character is exactly the span. */
  lemma SpanIs(s: string, p: char -> bool, n: nat)
    requires n <= |s|
    requires forall i :: 0 <= i < n ==> p(s[i])
    requires n < |s| ==> !p(s[n])
    ensures Span(s, p) == n
  {
  }

  function SkipSpaces(s: string): string {
    s[Span(s, IsSpace)..]
  }

  /** The LOWER macro of the source. */
  function Lower(c: char): char {
    if 'A' <= c <= 'Z' then (c as int + 32) as char else c
  }

  const CAPITALS := "ABCDEFGHIJKLMNOPQRSTUVWXYZ"
  const SMALL := "abcdefghijklmnopqrstuvwxyz"

  /** The capital letters, and nothing else, become the small letters in the same places. */
  lemma LowerIs(c: char)
    ensures |CAPITALS| == |SMALL| == 26
    ensures forall i :: 0 <= i < 26 && c == CAPITALS[i] ==> Lower(c) == SMALL[i]
    ensures Lower(c) != c ==> exists i :: 0 <= i < 26 && c == CAPITALS[i]
  {
    LettersInOrder();
    if Lower(c) != c {
      assert c == CAPITALS[c as int - 'A' as int];
    }
  }

  lemma LettersInOrder()
    ensures |CAPITALS| == |SMALL| == 26
    ensures forall i :: 0 <= i < 26 ==> CAPITALS[i] as int == 'A' as int + i && SMALL[i] as int == 'a' as int + i
  {
  }

  /** C division by two: it truncates toward zero. */
  function Half(x: int): int { if x >= 0 then x / 2 else -((-x) / 2) }
}
