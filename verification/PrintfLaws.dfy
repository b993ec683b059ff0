/** What the printf engine's texts denote, how long they are, and exactly when they are the
    texts that section 7.19.6.1 of ISO/IEC 9899:1999 asks for. */
module PrintfLaws {
  import opened CText
  import opened Numerals
  import opened PrintfSpec
  import opened Sequences

  // ---- Tokens ----

  function FieldText(f: Field): string {
    match f
    case Absent => ""
    case Bare => ""
    case Fixed(n) => Numeral(n, 10, false)
    case FromArgument => "*"
  }

  function LengthText(l: Length): string {
    match l
    case Plain => ""
    case Short => "h"
    case Long => "l"
    case LongLong => "ll"
    case LongDouble => "L"
  }

  /** A piece as a programmer writes it. */
  function Written(p: Piece): string {
    match p
    case Literal(c) => [c]
    case Spec(d) =>
      "%" + (d.flags + (FieldText(d.width) + ((if d.precision.Absent? then "" else "." + FieldText(d.precision))
      + (LengthText(d.length) + if d.conversion.Some? then [d.conversion.value] else ""))))
  }

  /** Pieces that can be written without ambiguity: a width may not start with the zero flag. */
  predicate Writable(p: Piece) {
    match p
    case Literal(c) => c != '%'
    case Spec(d) =>
      && (forall i :: 0 <= i < |d.flags| ==> IsFlag(d.flags[i]))
      && d.width != Fixed(0) && !d.width.Bare?
      && d.conversion.Some? && d.conversion.value !in "-+ #0123456789*.hlqL"
  }

  function WrittenAll(pieces: seq<Piece>): string {
    if pieces == [] then "" else Written(pieces[0]) + WrittenAll(pieces[1..])
  }

  /** The tokenizer inverts writing. */
  lemma {:induction false} TokenizeWritten(pieces: seq<Piece>)
    requires forall i :: 0 <= i < |pieces| ==> Writable(pieces[i])
    ensures Tokenize(WrittenAll(pieces)) == pieces
  {
    if pieces != [] {
      hide ParseFlags, ParseWidth, FieldText, LengthText;
      var p, rest := pieces[0], WrittenAll(pieces[1..]);
      var s := Written(p) + rest;
      assert Writable(p);
      TokenizeWritten(pieces[1..]);
      assert s[1..] == Written(p)[1..] + rest;
      if p.Spec? {
        DirectiveWritten(p.d, rest);
      } else {
        assert s[1..] == rest;
      }
      assert Tokenize(s) == [p] + Tokenize(rest);
    }
  }

  /** What follows each part of a written directive. */
  function FromLength(d: Directive, rest: string): string
    requires d.conversion.Some?
  {
    LengthText(d.length) + ([d.conversion.value] + rest)
  }

  function FromDot(d: Directive, rest: string): string
    requires d.conversion.Some?
  {
    (if d.precision.Absent? then "" else "." + FieldText(d.precision)) + FromLength(d, rest)
  }

  function FromWidth(d: Directive, rest: string): string
    requires d.conversion.Some?
  {
    FieldText(d.width) + FromDot(d, rest)
  }

  lemma DirectiveWritten(d: Directive, rest: string)
    requires Writable(Spec(d))
    ensures ParseFlags("", Written(Spec(d))[1..] + rest) == (d, rest)
  {
    hide FromWidth, ParseWidth, Span, FieldText, LengthText;
    var s := FromWidth(d, rest);
    WidthWritten(d, rest);
    SpanIs(d.flags + s, IsFlag, |d.flags|);
    assert (d.flags + s)[..|d.flags|] == d.flags && (d.flags + s)[|d.flags|..] == s;
    assert "" + d.flags == d.flags;
    PartsConcat(d, rest);
  }

  lemma PartsConcat(d: Directive, rest: string)
    requires d.conversion.Some?
    ensures Written(Spec(d))[1..] + rest == d.flags + FromWidth(d, rest)
  {
    hide FieldText, LengthText;
    var a, b, c, e := FieldText(d.width), (if d.precision.Absent? then "" else "." + FieldText(d.precision)),
      LengthText(d.length), [d.conversion.value];
    assert Written(Spec(d))[1..] == d.flags + (a + (b + (c + e)));
    Regroup(d.flags, a + (b + (c + e)), rest);
    Regroup(a, b + (c + e), rest);
    Regroup(b, c + e, rest);
    Regroup(c, e, rest);
  }

  lemma WidthWritten(d: Directive, rest: string)
    requires Writable(Spec(d))
    ensures FromWidth(d, rest) != "" && !IsFlag(FromWidth(d, rest)[0])
    ensures ParseWidth(d.flags, "", FromWidth(d, rest)) == (d, rest)
  {
    hide ParseField, ParseDot, FromDot, FieldText;
    DotWritten(d, rest);
    FieldWritten(d.width, FromDot(d, rest));
  }

  lemma DotWritten(d: Directive, rest: string)
    requires Writable(Spec(d))
    ensures var s := FromDot(d, rest); s != "" && !IsDigit(s[0]) && s[0] != '*' && !IsFlag(s[0])
    ensures ParseDot(d.flags, d.width, FromDot(d, rest)) == (d, rest)
  {
    hide ParseField, ParseLength, FieldText;
    var s := FromLength(d, rest);
    LengthWritten(d.length, d.conversion.value, rest);
    FieldWritten(d.precision, s);
    if d.precision.Absent? {
      assert FromDot(d, rest) == s;
    } else {
      assert FromDot(d, rest)[1..] == FieldText(d.precision) + s;
    }
  }

  lemma LengthWritten(l: Length, c: char, rest: string)
    requires c !in "hlqL"
    ensures ParseLength(LengthText(l) + ([c] + rest)) == (l, [c] + rest)
  {
    var s := LengthText(l) + ([c] + rest);
    assert s[|LengthText(l)|..] == [c] + rest;
    assert [c] + rest == s[|LengthText(l)|..];
  }

  lemma FieldWritten(f: Field, rest: string)
    requires rest != "" && !IsDigit(rest[0]) && rest[0] != '*'
    ensures ParseField("", FieldText(f) + rest) == (if f.Bare? then Absent else f, rest)
    ensures f != Fixed(0) && (f.Absent? || f.Bare? ==> !IsFlag(rest[0])) ==> !IsFlag((FieldText(f) + rest)[0])
  {
    hide Numeral, ValueOf;
    var t := FieldText(f);
    var s := t + rest;
    if f.Fixed? {
      NumeralChars(f.n, 10, false);
      NumeralDenotes(f.n, 10, false);
      SpanIs(s, IsDigit, |t|);
      assert s[..|t|] == t && s[|t|..] == rest && "" + t == t;
      if f.n > 0 { NumeralHead(f.n, 10, false); }
    } else if f.FromArgument? {
      SpanIs(s, IsDigit, 0);
      assert s[1..] == rest;
    } else {
      assert s == rest;
      SpanIs(s, IsDigit, 0);
      assert "" + s[..0] == "" && s[0..] == s;
    }
  }

  // ---- Digits ----

  /** The digits denote the word modulo base^19, so they are exact just below that bound. */
  lemma DigitsDenote(u: nat, base: nat, upper: bool)
    requires 2 <= base <= 16
    ensures Power(base, DIGITS) > 0
    ensures ValueOf(DigitsText(u, base, upper), base) == u % Power(base, DIGITS)
    ensures ValueOf(DigitsText(u, base, upper), base) == u <==> u < Power(base, DIGITS)
    ensures |DigitsText(u, base, upper)| == Min(DIGITS, |Numeral(u, base, upper)|)
  {
    hide Power, ValueOf, Numeral;
    PowerPositive(base, DIGITS);
    NumeralDenotes(u, base, upper);
    NumeralLength(u, base, upper, DIGITS);
    if |Numeral(u, base, upper)| <= DIGITS {
      ModSmall(u, Power(base, DIGITS));
    } else {
      LowDigitsDenote(u, base, upper, DIGITS);
    }
  }

  lemma ModSmall(u: nat, p: nat)
    requires u < p
    ensures u % p == u
  {
  }

  lemma PowerTen()
    ensures Power(10, DIGITS) == 10_000_000_000_000_000_000
  {
    assert Power(10, 5) == 100_000;
    assert Power(10, 10) == 10_000_000_000;
    assert Power(10, 15) == 1_000_000_000_000_000;
  }

  /** Every signed decimal and hexadecimal is exact, the smallest long included. */
  lemma SignedNumbersExact(value: int, base: nat, f: Flags)
    requires -LONG_MAX - 1 <= value <= LONG_MAX && !f.unsigned && base in {10, 16}
    ensures ValueOf(DigitsText(Magnitude(value, f), base, f.upper), base) == if value < 0 then -value else value
  {
    hide Power, ValueOf, DigitsText;
    PowerTen();
    PowerSixteen();
    DigitsDenote(Magnitude(value, f), base, f.upper);
  }

  lemma PowerSixteen()
    ensures Power(16, DIGITS) > 0x1_0000_0000_0000_0000
  {
    assert Power(16, 5) == 0x10_0000;
    assert Power(16, 10) == 0x100_0000_0000;
    assert Power(16, 15) == 0x1000_0000_0000_0000;
  }

  /** The largest unsigned long is printed without its leading digit. */
  lemma LargestUnsignedWrong()
    ensures ValueOf(DigitsText(WORD - 1, 10, false), 10) == 8_446_744_073_709_551_615 != WORD - 1
  {
    hide Power, ValueOf, DigitsText;
    PowerTen();
    DigitsDenote(WORD - 1, 10, false);
  }

  // ---- Length ----

  /** The text has the length the field asks for, except when the zero flag meets a
      precision that adds zeros and a width that is larger still. */
  lemma IntTextLength(value: int, base: nat, min: int, max: int, f: Flags)
    requires 2 <= base <= 16
    ensures var digits := |DigitsText(Magnitude(value, f), base, f.upper)|;
      var sign := |SignText(value, f)|;
      |IntText(value, base, min, max, f)| == Max(min, sign + Max(max, digits))
      <==> !(f.zero && max > digits && min > sign + max)
  {
    hide DigitsText, SignText, Magnitude;
  }

  // ---- Reading back ----

  function NonSpaces(s: string): string {
    if s == "" then "" else (if s[0] == ' ' then "" else [s[0]]) + NonSpaces(s[1..])
  }

  function ReadBack(s: string, base: nat): int {
    if s != "" && s[0] == '-' then -(ValueOf(s[1..], base) as int)
    else if s != "" && s[0] == '+' then ValueOf(s[1..], base)
    else ValueOf(s, base)
  }

  lemma NonSpacesConcat(a: string, b: string)
    ensures NonSpaces(a + b) == NonSpaces(a) + NonSpaces(b)
  {
    if a != "" {
      assert (a + b)[1..] == a[1..] + b;
      NonSpacesConcat(a[1..], b);
    } else {
      assert a + b == b;
    }
  }

  lemma NonSpacesFill(c: char, n: nat)
    ensures NonSpaces(Fill(c, n)) == if c == ' ' then "" else Fill(c, n)
  {
  }

  lemma NonSpacesKeeps(s: string)
    requires forall i :: 0 <= i < |s| ==> s[i] != ' '
    ensures NonSpaces(s) == s
  {
  }

  lemma DigitsChars(u: nat, base: nat, upper: bool)
    requires 2 <= base <= 16
    ensures DigitsText(u, base, upper) != ""
    ensures forall i :: 0 <= i < |DigitsText(u, base, upper)| ==> DigitsText(u, base, upper)[i] !in "+- xX\0"
  {
    NumeralChars(u, base, upper);
  }

  lemma BodyNonSpaces(sign: string, digits: string, zeros: nat, spaces: nat)
    requires NonSpaces(digits) == digits
    ensures var body := sign + Zeros(zeros) + digits; var shown := NonSpaces(sign) + (Zeros(zeros) + digits);
      NonSpaces(body + Spaces(spaces)) == shown && NonSpaces(Spaces(spaces) + body) == shown
  {
    hide NonSpaces, Fill;
    NonSpacesFill('0', zeros);
    NonSpacesFill(' ', spaces);
    var body := sign + Zeros(zeros) + digits;
    NonSpacesConcat(sign + Zeros(zeros), digits);
    NonSpacesConcat(sign, Zeros(zeros));
    NonSpacesConcat(body, Spaces(spaces));
    NonSpacesConcat(Spaces(spaces), body);
    var ns := NonSpaces(sign) + (Zeros(zeros) + digits);
    assert NonSpaces(body) == (NonSpaces(sign) + Zeros(zeros)) + digits == ns;
    assert ns + "" == ns && "" + ns == ns;
  }

  /** The text without its spaces: sign, zeros, digits. */
  lemma NumberTextNonSpaces(sign: string, digits: string, min: int, max: int, f: Flags)
    requires NonSpaces(digits) == digits
    ensures NonSpaces(NumberText(sign, digits, min, max, f)) ==
            NonSpaces(sign) + (Zeros(Padding(|digits|, |sign|, min, max, f.zero).0) + digits)
  {
    hide NonSpaces, Padding, Fill;
    var (zeros, spaces) := Padding(|digits|, |sign|, min, max, f.zero);
    BodyNonSpaces(sign, digits, zeros, spaces);
  }

  /** Spaces stripped, a signed decimal or hexadecimal reads back as the value, whatever width, precision and
      flags. */
  lemma IntTextReadsBack(value: int, base: nat, min: int, max: int, f: Flags)
    requires -LONG_MAX - 1 <= value <= LONG_MAX && !f.unsigned && base in {10, 16}
    ensures ReadBack(NonSpaces(IntText(value, base, min, max, f)), base) == value
  {
    hide Magnitude, DigitsText, Padding, ValueOf, NumberText, Fill, SignText, NonSpaces;
    SignShown(value, f);
    var digits := DigitsText(Magnitude(value, f), base, f.upper);
    var sign := SignText(value, f);
    var zeros := Padding(|digits|, |sign|, min, max, f.zero).0;
    SignedNumbersExact(value, base, f);
    LeadingZeros(digits, zeros, base);
    DigitsChars(Magnitude(value, f), base, f.upper);
    NonSpacesKeeps(digits);
    NumberTextNonSpaces(sign, digits, min, max, f);
    var tail := Zeros(zeros) + digits;
    assert tail[0] !in "+-";
    if NonSpaces(sign) == "" {
      assert NonSpaces(sign) + tail == tail;
    } else {
      assert (NonSpaces(sign) + tail)[1..] == tail;
    }
  }

  // ---- Conformance ----

  /** Zeros that fill the field: only when nothing else decides. */
  function StandardZeros(pad: nat, min: int, max: int, f: Flags): nat {
    if !f.minus && min >= 0 && f.zero && max < 0 then pad else 0
  }

  /** Layout that the standard requires: a negative width means left justification, and the
      zero flag yields to left justification and to a precision. */
  function StandardLayout(sign: string, digits: string, min: int, max: int, f: Flags): string {
    var pad := Max(Width(min) - |sign| - |digits|, 0);
    var zeros := StandardZeros(pad, min, max, f);
    var body := sign + Zeros(zeros) + digits;
    if f.minus || min < 0 then body + Spaces(pad - zeros) else Spaces(pad - zeros) + body
  }

  /** Digits that the standard requires: the precision is their minimum number, and zero with
      precision zero has none. */
  function StandardDigits(t: string, isZero: bool, max: int): string {
    if max == 0 && isZero then "" else Zeros(Max(max - |t|, 0)) + t
  }

  /** The alternate form of x and X. */
  function Prefix(u: nat, base: nat, f: Flags): string {
    if f.alternate && f.unsigned && base == 16 && u != 0 then if f.upper then "0X" else "0x" else ""
  }

  /** The alternate form of o makes the first digit a zero if it is not one already. */
  predicate NeedsZero(d: string, sign: nat, base: nat, min: int, max: int, f: Flags) {
    && f.alternate && f.unsigned && base == 8 && (d == "" || d[0] != '0')
    && StandardZeros(Max(Width(min) - sign - |d|, 0), min, max, f) == 0
  }

  /** The sign that the standard requires: none for unsigned conversions, a plus or a space only if asked for. */
  function StandardSign(value: int, f: Flags): string {
    match (f.unsigned, value < 0, f.plus, f.space)
    case (true, _, _, _) => ""
    case (false, true, _, _) => "-"
    case (false, false, true, _) => "+"
    case (false, false, false, true) => " "
    case (false, false, false, false) => ""
  }

  /** The absolute value, or the value itself as an unsigned word. */
  function StandardWord(value: int, f: Flags): nat {
    if f.unsigned || value >= 0 then value % 0x1_0000_0000_0000_0000 else (0 - value) % 0x1_0000_0000_0000_0000
  }

  /** The engine's sign and word are those. */
  lemma SameSign(value: int, f: Flags)
    ensures SignText(value, f) == StandardSign(value, f) && Magnitude(value, f) == StandardWord(value, f)
    ensures StandardSign(value, f) in {"", "-", "+", " "}
  {
  }

  /** Text that the standard requires for d, i, o, u, x and X. */
  function StandardInt(value: int, base: nat, min: int, max: int, f: Flags): string
    requires 2 <= base <= 16
  {
    var u := StandardWord(value, f);
    var sign := StandardSign(value, f) + Prefix(u, base, f);
    var d := StandardDigits(Numeral(u, base, f.upper), u == 0, max);
    StandardLayout(sign, if NeedsZero(d, |sign|, base, min, max, f) then "0" + d else d, min, max, f)
  }

  function Width(min: int): nat { if min < 0 then -min else min }

  /** The padding rule of the engine agrees with the standard. */
  predicate PaddingAgrees(natural: nat, min: int, max: int, f: Flags) {
    Width(min) <= natural || (min >= 0 && !(f.zero && (f.minus || max >= 0)))
  }

  /** The alternate form of o asks for a zero that neither the precision nor the zero flag brings. */
  predicate MissesZero(digits: nat, sign: nat, min: int, max: int, f: Flags) {
    max <= digits && !(f.zero && !f.minus && max < 0 && min > sign + digits)
  }

  /** When the engine prints an integer as the standard asks: it fits in nineteen digits, it is not a zero with
      precision zero, and the padding agrees. The engine ignores the alternate form: that is wrong for every nonzero
      hexadecimal number, and for an octal one unless a padding zero happens to stand where the form wants one. */
  ghost predicate Conforms(value: int, base: nat, min: int, max: int, f: Flags)
    requires 2 <= base <= 16
  {
    var u, sign := StandardWord(value, f), |StandardSign(value, f)|;
    var digits := |Numeral(u, base, f.upper)|;
    var form := f.alternate && f.unsigned;
    && u < Power(base, DIGITS)
    && !(form && base == 16 && u != 0)
    && if form && base == 8 && u != 0 && MissesZero(digits, sign, min, max, f)
       then f.zero && min == sign + digits + 1
       else (max == 0 && u == 0 ==> form && base == 8) && PaddingAgrees(sign + Max(digits, Max(max, 0)), min, max, f)
  }

  lemma DigitFacts(u: nat, base: nat, upper: bool)
    requires 2 <= base <= 16
    ensures var t, digits := Numeral(u, base, upper), DigitsText(u, base, upper);
      && NonSpaces(t) == t && NonSpaces(digits) == digits && digits != ""
      && (|t| <= DIGITS <==> u < Power(base, DIGITS)) && (|t| <= DIGITS ==> digits == t)
      && (u > 0 ==> t[0] != '0')
  {
    hide Numeral, NonSpaces, Power;
    DigitsChars(u, base, upper);
    NumeralChars(u, base, upper);
    NonSpacesKeeps(DigitsText(u, base, upper));
    NonSpacesKeeps(Numeral(u, base, upper));
    NumeralLength(u, base, upper, DIGITS);
    if u > 0 { NumeralHead(u, base, upper); }
  }

  /** The output is the standard's exactly under that condition. */
  lemma IntConforms(value: int, base: nat, min: int, max: int, f: Flags)
    requires 2 <= base <= 16
    ensures IntText(value, base, min, max, f) == StandardInt(value, base, min, max, f) <==>
        Conforms(value, base, min, max, f)
  {
    hide DigitsText, StandardSign, StandardWord, Magnitude, SignText, Numeral, Power, NumberText, StandardLayout,
      StandardZeros, PaddingAgrees, NonSpaces,
      ValueOf, Fill;
    SameSign(value, f);
    var u, sign := Magnitude(value, f), SignText(value, f);
    var t, digits := Numeral(u, base, f.upper), DigitsText(u, base, f.upper);
    DigitFacts(u, base, f.upper);
    assert sign + "" == sign;
    if Prefix(u, base, f) != "" {
      PrefixAgainst(value, value, base, min, max, f);
    } else if NeedsZero(StandardDigits(t, u == 0, max), |sign|, base, min, max, f) {
      OctalConforms(value, min, max, f);
    } else {
      PlainConforms(value, base, min, max, f);
    }
  }

  /** Without the alternate form, or where it changes nothing. */
  lemma PlainConforms(value: int, base: nat, min: int, max: int, f: Flags)
    requires 2 <= base <= 16
    requires var u, sign := Magnitude(value, f), SignText(value, f);
      && Prefix(u, base, f) == ""
      && !NeedsZero(StandardDigits(Numeral(u, base, f.upper), u == 0, max), |sign|, base, min, max, f)
    ensures IntText(value, base, min, max, f) == StandardInt(value, base, min, max, f) <==>
        Conforms(value, base, min, max, f)
  {
    hide DigitsText, StandardSign, StandardWord, Magnitude, SignText, Numeral, Power, NumberText, StandardLayout,
      PaddingAgrees, NonSpaces, ValueOf, Fill;
    SameSign(value, f);
    var u, sign := Magnitude(value, f), SignText(value, f);
    var t, digits := Numeral(u, base, f.upper), DigitsText(u, base, f.upper);
    DigitFacts(u, base, f.upper);
    assert sign + "" == sign;
    if max == 0 && u == 0 {
      ZeroDiffers(sign, digits, min, f);
    } else if |t| > DIGITS {
      DigitsDenote(u, base, f.upper);
      NumeralDenotes(u, base, f.upper);
      WrongDigitsDiffer(sign, digits, t, Max(max - |t|, 0), base, min, max, f);
    } else {
      LayoutConforms(sign, t, min, max, f);
      assert max <= |t| ==> Zeros(Max(max - |t|, 0)) + t == t;
    }
  }

  lemma OctalConforms(value: int, min: int, max: int, f: Flags)
    requires var u, sign := Magnitude(value, f), SignText(value, f);
      NeedsZero(StandardDigits(Numeral(u, 8, f.upper), u == 0, max), |sign|, 8, min, max, f)
    ensures IntText(value, 8, min, max, f) == StandardInt(value, 8, min, max, f) <==> Conforms(value, 8, min, max, f)
  {
    hide DigitsText, StandardSign, StandardWord, Magnitude, SignText, Numeral, Power, NumberText, StandardLayout,
      PaddingAgrees, NonSpaces, ValueOf, Fill;
    SameSign(value, f);
    var u, sign := Magnitude(value, f), SignText(value, f);
    var t, digits := Numeral(u, 8, f.upper), DigitsText(u, 8, f.upper);
    var d := StandardDigits(t, u == 0, max);
    if u == 0 { ZeroNumeral(8, f.upper); }
    DigitFacts(u, 8, f.upper);
    assert sign + "" == sign;
    ZeroLeads(t, u == 0, max);
    assert "" + t == t;
    if u == 0 {
      assert Zeros(Max(max - |t|, 0)) + t == "0" == "0" + d;
      LayoutConforms(sign, t, min, max, f);
    } else if |t| > DIGITS {
      DigitsDenote(u, 8, f.upper);
      NumeralDenotes(u, 8, f.upper);
      assert d == t && Zeros(1) == "0";
      WrongDigitsDiffer(sign, digits, t, 1, 8, min, max, f);
    } else {
      assert d == t;
      AlternateOctal(sign, t, min, max, f);
    }
  }

  /** When the digits begin with a zero without the alternate form. */
  lemma ZeroLeads(t: string, isZero: bool, max: int)
    requires t != ""
    ensures var d := StandardDigits(t, isZero, max);
      (d != "" && d[0] == '0') <==> !(max == 0 && isZero) && (max > |t| || t[0] == '0')
  {
  }

  lemma ZeroNumeral(base: nat, upper: bool)
    requires 2 <= base <= 16
    ensures Numeral(0, base, upper) == "0" && ("0")[0] == '0'
  {
  }

  /** One zero in front of the digits: the engine has it only by padding. */
  lemma AlternateOctal(sign: string, t: string, min: int, max: int, f: Flags)
    requires t != "" && NonSpaces(t) == t && MissesZero(|t|, |sign|, min, max, f)
    ensures NumberText(sign, t, min, max, f) == StandardLayout(sign, "0" + t, min, max, f) <==>
            f.zero && min == |sign| + |t| + 1
  {
    hide Fill, NonSpaces, NumberText, StandardLayout, Padding;
    if f.zero && min == |sign| + |t| + 1 {
      OctalPadded(sign, t, min, max, f);
    } else {
      NumberTextNonSpaces(sign, t, min, max, f);
      NonSpacesZeros(1, t);
      assert Zeros(1) == "0";
      StandardNonSpaces(sign, "0" + t, min, max, f);
      OctalZeros(sign, t, min, max, f);
    }
  }

  lemma OctalPadded(sign: string, t: string, min: int, max: int, f: Flags)
    requires t != "" && MissesZero(|t|, |sign|, min, max, f) && f.zero && min == |sign| + |t| + 1
    ensures NumberText(sign, t, min, max, f) == StandardLayout(sign, "0" + t, min, max, f)
  {
    hide Fill;
    assert Zeros(1) == "0" && Zeros(0) == "" == Spaces(0);
    assert sign + Zeros(0) + ("0" + t) == sign + Zeros(1) + t;
    var body := sign + Zeros(1) + t;
    assert body + "" == body && "" + body == body;
  }

  lemma OctalZeros(sign: string, t: string, min: int, max: int, f: Flags)
    requires t != "" && MissesZero(|t|, |sign|, min, max, f) && !(f.zero && min == |sign| + |t| + 1)
    ensures Padding(|t|, |sign|, min, max, f.zero).0 != 1
    ensures StandardZeros(Max(Width(min) - |sign| - (|t| + 1), 0), min, max, f) == 0
  {
  }

  lemma StandardNonSpaces(sign: string, digits: string, min: int, max: int, f: Flags)
    requires NonSpaces(digits) == digits
    ensures NonSpaces(StandardLayout(sign, digits, min, max, f)) ==
            NonSpaces(sign) + (Zeros(StandardZeros(Max(Width(min) - |sign| - |digits|, 0), min, max, f)) + digits)
  {
    hide NonSpaces, Fill;
    var pad := Max(Width(min) - |sign| - |digits|, 0);
    var zeros := StandardZeros(pad, min, max, f);
    BodyNonSpaces(sign, digits, zeros, pad - zeros);
  }

  lemma ZeroDiffers(sign: string, digits: string, min: int, f: Flags)
    requires digits != "" && NonSpaces(digits) == digits
    ensures NumberText(sign, digits, min, 0, f) != StandardLayout(sign, "", min, 0, f)
  {
    hide NumberText, StandardLayout, Padding, Fill;
    NumberTextNonSpaces(sign, digits, min, 0, f);
    StandardNonSpaces(sign, "", min, 0, f);
  }

  lemma NonSpacesZeros(n: nat, t: string)
    requires NonSpaces(t) == t
    ensures NonSpaces(Zeros(n) + t) == Zeros(n) + t
  {
    NonSpacesConcat(Zeros(n), t);
    NonSpacesFill('0', n);
  }

  lemma WrongDigitsDiffer(sign: string, digits: string, t: string, more: nat, base: nat, min: int, max: int, f: Flags)
    requires NonSpaces(digits) == digits && NonSpaces(t) == t
    requires ValueOf(digits, base) != ValueOf(t, base)
    ensures NumberText(sign, digits, min, max, f) != StandardLayout(sign, Zeros(more) + t, min, max, f)
  {
    hide NumberText, StandardLayout, Padding, Fill, ValueOf, NonSpaces, StandardZeros;
    var all := Zeros(more) + t;
    NonSpacesZeros(more, t);
    NumberTextNonSpaces(sign, digits, min, max, f);
    StandardNonSpaces(sign, all, min, max, f);
    var a := Padding(|digits|, |sign|, min, max, f.zero).0;
    var b := StandardZeros(Max(Width(min) - |sign| - |all|, 0), min, max, f);
    LeadingZeros(digits, a, base);
    LeadingZeros(all, b, base);
    LeadingZeros(t, more, base);
    var ns := NonSpaces(sign);
    assert (ns + (Zeros(a) + digits))[|ns|..] == Zeros(a) + digits;
    assert (ns + (Zeros(b) + all))[|ns|..] == Zeros(b) + all;
  }

  lemma LayoutConforms(sign: string, t: string, min: int, max: int, f: Flags)
    requires t != "" && NonSpaces(t) == t
    ensures NumberText(sign, t, min, max, f) == StandardLayout(sign, Zeros(Max(max - |t|, 0)) + t, min, max, f)
            <==> PaddingAgrees(|sign| + Max(|t|, Max(max, 0)), min, max, f)
  {
    hide Fill, NonSpaces, NumberText, StandardLayout;
    if PaddingAgrees(|sign| + Max(|t|, Max(max, 0)), min, max, f) {
      SameLayout(sign, t, min, max, f);
    } else if min >= 0 && max <= |t| {
      MoreZeros(sign, t, min, max, f);
    } else {
      ShorterText(sign, t, min, max, f);
    }
  }

  lemma SameLayout(sign: string, t: string, min: int, max: int, f: Flags)
    requires t != "" && PaddingAgrees(|sign| + Max(|t|, Max(max, 0)), min, max, f)
    ensures NumberText(sign, t, min, max, f) == StandardLayout(sign, Zeros(Max(max - |t|, 0)) + t, min, max, f)
  {
    hide Fill;
    var more := Max(max - |t|, 0);
    var pad := Max(Width(min) - |sign| - (more + |t|), 0);
    assert Zeros(0) == "" == Spaces(0);
    assert sign + Zeros(more) + t == sign + Zeros(0) + (Zeros(more) + t);
    var (zeros, spaces) := Padding(|t|, |sign|, min, max, f.zero);
    if pad > 0 && f.zero {
      assert more == 0 && "" + t == t && zeros == pad && spaces == 0;
    } else {
      assert zeros == more && spaces == pad;
      var body := sign + Zeros(more) + t;
      assert pad == 0 ==> body + "" == body && "" + body == body;
    }
  }

  /** The zero flag wins although the standard lets it yield. */
  lemma MoreZeros(sign: string, t: string, min: int, max: int, f: Flags)
    requires t != "" && NonSpaces(t) == t && min >= 0 && max <= |t|
    requires !PaddingAgrees(|sign| + Max(|t|, Max(max, 0)), min, max, f)
    ensures NumberText(sign, t, min, max, f) != StandardLayout(sign, Zeros(Max(max - |t|, 0)) + t, min, max, f)
  {
    hide Fill, NonSpaces, NumberText, StandardLayout;
    assert Zeros(0) + t == t;
    NumberTextNonSpaces(sign, t, min, max, f);
    StandardNonSpaces(sign, t, min, max, f);
  }

  /** The engine's field is too narrow: a negative width, or a precision combined with the zero flag. */
  lemma ShorterText(sign: string, t: string, min: int, max: int, f: Flags)
    requires t != "" && (min < 0 || max > |t|)
    requires !PaddingAgrees(|sign| + Max(|t|, Max(max, 0)), min, max, f)
    ensures |NumberText(sign, t, min, max, f)| < |StandardLayout(sign, Zeros(Max(max - |t|, 0)) + t, min, max, f)|
  {
    hide Fill;
  }

  // ---- Whole directives ----

  /** The value that a directive asks for: h converts the argument to a short first. */
  function Converted(n: int, l: Length, unsigned: bool): int {
    if !l.Short? then n
    else if unsigned then n % 0x1_0000
    else (n + 0x8000) % 0x1_0000 - 0x8000
  }

  function BaseOf(c: char): nat {
    if c == 'o' then 8 else if c in "xX" then 16 else 10
  }

  /** What the standard asks of an integer directive. */
  function StandardDirective(c: char, l: Length, f: Flags, min: int, max: int, n: int): string {
    var f' := f.(unsigned := c in "ouxX", upper := c == 'X');
    StandardInt(Converted(n, l, c in "ouxX"), BaseOf(c), min, max, f')
  }

  /** An integer directive conforms exactly when its text does and h, which the engine reads and ignores, would not
      change the value. */
  lemma DirectiveConforms(c: char, l: Length, f: Flags, min: int, max: int, args: seq<Arg>)
    requires c in "diouxX" && !f.unsigned && !f.upper && Matches(ConversionKinds(c, l), args)
    ensures var n := args[0].n; var f' := f.(unsigned := c in "ouxX", upper := c == 'X');
      ConversionText(c, l, f, min, max, args) == StandardDirective(c, l, f, min, max, n) <==>
      Converted(n, l, c in "ouxX") == n && Conforms(n, BaseOf(c), min, max, f')
  {
    hide IntText, StandardInt, Conforms, ToLong, HasKind;
    KindBounds(c, l, args);
    var n, unsigned := args[0].n, c in "ouxX";
    var f' := f.(unsigned := unsigned, upper := c == 'X');
    assert f.(unsigned := false, upper := false) == f;
    AsLong(n, BaseOf(c), min, max, f');
    if Converted(n, l, unsigned) == n {
      IntConforms(n, BaseOf(c), min, max, f');
    } else {
      DifferentValues(n, Converted(n, l, unsigned), BaseOf(c), min, max, f');
    }
  }

  /** The arguments of integer directives are words, and without l they are ints. */
  lemma KindBounds(c: char, l: Length, args: seq<Arg>)
    requires c in "diouxX" && Matches(ConversionKinds(c, l), args)
    ensures |ConversionKinds(c, l)| == 1 && args[0].Number?
    ensures var n := args[0].n;
      && (if c in "di" then -LONG_MAX - 1 <= n <= LONG_MAX else 0 <= n < WORD)
      && (l.Short? ==> if c in "di" then -0x8000_0000 <= n < 0x8000_0000 else 0 <= n <= 0xFFFF_FFFF)
  {
    assert HasKind(args[0], ConversionKinds(c, l)[0]);
  }

  /** Passing an unsigned word as a long changes nothing. */
  lemma AsLong(n: int, base: nat, min: int, max: int, f: Flags)
    requires 2 <= base <= 16 && -LONG_MAX - 1 <= n < WORD && (n < 0 || n > LONG_MAX ==> f.unsigned == (n > 0))
    ensures IntText(ToLong(n), base, min, max, f) == IntText(n, base, min, max, f)
  {
    hide NumberText, DigitsText;
  }

  lemma DigitsValue(t: string, base: nat, isZero: bool, max: int)
    requires isZero ==> ValueOf(t, base) == 0
    ensures ValueOf(StandardDigits(t, isZero, max), base) == ValueOf(t, base)
    ensures ValueOf("0" + StandardDigits(t, isZero, max), base) == ValueOf(t, base)
    ensures NonSpaces(t) == t ==> NonSpaces(StandardDigits(t, isZero, max)) == StandardDigits(t, isZero, max)
    ensures NonSpaces(t) == t ==>
        NonSpaces("0" + StandardDigits(t, isZero, max)) == "0" + StandardDigits(t, isZero, max)
    ensures (forall i :: 0 <= i < |t| ==> t[i] !in "+-") ==>
              forall i :: 0 <= i < |StandardDigits(t, isZero, max)| ==> StandardDigits(t, isZero, max)[i] !in "+-"
  {
    assert ValueOf("", base) == 0 && NonSpaces("") == "" && Zeros(1) == "0";
    hide ValueOf, NonSpaces, Fill;
    var d := StandardDigits(t, isZero, max);
    LeadingZeros(t, Max(max - |t|, 0), base);
    LeadingZeros(d, 1, base);
    if NonSpaces(t) == t {
      NonSpacesZeros(Max(max - |t|, 0), t);
      NonSpacesZeros(1, d);
    }
  }

  /** Texts of different values differ, whatever the fields. */
  lemma DifferentValues(v: int, w: int, base: nat, min: int, max: int, f: Flags)
    requires base in {8, 10, 16} && -0x8000_0000 <= v <= 0xFFFF_FFFF && -0x8000_0000 <= w <= 0xFFFF_FFFF && v != w
    requires f.unsigned ==> v >= 0 && w >= 0
    ensures IntText(v, base, min, max, f) != StandardInt(w, base, min, max, f)
  {
    hide StandardSign, StandardWord, DigitsText, Numeral, NumberText, StandardLayout, StandardDigits, NeedsZero,
      NonSpaces, ValueOf, Fill, SignText,
      Magnitude;
    Signed(v, f);
    Signed(w, f);
    SameSign(w, f);
    var u := Magnitude(w, f);
    var t := Numeral(u, base, f.upper);
    SmallDigits(Magnitude(v, f), base, f.upper);
    NumeralDenotes(u, base, f.upper);
    NumeralChars(u, base, f.upper);
    NonSpacesKeeps(t);
    DigitsValue(t, base, u == 0, max);
    if Prefix(u, base, f) != "" {
      PrefixAgainst(v, w, base, min, max, f);
    } else {
      assert SignText(w, f) + "" == SignText(w, f);
      var d := StandardDigits(t, u == 0, max);
      var d' := if NeedsZero(d, |SignText(w, f)|, base, min, max, f) then "0" + d else d;
      assert "0" + d == ['0'] + d;
      LayoutsDiffer(v, w, DigitsText(Magnitude(v, f), base, f.upper), d', base, min, max, f);
    }
  }

  lemma SmallDigits(u: nat, base: nat, upper: bool)
    requires base in {8, 10, 16} && u <= 0xFFFF_FFFF
    ensures var digits := DigitsText(u, base, upper);
      && ValueOf(digits, base) == u && NonSpaces(digits) == digits
      && forall i :: 0 <= i < |digits| ==> digits[i] !in "+-"
  {
    hide DigitsText, Power, NonSpaces, ValueOf;
    Wide(base);
    DigitsDenote(u, base, upper);
    DigitsChars(u, base, upper);
    NonSpacesKeeps(DigitsText(u, base, upper));
  }

  lemma Wide(base: nat)
    requires base in {8, 10, 16}
    ensures Power(base, DIGITS) > 0xFFFF_FFFF
  {
    PowerTen();
    assert Power(8, 5) == 0x8000 && Power(8, 10) == 0x4000_0000 && Power(8, 15) == 0x2000_0000_0000;
    assert Power(16, 5) == 0x10_0000 && Power(16, 10) == 0x100_0000_0000 && Power(16, 15) == 0x1000_0000_0000_0000;
  }

  /** Sign and digits can be told apart in a layout. */
  lemma LayoutsDiffer(v: int, w: int, digits: string, d: string, base: nat, min: int, max: int, f: Flags)
    requires NonSpaces(digits) == digits && NonSpaces(d) == d
    requires ValueOf(digits, base) == Magnitude(v, f) && ValueOf(d, base) == Magnitude(w, f)
    requires -0x8000_0000 <= v <= 0xFFFF_FFFF && -0x8000_0000 <= w <= 0xFFFF_FFFF && v != w
    requires f.unsigned ==> v >= 0 && w >= 0
    requires (forall i :: 0 <= i < |digits| ==> digits[i] !in "+-") && forall i :: 0 <= i < |d| ==> d[i] !in "+-"
    ensures NumberText(SignText(v, f), digits, min, max, f) != StandardLayout(SignText(w, f), d, min, max, f)
  {
    hide NumberText, StandardLayout, StandardZeros, Padding, NonSpaces, ValueOf, Fill, SignText, Magnitude;
    Signed(v, f);
    Signed(w, f);
    var a := Padding(|digits|, |SignText(v, f)|, min, max, f.zero).0;
    var b := StandardZeros(Max(Width(min) - |SignText(w, f)| - |d|, 0), min, max, f);
    NumberTextNonSpaces(SignText(v, f), digits, min, max, f);
    StandardNonSpaces(SignText(w, f), d, min, max, f);
    LeadingZeros(digits, a, base);
    LeadingZeros(d, b, base);
    SignShown(v, f);
    SignShown(w, f);
    SignsApart(NonSpaces(SignText(v, f)), Zeros(a) + digits, NonSpaces(SignText(w, f)), Zeros(b) + d);
  }

  lemma Signed(value: int, f: Flags)
    requires -0x8000_0000 <= value <= 0xFFFF_FFFF && (f.unsigned ==> value >= 0)
    ensures Magnitude(value, f) == if value < 0 then -value else value
  {
  }

  lemma SignShown(value: int, f: Flags)
    ensures NonSpaces(SignText(value, f)) ==
            if f.unsigned then "" else if value < 0 then "-" else if f.plus then "+" else ""
  {
    NonSpacesKeeps("-");
    NonSpacesKeeps("+");
    assert NonSpaces("") == "" && NonSpaces(" ") == NonSpaces("");
  }

  lemma SignsApart(s: string, x: string, s': string, y: string)
    requires |s| <= 1 && |s'| <= 1
    requires (forall i :: 0 <= i < |x| ==> x[i] !in "+-") && forall i :: 0 <= i < |y| ==> y[i] !in "+-"
    requires (s == "" || s[0] in "+-") && (s' == "" || s'[0] in "+-")
    ensures s + x == s' + y ==> s == s' && x == y
  {
    if s + x == s' + y {
      if s != "" { assert (s + x)[0] == s[0]; }
      if s' != "" { assert (s' + y)[0] == s'[0]; }
      assert |s| == |s'|;
      assert (s + x)[|s|..] == x && (s' + y)[|s|..] == y;
    }
  }

  /** The engine never prints an x. */
  lemma PrefixAgainst(v: int, w: int, base: nat, min: int, max: int, f: Flags)
    requires 2 <= base <= 16 && Prefix(Magnitude(w, f), base, f) != ""
    ensures IntText(v, base, min, max, f) != StandardInt(w, base, min, max, f)
  {
    hide StandardSign, StandardWord, Magnitude, DigitsText, Numeral, Fill, StandardZeros, Padding, NeedsZero,
      StandardDigits;
    SameSign(w, f);
    var u := Magnitude(v, f);
    DigitsChars(u, base, f.upper);
    var x := Prefix(Magnitude(w, f), base, f)[1];
    assert x in "xX" && x in SignText(w, f) + Prefix(Magnitude(w, f), base, f);
    assert x in StandardInt(w, base, min, max, f);
    assert x !in DigitsText(u, base, f.upper);
    assert x !in IntText(v, base, min, max, f);
  }

  /** Text that the standard requires for s: at most `max` characters, then padding to the width. */
  function StandardStr(s: CString, min: int, max: int, left: bool): string {
    var t := if 0 <= max < |s| then s[..max] else s;
    var pad := Spaces(Max(Width(min) - |t|, 0));
    if left || min < 0 then t + pad else pad + t
  }

  /** The engine counts the padding against the precision, so it conforms exactly when a
      precision, if given, is at least the width. */
  lemma StrConforms(s: CString, min: int, max: int, left: bool)
    ensures StrText(Some(s), min, max, left) == StandardStr(s, min, max, left) <==>
      if min >= 0 then max < 0 || min <= max else Width(min) <= if 0 <= max < |s| then max else |s|
  {
    hide Fill;
    var engine, standard := StrText(Some(s), min, max, left), StandardStr(s, min, max, left);
    if min < 0 {
      assert s + "" == s && "" + s == s;
      assert engine == Cut(s, max) && |standard| == Max(Width(min), |Cut(s, max)|);
      if Width(min) <= |engine| { assert engine + "" == engine; }
    } else if 0 <= max < min {
      assert |engine| <= max < min <= |standard|;
    } else if min <= |s| {
      assert s + "" == s && "" + s == s;
      assert Cut(s, max) + "" == Cut(s, max) && "" + Cut(s, max) == Cut(s, max);
    }
  }

  // ---- Directives as written ----

  /** The flags that a directive has, in any order and number. */
  ghost function StandardFlags(s: string): Flags {
    Flags(exists i :: 0 <= i < |s| && s[i] == '-', exists i :: 0 <= i < |s| && s[i] == '+',
          exists i :: 0 <= i < |s| && s[i] == ' ', exists i :: 0 <= i < |s| && s[i] == '#',
          exists i :: 0 <= i < |s| && s[i] == '0', false, false)
  }

  /** Width, precision as the standard reads it, and place of the value among the arguments: a star takes an argument,
      a lone dot is a precision of zero. */
  function AskedFor(d: Directive, args: seq<Arg>): (int, int, nat)
    requires Matches(Kinds(Spec(d)), args)
  {
    var a := if d.width.FromArgument? then 1 else 0;
    KindsPlaced(d, args);
    (match d.width
     case FromArgument => args[0].n
     case Fixed(n) => n
     case _ => 0,
     match d.precision
     case Absent => -1
     case Bare => 0
     case Fixed(n) => n
     case FromArgument => args[a].n,
     if d.precision.FromArgument? then a + 1 else a)
  }

  /** Arguments that match three lists of kinds in turn. */
  lemma MatchesSplit(a: seq<Kind>, b: seq<Kind>, c: seq<Kind>, args: seq<Arg>)
    requires Matches(a + b + c, args)
    ensures |a| + |b| + |c| <= |args|
    ensures Matches(a, args) && Matches(b, args[|a|..]) && Matches(c, args[|a| + |b|..])
  {
    hide HasKind;
    var kinds := a + b + c;
    assert forall i :: 0 <= i < |a| ==> kinds[i] == a[i];
    assert forall i :: 0 <= i < |b| ==> kinds[|a| + i] == b[i];
    assert forall i :: 0 <= i < |c| ==> kinds[|a| + |b| + i] == c[i];
  }

  lemma KindsPlaced(d: Directive, args: seq<Arg>)
    requires Matches(Kinds(Spec(d)), args)
    ensures var a := |FieldKinds(d.width)|; var b := a + |FieldKinds(d.precision)|;
      && b <= |args| && Matches(FieldKinds(d.width), args) && Matches(FieldKinds(d.precision), args[a..])
      && (d.conversion.Some? ==> Matches(ConversionKinds(d.conversion.value, d.length), args[b..]))
  {
    hide ConversionKinds, FieldKinds, Matches;
    var last := if d.conversion.Some? then ConversionKinds(d.conversion.value, d.length) else [];
    MatchesSplit(FieldKinds(d.width), FieldKinds(d.precision), last, args);
  }

  /** The engine's integers do not tell a missing precision from zero. */
  lemma NoPrecision(value: int, base: nat, min: int, f: Flags)
    requires 2 <= base <= 16
    ensures IntText(value, base, min, -1, f) == IntText(value, base, min, 0, f)
  {
    hide DigitsText, Magnitude, SignText, Fill;
  }

  /** An integer directive as written, a lone dot included. */
  lemma WrittenIntConforms(d: Directive, args: seq<Arg>)
    requires d.conversion.Some? && d.conversion.value in "diouxX" && Matches(Kinds(Spec(d)), args)
    ensures var c := d.conversion.value; var (min, max, b) := AskedFor(d, args);
      && b < |args| && args[b].Number?
      && var n, asked := args[b].n, StandardFlags(d.flags);
         var f := asked.(unsigned := c in "ouxX", upper := c == 'X');
         PieceText(Spec(d), args) == StandardDirective(c, d.length, asked, min, max, n) <==>
         Converted(n, d.length, c in "ouxX") == n && Conforms(n, BaseOf(c), min, max, f)
  {
    hide IntText, StandardInt, Conforms, ToLong, HasKind, StandardDirective, Converted, ConversionText, Kinds,
      FlagsOf, StandardFlags;
    KindsPlaced(d, args);
    var c, fl := d.conversion.value, FlagsOf(d.flags);
    PlainFlags(d.flags);
    var (min, max, b) := AskedFor(d, args);
    KindBounds(c, d.length, args[b..]);
    DirectiveConforms(c, d.length, fl, min, max, args[b..]);
    if d.precision.Bare? {
      SamePrecision(c, d.length, fl, min, args[b..]);
    }
  }

  lemma PlainFlags(s: string)
    ensures FlagsOf(s) == StandardFlags(s) && !FlagsOf(s).unsigned && !FlagsOf(s).upper
  {
  }

  lemma SamePrecision(c: char, l: Length, f: Flags, min: int, args: seq<Arg>)
    requires c in "diouxX" && Matches(ConversionKinds(c, l), args)
    ensures ConversionText(c, l, f, min, -1, args) == ConversionText(c, l, f, min, 0, args)
  {
    hide IntText, ToLong;
    var value, unsigned := ToLong(args[0].n), f.(unsigned := true);
    NoPrecision(value, BaseOf(c), min, f);
    NoPrecision(value, BaseOf(c), min, unsigned);
    NoPrecision(value, BaseOf(c), min, unsigned.(upper := true));
  }

  /** A string directive as written. With a lone dot the standard prints nothing of the string: the engine agrees
      exactly when only spaces come out and as many as the width asks for. */
  lemma WrittenStrConforms(d: Directive, args: seq<Arg>)
    requires d.conversion == Some('s') && Matches(Kinds(Spec(d)), args)
    requires args[AskedFor(d, args).2].s.Some?
    ensures var (min, max, b) := AskedFor(d, args); var s, left := args[b].s.value, StandardFlags(d.flags).minus;
      PieceText(Spec(d), args) == StandardStr(s, min, max, left) <==>
      if d.precision.Bare? then (forall i :: 0 <= i < |s| ==> s[i] == ' ') && Max(min, |s|) == Width(min)
      else if min >= 0 then max < 0 || min <= max
      else Width(min) <= if 0 <= max < |s| then max else |s|
  {
    hide Kinds, StrText, StandardStr, FlagsOf, StandardFlags;
    KindsPlaced(d, args);
    PlainFlags(d.flags);
    var (min, max, b) := AskedFor(d, args);
    assert HasKind(args[b..][0], KString);
    var s, left := args[b].s.value, FlagsOf(d.flags).minus;
    if d.precision.Bare? {
      BareStr(s, min, left);
    } else {
      StrConforms(s, min, max, left);
    }
  }

  lemma BareStr(s: CString, min: int, left: bool)
    ensures StrText(Some(s), min, -1, left) == StandardStr(s, min, 0, left) <==>
            (forall i :: 0 <= i < |s| ==> s[i] == ' ') && Max(min, |s|) == Width(min)
  {
    hide Fill;
    var engine, standard := StrText(Some(s), min, -1, left), StandardStr(s, min, 0, left);
    var pad := Max(min - |s|, 0);
    assert standard == Spaces(Width(min)) by {
      assert "" + Spaces(Width(min)) == Spaces(Width(min)) == Spaces(Width(min)) + "";
    }
    assert |engine| == Max(min, |s|);
    assert forall i :: 0 <= i < |s| ==> engine[if left then i else pad + i] == s[i];
  }

  // ---- NULs ----

  /** A %c whose argument is a multiple of 256. */
  predicate PieceNul(p: Piece, args: seq<Arg>)
    requires Matches(Kinds(p), args)
  {
    p.Spec? && p.d.conversion == Some('c') &&
    var a := |FieldKinds(p.d.width)| + |FieldKinds(p.d.precision)|;
    assert Kinds(p)[a] == KInt && HasKind(args[a], KInt);
    args[a].n % 256 == 0
  }

  /** Some %c of the format gets such an argument. */
  predicate AsksNul(pieces: seq<Piece>, args: seq<Arg>)
    requires Callable(pieces, args)
  {
    pieces != [] && (PieceNul(pieces[0], args) || AsksNul(pieces[1..], args[|Kinds(pieces[0])|..]))
  }

  lemma IntTextNoNul(value: int, base: nat, min: int, max: int, f: Flags)
    requires 2 <= base <= 16
    ensures '\0' !in IntText(value, base, min, max, f)
  {
    hide Magnitude, DigitsText, Padding, Fill;
    DigitsChars(Magnitude(value, f), base, f.upper);
    assert '\0' !in DigitsText(Magnitude(value, f), base, f.upper);
  }

  lemma StrTextNoNul(value: Option<CString>, min: int, max: int, left: bool)
    ensures '\0' !in StrText(value, min, max, left)
  {
    hide Fill;
  }

  lemma PieceTextNul(p: Piece, args: seq<Arg>)
    requires Matches(Kinds(p), args) && (p.Literal? ==> p.c != '\0')
    ensures '\0' in PieceText(p, args) <==> PieceNul(p, args)
  {
    hide IntText, StrText, ToLong, HasKind;
    if p.Spec? && p.d.conversion.Some? {
      var d := p.d;
      var a := |FieldKinds(d.width)|;
      var b := a + |FieldKinds(d.precision)|;
      var min, max := FieldValue(d.width, 0, args), FieldValue(d.precision, -1, args[a..]);
      ConversionTextNul(d.conversion.value, d.length, FlagsOf(d.flags), min, max, args[b..]);
    }
  }

  lemma ConversionTextNul(c: char, l: Length, f: Flags, min: int, max: int, args: seq<Arg>)
    requires Matches(ConversionKinds(c, l), args)
    ensures '\0' in ConversionText(c, l, f, min, max, args) <==> c == 'c' && args[0].n % 256 == 0
  {
    hide IntText, StrText, ToLong;
    if c in "diouxXp" {
      var base := if c == 'o' then 8 else if c in "xXp" then 16 else 10;
      var f' := f.(unsigned := f.unsigned || c in "ouxX", upper := f.upper || c == 'X');
      IntTextNoNul(ToLong(args[0].n), base, min, max, f');
      IntTextNoNul(ToLong(args[0].n), base, min, max, f);
    } else if c == 's' {
      StrTextNoNul(args[0].s, min, max, f.minus);
    }
  }

  lemma FieldRest(pre: string, s: string)
    ensures forall c :: c in ParseField(pre, s).1 ==> c in s
  {
  }

  lemma ModifierRest(f: string, w: Field, p: Field, s: string)
    ensures forall c :: c in ParseModifier(f, w, p, s).1 ==> c in s
  {
  }

  lemma DotRest(f: string, w: Field, s: string)
    ensures forall c :: c in ParseDot(f, w, s).1 ==> c in s
  {
    hide ParseModifier, ParseField;
    if s != "" && s[0] == '.' {
      FieldRest("", s[1..]);
      var (p, rest) := ParsePrecisionField("", s[1..]);
      ModifierRest(f, w, p, rest);
    } else {
      ModifierRest(f, w, Absent, s);
    }
  }

  lemma FlagsRest(f: string, s: string)
    ensures forall c :: c in ParseFlags(f, s).1 ==> c in s
  {
    hide ParseDot, ParseField;
    var n := Span(s, IsFlag);
    FieldRest("", s[n..]);
    var (w, rest) := ParseField("", s[n..]);
    DotRest(f + s[..n], w, rest);
  }

  /** Literals come from the format. */
  lemma {:induction false} TokenizeLiterals(s: string)
    ensures forall i :: 0 <= i < |Tokenize(s)| && Tokenize(s)[i].Literal? ==> Tokenize(s)[i].c in s
    decreases |s|
  {
    hide ParseFlags;
    if s == "" {
    } else if s[0] == '%' {
      FlagsRest("", s[1..]);
      var (d, rest) := ParseFlags("", s[1..]);
      assert Tokenize(s) == [Spec(d)] + Tokenize(rest);
      TokenizeLiterals(rest);
    } else {
      TokenizeLiterals(s[1..]);
    }
  }

  lemma {:induction false} FormatTextNul(pieces: seq<Piece>, args: seq<Arg>)
    requires Callable(pieces, args) && forall i :: 0 <= i < |pieces| && pieces[i].Literal? ==> pieces[i].c != '\0'
    ensures '\0' in FormatText(pieces, args) <==> AsksNul(pieces, args)
    decreases |pieces|
  {
    hide PieceText, PieceNul, Kinds;
    if pieces != [] {
      PieceTextNul(pieces[0], args);
      FormatTextNul(pieces[1..], args[|Kinds(pieces[0])|..]);
    }
  }

  /** The text of a format has a NUL exactly when a %c asks for one. */
  lemma TextNulIff(format: CString, args: seq<Arg>)
    requires Callable(Tokenize(format), args)
    ensures '\0' in FormatText(Tokenize(format), args) <==> AsksNul(Tokenize(format), args)
  {
    hide Tokenize, FormatText, AsksNul, Callable;
    TokenizeLiterals(format);
    FormatTextNul(Tokenize(format), args);
  }
}
