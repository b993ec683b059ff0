/** What each part of a format puts into the output, said without the engine's own functions:
    plain text, percent signs, characters, pointers, strings, and what prints nothing. */
module PrintfTexts {
  import opened CText
  import opened Numerals
  import opened PrintfSpec
  import opened PrintfLaws

  // ---- Whole formats ----

  /** Text without percent signs comes out as it is, and takes no argument. */
  lemma {:induction false} PlainPrefix(s: string, rest: string, args: seq<Arg>)
    requires '%' !in s
    ensures Callable(Tokenize(s + rest), args) <==> Callable(Tokenize(rest), args)
    ensures Callable(Tokenize(rest), args) ==>
              FormatText(Tokenize(s + rest), args) == s + FormatText(Tokenize(rest), args)
  {
    hide Tokenize, FormatText, Callable;
    if s == "" {
      assert s + rest == rest;
    } else {
      assert (s + rest)[1..] == s[1..] + rest;
      PlainPrefix(s[1..], rest, args);
      LiteralStep(s[0], s[1..] + rest, args);
      assert s + rest == [s[0]] + (s[1..] + rest);
    }
  }

  lemma LiteralStep(c: char, rest: string, args: seq<Arg>)
    requires c != '%'
    ensures Callable(Tokenize([c] + rest), args) <==> Callable(Tokenize(rest), args)
    ensures Callable(Tokenize(rest), args) ==>
              FormatText(Tokenize([c] + rest), args) == [c] + FormatText(Tokenize(rest), args)
  {
    var pieces := Tokenize(rest);
    assert ([c] + rest)[1..] == rest;
    assert Tokenize([c] + rest) == [Literal(c)] + pieces;
    assert ([Literal(c)] + pieces)[1..] == pieces && args[0..] == args;
  }

  lemma PlainText(format: string, args: seq<Arg>)
    requires '%' !in format
    ensures Callable(Tokenize(format), args) && FormatText(Tokenize(format), args) == format
  {
    PlainPrefix(format, "", args);
    assert format + "" == format && Tokenize("") == [];
  }

  /** How many arguments a directive takes: one for each star, and one for the value if it has any. */
  function Takes(d: Directive): nat {
    (if d.width.FromArgument? then 1 else 0) + (if d.precision.FromArgument? then 1 else 0)
      + if d.conversion.Some? && d.conversion.value in "diouxXeEgGcsp" then 1 else 0
  }

  /** The text of a format is the text of its first directive, and then that of the rest with the arguments that the
      first one leaves. */
  lemma DirectiveFirst(d: Directive, rest: string, args: seq<Arg>)
    requires Writable(Spec(d))
    ensures Callable(Tokenize(Written(Spec(d)) + rest), args) <==>
      && d.conversion.value !in "fnw" && Matches(Kinds(Spec(d)), args)
      && Takes(d) <= |args| && Callable(Tokenize(rest), args[Takes(d)..])
    ensures Callable(Tokenize(Written(Spec(d)) + rest), args) ==>
              FormatText(Tokenize(Written(Spec(d)) + rest), args) ==
              PieceText(Spec(d), args) + FormatText(Tokenize(rest), args[Takes(d)..])
  {
    hide PieceText, Callable, FormatText, Tokenize, Written, Kinds;
    WrittenFirst(d, rest);
    FormatFirst(Spec(d), Tokenize(rest), args);
    TakesKinds(d);
  }

  lemma WrittenFirst(d: Directive, rest: string)
    requires Writable(Spec(d))
    ensures Tokenize(Written(Spec(d)) + rest) == [Spec(d)] + Tokenize(rest)
  {
    hide ParseFlags;
    var s := Written(Spec(d)) + rest;
    DirectiveWritten(d, rest);
    assert s[0] == '%' && s[1..] == Written(Spec(d))[1..] + rest;
  }

  lemma FormatFirst(p: Piece, pieces: seq<Piece>, args: seq<Arg>)
    ensures Callable([p] + pieces, args) <==>
              Supported(p) && Matches(Kinds(p), args) && |Kinds(p)| <= |args| && Callable(pieces, args[|Kinds(p)|..])
    ensures Callable([p] + pieces, args) ==>
              FormatText([p] + pieces, args) == PieceText(p, args) + FormatText(pieces, args[|Kinds(p)|..])
  {
    hide PieceText, Kinds;
    assert ([p] + pieces)[1..] == pieces;
  }

  lemma TakesKinds(d: Directive)
    ensures |Kinds(Spec(d))| == Takes(d)
  {
  }

  // ---- Single directives ----

  lemma PieceParts(d: Directive, args: seq<Arg>)
    requires d.conversion.Some? && Matches(Kinds(Spec(d)), args)
    ensures var (min, max, n) := AskedFor(d, args); var c := d.conversion.value;
      && n <= |args| && Matches(ConversionKinds(c, d.length), args[n..])
      && PieceText(Spec(d), args) ==
         ConversionText(c, d.length, FlagsOf(d.flags), min, if d.precision.Bare? then -1 else max, args[n..])
  {
    hide ConversionText, ConversionKinds, FlagsOf;
    KindsPlaced(d, args);
  }

  /** A percent sign, whatever flags and fields it has. */
  lemma PercentText(d: Directive, args: seq<Arg>)
    requires d.conversion == Some('%') && Matches(Kinds(Spec(d)), args)
    ensures PieceText(Spec(d), args) == "%"
  {
    hide FlagsOf, AskedFor, PieceText;
    PieceParts(d, args);
  }

  /** Floating point with an exponent, a conversion that does not exist, and a directive that the end of the format cuts
      off print nothing. */
  lemma NothingText(d: Directive, args: seq<Arg>)
    requires Matches(Kinds(Spec(d)), args)
    requires d.conversion.Some? ==> d.conversion.value !in "diouxXcsp%"
    ensures PieceText(Spec(d), args) == ""
  {
    hide FlagsOf, AskedFor;
    if d.conversion.Some? { PieceParts(d, args); }
  }

  /** One character: the argument, cut to eight bits. */
  lemma CharText(d: Directive, args: seq<Arg>)
    requires d.conversion == Some('c') && Matches(Kinds(Spec(d)), args)
    ensures var n := AskedFor(d, args).2;
      && n < |args| && args[n].Number? && |PieceText(Spec(d), args)| == 1
      && PieceText(Spec(d), args)[0] as int < 256
      && (PieceText(Spec(d), args)[0] as int - args[n].n) % 256 == 0
      && (0 <= args[n].n < 256 ==> PieceText(Spec(d), args)[0] as int == args[n].n)
  {
    hide FlagsOf, AskedFor, PieceText;
    PieceParts(d, args);
    var n := AskedFor(d, args).2;
    assert HasKind(args[n..][0], KInt) && args[n..][0] == args[n];
  }

  /** A pointer is printed as a signed number in base sixteen, in small letters: it reads back as itself below two to
      the power of 63, and less two to the power of 64 from there on. */
  lemma PointerText(d: Directive, args: seq<Arg>)
    requires d.conversion == Some('p') && Matches(Kinds(Spec(d)), args)
    ensures var n := AskedFor(d, args).2;
      && n < |args| && args[n].Number? && 0 <= args[n].n < WORD
      && (forall c :: c in PieceText(Spec(d), args) ==> c in " -+0123456789abcdef")
      && ReadBack(NonSpaces(PieceText(Spec(d), args)), 16) ==
         if args[n].n < 0x8000_0000_0000_0000 then args[n].n else args[n].n - 0x1_0000_0000_0000_0000
  {
    hide FlagsOf, AskedFor, PieceText, IntText, ConversionText;
    PieceParts(d, args);
    var (min, max, n) := AskedFor(d, args);
    assert HasKind(args[n..][0], KULong) && args[n..][0] == args[n];
    PlainFlags(d.flags);
    PointerConversion(d.length, FlagsOf(d.flags), min, if d.precision.Bare? then -1 else max, args[n..]);
  }

  lemma PointerConversion(l: Length, f: Flags, min: int, max: int, args: seq<Arg>)
    requires Matches(ConversionKinds('p', l), args) && !f.unsigned && !f.upper
    ensures var text := ConversionText('p', l, f, min, max, args); var n := args[0].n;
      && (forall c :: c in text ==> c in " -+0123456789abcdef")
      && ReadBack(NonSpaces(text), 16) ==
         if n < 0x8000_0000_0000_0000 then n else n - 0x1_0000_0000_0000_0000
  {
    hide IntText, ReadBack, NonSpaces;
    assert HasKind(args[0], KULong);
    IntTextReadsBack(ToLong(args[0].n), 16, min, max, f);
    IntTextCase(ToLong(args[0].n), 16, min, max, f);
  }

  lemma IntTextCase(value: int, base: nat, min: int, max: int, f: Flags)
    requires 2 <= base <= 16
    ensures forall c :: c in IntText(value, base, min, max, f) ==>
              c in " -+" || c in (if f.upper then "0123456789ABCDEF" else "0123456789abcdef")
  {
    hide Magnitude, Numeral, Padding, Fill;
    var u := Magnitude(value, f);
    NumeralCase(u, base, f.upper);
    var t := DigitsText(u, base, f.upper);
    assert forall c :: c in t ==> c in Numeral(u, base, f.upper);
  }

  /** A null string prints like the string <NULL>. */
  lemma NullText(d: Directive, args: seq<Arg>)
    requires d.conversion == Some('s') && Matches(Kinds(Spec(d)), args)
    ensures var n := AskedFor(d, args).2;
      && n < |args| && args[n].Text?
      && (args[n].s.None? ==>
            && Matches(Kinds(Spec(d)), args[n := Text(Some("<NULL>"))])
            && PieceText(Spec(d), args) == PieceText(Spec(d), args[n := Text(Some("<NULL>"))])
            && (d.width.Absent? && d.precision.Absent? ==> PieceText(Spec(d), args) == "<NULL>"))
  {
    hide FlagsOf, PieceText, StrText, AskedFor, Kinds;
    PieceParts(d, args);
    var (min, max, n) := AskedFor(d, args);
    assert HasKind(args[n..][0], KString) && args[n..][0] == args[n];
    var other := args[n := Text(Some("<NULL>"))];
    SameFields(d, args, other);
    if args[n].s.None? {
      PieceParts(d, other);
      NullStr(min, if d.precision.Bare? then -1 else max, FlagsOf(d.flags).minus);
    }
  }

  lemma NullStr(min: int, max: int, left: bool)
    ensures StrText(None, min, max, left) == StrText(Some("<NULL>"), min, max, left)
    ensures StrText(None, 0, -1, left) == "<NULL>"
  {
    hide Fill;
    var s := "<NULL>";
    assert s + "" == s == "" + s;
    assert StrText(Some(s), min, max, left) == StrText(None, min, max, left);
  }

  /** Another string as the value changes nothing in the fields. */
  lemma SameFields(d: Directive, args: seq<Arg>, other: seq<Arg>)
    requires d.conversion == Some('s') && Matches(Kinds(Spec(d)), args)
    requires var n := AskedFor(d, args).2;
      n < |args| == |other| && other[n].Text? && other == args[n := other[n]]
    ensures Matches(Kinds(Spec(d)), other) && AskedFor(d, other) == AskedFor(d, args)
    ensures d.width.Absent? ==> AskedFor(d, args).0 == 0
    ensures d.precision.Absent? ==> AskedFor(d, args).1 == -1
  {
    hide HasKind;
    KindsPlaced(d, args);
    var kinds, n := Kinds(Spec(d)), AskedFor(d, args).2;
    StringKind(other[n]);
    assert |kinds| == n + 1 && kinds[n] == KString;
    assert forall i :: 0 <= i < n ==> other[i] == args[i];
  }

  lemma StringKind(a: Arg)
    ensures HasKind(a, KString) <==> a.Text?
  {
  }

  // ---- Fields ----

  /** A precision cuts a string with its padding: what is printed is the beginning of what would be printed without it.
      Without a precision the string is whole, at the right of its field, or at the left with a minus. */
  lemma StrTextCut(value: Option<CString>, min: int, max: int, left: bool)
    ensures var all, text := StrText(value, min, -1, left), StrText(value, min, max, left);
      && (if 0 <= max < |all| then |text| == max && text <= all else text == all)
      && (value.Some? ==>
            && |all| == Max(min, |value.value|)
            && (if left then value.value <= all else value.value == all[|all| - |value.value|..]))
  {
    hide Fill;
  }

  /** The text of an integer in every case: with the zero flag, zeros fill the field even if there is a precision or a
      minus; without it, the text is the standard's; a negative width counts for nothing. */
  lemma IntTextExact(value: int, base: nat, min: int, max: int, f: Flags)
    requires 2 <= base <= 16
    ensures var digits, sign := DigitsText(StandardWord(value, f), base, f.upper), StandardSign(value, f);
      && var zeros: nat := Max(0, Max(max - |digits|, min - |sign| - Max(max, |digits|)));
      && (f.zero ==> IntText(value, base, min, max, f) == sign + seq(zeros, _ => '0') + digits)
      && (!f.zero && min >= 0 ==>
            IntText(value, base, min, max, f) ==
            StandardLayout(sign, seq(Max(max - |digits|, 0), _ => '0') + digits, min, max, f))
      && (min < 0 ==> IntText(value, base, min, max, f) == IntText(value, base, 0, max, f))
  {
    hide DigitsText, StandardWord, StandardSign, Magnitude, SignText, Fill;
    SameSign(value, f);
    DigitsChars(StandardWord(value, f), base, f.upper);
    var digits, sign := DigitsText(StandardWord(value, f), base, f.upper), StandardSign(value, f);
    var z := Padding(|digits|, |sign|, min, max, f.zero).0;
    assert Zeros(z) == seq(z, _ => '0');
    assert Zeros(Max(max - |digits|, 0)) == seq(Max(max - |digits|, 0), _ => '0');
    if f.zero {
      var body := sign + Zeros(z) + digits;
      assert body + "" == body && "" + body == body && Spaces(0) == "";
    } else if min >= 0 {
      SameLayout(sign, digits, min, max, f);
    }
  }

  // ---- Formats that no programmer should write ----

  /** A star overrides digits before it. */
  lemma StarOverrides(digits: string, rest: string)
    requires digits != "" && digits[0] != '0' && forall i :: 0 <= i < |digits| ==> IsDigit(digits[i])
    ensures Tokenize("%" + digits + "*" + rest) == Tokenize("%*" + rest)
    ensures Tokenize("%." + digits + "*" + rest) == Tokenize("%.*" + rest)
  {
    hide ParseFlags, ParseWidth, Tokenize;
    var s, t, u, v := digits + "*" + rest, "*" + rest, "." + digits + "*" + rest, ".*" + rest;
    assert "%" + digits + "*" + rest == "%" + s && "%*" + rest == "%" + t;
    assert "%." + digits + "*" + rest == "%" + u && "%.*" + rest == "%" + v;
    NoFlags(s);
    NoFlags(t);
    NoFlags(u);
    NoFlags(v);
    StarWidth(digits, rest);
    DotStar(digits, rest);
  }

  lemma StarWidth(digits: string, rest: string)
    requires forall i :: 0 <= i < |digits| ==> IsDigit(digits[i])
    ensures ParseWidth("", "", digits + "*" + rest) == ParseWidth("", "", "*" + rest)
  {
    hide ParseDot, ParseField;
    StarField(digits, rest);
    StarField("", rest);
    assert "" + "*" + rest == "*" + rest;
  }

  lemma StarField(digits: string, rest: string)
    requires forall i :: 0 <= i < |digits| ==> IsDigit(digits[i])
    ensures ParseField("", digits + "*" + rest) == (FromArgument, rest)
  {
    var s := digits + "*" + rest;
    SpanIs(s, IsDigit, |digits|);
    assert s[|digits| + 1..] == rest;
  }

  lemma NoFlags(s: string)
    requires s != "" && !IsFlag(s[0])
    ensures Tokenize("%" + s) == After(ParseWidth("", "", s))
  {
    hide ParseWidth;
    SpanIs(s, IsFlag, 0);
    assert "" + s[..0] == "" && s[0..] == s && ("%" + s)[1..] == s;
  }

  lemma DotStar(digits: string, rest: string)
    requires forall i :: 0 <= i < |digits| ==> IsDigit(digits[i])
    ensures ParseWidth("", "", "." + digits + "*" + rest) == ParseWidth("", "", ".*" + rest)
  {
    hide ParseModifier, Decimal;
    StarField(digits, rest);
    StarField("", rest);
    var s, t := "." + digits + "*" + rest, ".*" + rest;
    SpanIs(s, IsDigit, 0);
    SpanIs(t, IsDigit, 0);
    assert "" + s[..0] == "" && s[0..] == s && "" + t[..0] == "" && t[0..] == t;
    assert s[1..] == digits + "*" + rest && t[1..] == "" + "*" + rest;
  }

  /** The modifier q means the same as ll. */
  lemma QuadIsLongLong(rest: string)
    ensures Tokenize("%q" + rest) == Tokenize("%ll" + rest)
  {
    hide ParseField, ParseConversion, Tokenize;
    NoFlags("q" + rest);
    NoFlags("ll" + rest);
    NoField("q" + rest);
    NoField("ll" + rest);
    assert "%q" + rest == "%" + ("q" + rest) && "%ll" + rest == "%" + ("ll" + rest);
    assert ("q" + rest)[1..] == rest && ("ll" + rest)[2..] == rest;
  }

  lemma NoField(s: string)
    requires s != "" && !IsDigit(s[0]) && s[0] != '*'
    ensures ParseField("", s) == (Absent, s)
  {
    SpanIs(s, IsDigit, 0);
    assert "" + s[..0] == "" && s[0..] == s;
  }

  /** A format that ends inside a directive. */
  lemma CutOff(args: seq<Arg>)
    ensures Tokenize("%") == [Spec(Directive("", Absent, Absent, Plain, None))]
    ensures Callable(Tokenize("%"), args) && FormatText(Tokenize("%"), args) == ""
  {
    assert ("%")[1..] == "";
    assert Tokenize("") == [];
    assert ParseFlags("", "") == (Directive("", Absent, Absent, Plain, None), "");
    var p := Spec(Directive("", Absent, Absent, Plain, None));
    assert [p][1..] == [] && FormatText([], args[0..]) == "";
  }
}
