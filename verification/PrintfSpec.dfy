/** What a format string means: a tokenizer into literals and directives, and the text that
    each directive contributes.  Two phases, independent of any output buffer. */
module PrintfSpec {
  import opened CText
  import opened Numerals

  // ---- Phase one: pieces of a format string ----

  /** A field width or precision as written; a precision may be a dot and nothing else. */
  datatype Field = Absent | Bare | Fixed(n: nat) | FromArgument

  datatype Length = Plain | Short | Long | LongLong | LongDouble

  /** `conversion` is None when the format ends inside the directive. */
  datatype Directive = Directive(flags: string, width: Field, precision: Field, length: Length,
      conversion: Option<char>)

  datatype Piece = Literal(c: char) | Spec(d: Directive)

  predicate IsFlag(c: char) { c in "-+ #0" }

  function Decimal(digits: string): nat { ValueOf(digits, 10) }

  /** Digits, then optionally a star that overrides them. `pre` holds digits already read. */
  function ParseField(pre: string, s: string): (r: (Field, string))
    ensures |r.1| <= |s|
  {
    var n := Span(s, IsDigit);
    var digits := pre + s[..n];
    if n < |s| && s[n] == '*' then (FromArgument, s[n + 1..])
    else (if digits == "" then Absent else Fixed(Decimal(digits)), s[n..])
  }

  function ParseLength(s: string): (r: (Length, string))
    ensures |r.1| <= |s|
  {
    if s == "" then (Plain, s)
    else if s[0] == 'h' then (Short, s[1..])
    else if s[0] == 'l' then
      if |s| > 1 && s[1] == 'l' then (LongLong, s[2..]) else (Long, s[1..])
    else if s[0] == 'q' then (LongLong, s[1..])
    else if s[0] == 'L' then (LongDouble, s[1..])
    else (Plain, s)
  }

  // The stages of a directive, each starting from the parts already known.

  function ParseConversion(f: string, w: Field, p: Field, l: Length, s: string): (r: (Directive, string))
    ensures |r.1| <= |s| && r.0.flags == f && r.0.width == w && r.0.precision == p && r.0.length == l
    ensures s == "" ==> r.0.conversion == None
  {
    if s == "" then (Directive(f, w, p, l, None), s) else (Directive(f, w, p, l, Some(s[0])), s[1..])
  }

  function ParseModifier(f: string, w: Field, p: Field, s: string): (r: (Directive, string))
    ensures |r.1| <= |s| && r.0.flags == f && r.0.width == w && r.0.precision == p
    ensures s == "" ==> r.0.conversion == None
  {
    var (l, rest) := ParseLength(s);
    ParseConversion(f, w, p, l, rest)
  }

  /** The precision after its dot. */
  function ParsePrecisionField(pre: string, s: string): (r: (Field, string))
    ensures |r.1| <= |s|
  {
    var (p, rest) := ParseField(pre, s);
    (if p.Absent? then Bare else p, rest)
  }

  function ParsePrecision(f: string, w: Field, pre: string, s: string): (r: (Directive, string))
    ensures |r.1| <= |s| && r.0.flags == f && r.0.width == w
    ensures s == "" ==> r.0.conversion == None
  {
    var (p, rest) := ParsePrecisionField(pre, s);
    ParseModifier(f, w, p, rest)
  }

  function ParseDot(f: string, w: Field, s: string): (r: (Directive, string))
    ensures |r.1| <= |s| && r.0.flags == f && r.0.width == w
    ensures s == "" ==> r.0.conversion == None
  {
    if s != "" && s[0] == '.' then ParsePrecision(f, w, "", s[1..]) else ParseModifier(f, w, Absent, s)
  }

  function ParseWidth(f: string, pre: string, s: string): (r: (Directive, string))
    ensures |r.1| <= |s|
    ensures s == "" ==> r.0.conversion == None
  {
    var (w, rest) := ParseField(pre, s);
    ParseDot(f, w, rest)
  }

  function ParseFlags(f: string, s: string): (r: (Directive, string))
    ensures |r.1| <= |s|
    ensures s == "" ==> r.0.conversion == None
  {
    var n := Span(s, IsFlag);
    ParseWidth(f + s[..n], "", s[n..])
  }

  function Tokenize(s: string): seq<Piece>
    decreases |s|, 0
  {
    if s == "" then []
    else if s[0] == '%' then After(ParseFlags("", s[1..]))
    else [Literal(s[0])] + Tokenize(s[1..])
  }

  /** The directive just parsed, then the pieces of what follows it. */
  function After(r: (Directive, string)): seq<Piece>
    decreases |r.1|, 1
  {
    [Spec(r.0)] + Tokenize(r.1)
  }

  // ---- Phase two: the text of each piece ----

  /** Variadic arguments. A null string pointer is Text(None). */
  datatype Arg = Number(n: int) | Text(s: Option<CString>) | Real(r: real)

  datatype Kind = KInt | KUInt | KLong | KULong | KString | KDouble

  const INT_MAX: int := 0x7FFF_FFFF
  const WORD: int := 0x1_0000_0000_0000_0000
  const LONG_MAX: int := 0x7FFF_FFFF_FFFF_FFFF

  predicate HasKind(a: Arg, k: Kind) {
    match k
    case KInt => a.Number? && -INT_MAX - 1 <= a.n <= INT_MAX
    case KUInt => a.Number? && 0 <= a.n <= 2 * INT_MAX + 1
    case KLong => a.Number? && -LONG_MAX - 1 <= a.n <= LONG_MAX
    case KULong => a.Number? && 0 <= a.n < WORD
    case KString => a.Text?
    case KDouble => a.Real?
  }

  predicate Matches(kinds: seq<Kind>, args: seq<Arg>) {
    |kinds| <= |args| && forall i :: 0 <= i < |kinds| ==> HasKind(args[i], kinds[i])
  }

  function FieldKinds(f: Field): seq<Kind> {
    if f.FromArgument? then [KInt] else []
  }

  function ConversionKinds(c: char, l: Length): (r: seq<Kind>)
    ensures |r| <= 1
  {
    var long := l.Long? || l.LongLong?;
    if c in "di" then [if long then KLong else KInt]
    else if c in "ouxX" then [if long then KULong else KUInt]
    else if c in "eEgG" then [KDouble]
    else if c == 'c' then [KInt]
    else if c == 's' then [KString]
    else if c == 'p' then [KULong]
    else []
  }

  /** The arguments one directive consumes, in order: width, precision, value. */
  function Kinds(p: Piece): seq<Kind> {
    match p
    case Literal(_) => []
    case Spec(d) =>
      FieldKinds(d.width) + FieldKinds(d.precision)
      + if d.conversion.Some? then ConversionKinds(d.conversion.value, d.length) else []
  }

  /** Floating point, %n and the unfinished %w are outside the model. */
  predicate Supported(p: Piece) {
    p.Spec? && p.d.conversion.Some? ==> p.d.conversion.value !in "fnw"
  }

  /** The caller supplied what the format asks for. */
  predicate Callable(pieces: seq<Piece>, args: seq<Arg>) {
    pieces == [] ||
    (Supported(pieces[0]) && Matches(Kinds(pieces[0]), args) && Callable(pieces[1..], args[|Kinds(pieces[0])|..]))
  }

  datatype Flags = Flags(minus: bool, plus: bool, space: bool, alternate: bool, zero: bool, upper: bool, unsigned: bool)

  function FlagsOf(f: string): Flags {
    Flags('-' in f, '+' in f, ' ' in f, '#' in f, '0' in f, false, false)
  }

  /** Conversion of an unsigned 64-bit value to `long`. */
  function ToLong(n: int): (r: int)
    ensures -LONG_MAX - 1 <= r <= LONG_MAX
  {
    (n + LONG_MAX + 1) % WORD - LONG_MAX - 1
  }

  function Spaces(n: nat): string { Fill(' ', n) }

  const DIGITS: nat := 19

  function SignText(value: int, f: Flags): string {
    if f.unsigned then ""
    else if value < 0 then "-"
    else if f.plus then "+"
    else if f.space then " "
    else ""
  }

  /** The unsigned word whose digits are printed. */
  function Magnitude(value: int, f: Flags): (u: nat)
    ensures u < WORD
  {
    (if !f.unsigned && value < 0 then -value else value) % WORD
  }

  /** The numeral, cut to its last 19 digits: the conversion buffer holds no more. */
  function DigitsText(u: nat, base: nat, upper: bool): string
    requires 2 <= base <= 16
  {
    var t := Numeral(u, base, upper);
    if |t| <= DIGITS then t else t[|t| - DIGITS..]
  }

  /** Zero and space padding around a sign and `digits` digits. */
  function Padding(digits: nat, sign: nat, min: int, max: int, zero: bool): (nat, nat) {
    var zeros := Max(Max(max, 0) - digits, 0);
    var spaces := Max(min - Max(Max(max, 0), digits) - sign, 0);
    if zero then (Max(zeros, spaces), 0) else (zeros, spaces)
  }

  /** Sign and digits laid out in a field. */
  function NumberText(sign: string, digits: string, min: int, max: int, f: Flags): string {
    var (zeros, spaces) := Padding(|digits|, |sign|, min, max, f.zero);
    var body := sign + Zeros(zeros) + digits;
    if f.minus then body + Spaces(spaces) else Spaces(spaces) + body
  }

  function IntText(value: int, base: nat, min: int, max: int, f: Flags): string
    requires 2 <= base <= 16
  {
    NumberText(SignText(value, f), DigitsText(Magnitude(value, f), base, f.upper), min, max, f)
  }

  function Cut(s: string, max: int): string {
    if 0 <= max < |s| then s[..max] else s
  }

  /** A negative `max` means no limit; the limit counts the padding too. */
  function StrText(value: Option<CString>, min: int, max: int, left: bool): string {
    var s := if value.Some? then value.value else "<NULL>";
    var pad := Spaces(Max(min - |s|, 0));
    Cut(if left then s + pad else pad + s, max)
  }

  function FieldValue(f: Field, default: int, args: seq<Arg>): int
    requires Matches(FieldKinds(f), args)
  {
    match f
    case Absent => default
    case Bare => default
    case Fixed(n) => n
    case FromArgument => args[0].n
  }

  function ConversionText(c: char, l: Length, f: Flags, min: int, max: int, args: seq<Arg>): string
    requires Matches(ConversionKinds(c, l), args)
  {
    if c in "di" then IntText(ToLong(args[0].n), 10, min, max, f)
    else if c == 'o' then IntText(ToLong(args[0].n), 8, min, max, f.(unsigned := true))
    else if c == 'u' then IntText(ToLong(args[0].n), 10, min, max, f.(unsigned := true))
    else if c == 'x' then IntText(ToLong(args[0].n), 16, min, max, f.(unsigned := true))
    else if c == 'X' then IntText(ToLong(args[0].n), 16, min, max, f.(unsigned := true, upper := true))
    else if c == 'p' then IntText(ToLong(args[0].n), 16, min, max, f)
    else if c == 'c' then [(args[0].n % 256) as char]
    else if c == 's' then StrText(args[0].s, min, max, f.minus)
    else if c == '%' then "%"
    else ""
  }

  function PieceText(p: Piece, args: seq<Arg>): string
    requires Matches(Kinds(p), args)
  {
    match p
    case Literal(c) => [c]
    case Spec(d) =>
      if d.conversion.None? then ""
      else
        var a := |FieldKinds(d.width)|;
        var b := a + |FieldKinds(d.precision)|;
        ConversionText(d.conversion.value, d.length, FlagsOf(d.flags),
                       FieldValue(d.width, 0, args), FieldValue(d.precision, -1, args[a..]), args[b..])
  }

  /** The whole output: every piece rendered with its share of the arguments. */
  function FormatText(pieces: seq<Piece>, args: seq<Arg>): string
    requires Callable(pieces, args)
  {
    if pieces == [] then ""
    else PieceText(pieces[0], args) + FormatText(pieces[1..], args[|Kinds(pieces[0])|..])
  }
}
