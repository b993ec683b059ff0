/** dopr and vsnprintf: the format machine, proved to write exactly the reference output
    of PrintfSpec, cut to the capacity of the buffer. */
module PrintfMachine {
  import opened CText
  import opened Numerals
  import opened PrintfSpec
  import opened Printf
  import PrintfLaws

  datatype State = Default | InFlags | InMin | InDot | InMax | InMod | InConv | Done {
    function Rank(): nat {
      match this
      case Default => 8
      case InFlags => 7
      case InMin => 6
      case InDot => 5
      case InMax => 4
      case InMod => 3
      case InConv => 2
      case Done => 0
    }
  }

  /** The local variables of dopr. The ghost fields name the parts of the directive read so far. */
  class Machine {
    const sink: Sink
    const format: CString
    const args: seq<Arg>
    ghost const goal: string
    var state: State
    var pos: nat
    var min: int
    var max: int
    var flags: Flags
    var cflags: Length
    var next: nat
    ghost var f: string
    ghost var w: Field
    ghost var p: Field
    ghost var pre: string
    ghost var base: nat
    ghost var pending: seq<Piece>

    /** The width, once read, and the arguments it took. */
    ghost predicate WidthRead()
      requires base <= |args|
      reads this
    {
      Matches(FieldKinds(w), args[base..]) && min == FieldValue(w, 0, args[base..])
    }

    ghost predicate PrecisionRead()
      requires base <= |args|
      reads this
    {
      var b := base + |FieldKinds(w)|;
      b <= |args| && Matches(FieldKinds(p), args[b..]) && max == FieldValue(p, -1, args[b..])
    }

    /** How the program variables relate to the parts of the directive. */
    ghost predicate Shape()
      reads this
    {
      && pos <= |format| && base <= next <= |args| && flags == FlagsOf(f)
      && match state
         case Default => f == "" && next == base && min == 0 && max == -1 && cflags == Plain
         case InFlags => next == base && min == 0 && max == -1 && cflags == Plain
         case InMin => next == base && min == Decimal(pre) && max == -1 && cflags == Plain
         case InDot => next == base + |FieldKinds(w)| && WidthRead() && max == -1 && cflags == Plain
         case InMax => next == base + |FieldKinds(w)| && WidthRead() && cflags == Plain
                       && max == if pre == "" then -1 else Decimal(pre)
         case InMod => next == base + |FieldKinds(w)| + |FieldKinds(p)| && WidthRead() && PrecisionRead()
             && cflags == Plain
         case InConv => next == base + |FieldKinds(w)| + |FieldKinds(p)| && WidthRead() && PrecisionRead()
         case Done => true
    }

    ghost predicate Reading()
      reads this
    {
      Shape() && pending == Pending(state, f, w, p, cflags, pre, format[pos..])
    }

    ghost predicate Inv()
      reads this, sink, sink.buffer
    {
      sink.Valid() && Reading() && OnTrack(goal, sink.text, sink.maxlen, pending, args[base..])
    }

    constructor (sink: Sink, format: CString, args: seq<Arg>)
      requires sink.Valid() && sink.text == "" && Callable(Tokenize(format), args)
      ensures Inv() && this.sink == sink && this.format == format && this.args == args
      ensures state == Default && pos == 0 && goal == FormatText(Tokenize(format), args)
    {
      this.sink, this.format, this.args := sink, format, args;
      state, pos, min, max, cflags, next := Default, 0, 0, -1, Plain, 0;
      flags := Flags(false, false, false, false, false, false, false);
      f, w, p, pre, base := "", Absent, Absent, "", 0;
      goal, pending := FormatText(Tokenize(format), args), Tokenize(format);
      new;
      assert format[0..] == format && args[0..] == args;
    }

    /** A step moves forward in the format or to a later state. */
    twostate predicate Progress()
      reads this
    {
      state != Done && (pos > old(pos) || (pos == old(pos) && state.Rank() < old(state.Rank())))
    }

    method StepDefault()
      requires Inv() && state == Default && pos < |format| && sink.currlen < sink.maxlen
      modifies this, sink, sink.buffer
      ensures Inv() && Progress()
    {
      hide ParseFlags, Callable, FormatText;
      var c := format[pos];
      ghost var s := format[pos..];
      assert s[1..] == format[pos + 1..];
      if c == '%' {
        state := InFlags;
      } else {
        EmitPiece(goal, sink.text, sink.maxlen, Literal(c), Tokenize(s[1..]), args[base..]);
        sink.Outch(c);
        pending := Tokenize(s[1..]);
        assert args[base..][0..] == args[base..];
      }
      pos := pos + 1;
    }

    method StepFlags()
      requires Reading() && state == InFlags && pos < |format|
      modifies `pos, `state, `flags, `f, `pre
      ensures Reading() && Progress()
    {
      hide Tokenize, After, ParseFlags, ParseWidth, ParseDot, ParsePrecision, ParseModifier, ParseConversion,
        ParseField, ParseLength, Span, ValueOf, Callable, FlagsOf, SetFlag, Machine.WidthRead, Machine.PrecisionRead,
        Matches;
      var c := format[pos];
      ghost var s := format[pos..];
      if IsFlag(c) {
        FlagStep(f, s);
        FlagsSnoc(f, c);
        flags := SetFlag(flags, c);
        f, pos := f + [c], pos + 1;
        assert s[1..] == format[pos..];
      } else {
        FlagEnd(f, s);
        state, pre := InMin, "";
      }
    }

    method StepMin()
      requires Reading() && state == InMin && pos < |format|
      requires Callable(pending, args[base..])
      modifies `pos, `state, `min, `next, `pre, `w
      ensures Reading() && Progress()
    {
      hide Tokenize, After, ParseFlags, ParseWidth, ParseDot, ParsePrecision, ParseModifier, ParseConversion,
        ParseField, ParseLength, Span, ValueOf, Callable, FlagsOf, Machine.PrecisionRead;
      var c := format[pos];
      ghost var s := format[pos..];
      assert s[1..] == format[pos + 1..];
      WidthStep(f, pre, s);
      if IsDigit(c) {
        min := 10 * min + DigitValue(c);
        pre, pos := pre + [c], pos + 1;
      } else if c == '*' {
        KindsOf(ParseWidth(f, pre, s), args[base..]);
        min := args[next].n;
        next, pos, state, w := next + 1, pos + 1, InDot, FromArgument;
      } else {
        state, w := InDot, if pre == "" then Absent else Fixed(Decimal(pre));
      }
    }

    method StepDot()
      requires Reading() && state == InDot && pos < |format|
      modifies `pos, `state, `pre, `p
      ensures Reading() && Progress()
    {
      hide Tokenize, After, ParseFlags, ParseWidth, ParsePrecision, ParseModifier, ParseConversion, ParseField,
        ParseLength, Span, ValueOf, Callable, FlagsOf;
      ghost var s := format[pos..];
      if format[pos] == '.' {
        state, pos, pre := InMax, pos + 1, "";
        assert s[1..] == format[pos..];
      } else {
        state, p := InMod, Absent;
      }
    }

    method StepMax()
      requires Reading() && state == InMax && pos < |format|
      requires Callable(pending, args[base..])
      modifies `pos, `state, `max, `next, `pre, `p
      ensures Reading() && Progress()
    {
      hide Tokenize, After, ParseFlags, ParseWidth, ParseDot, ParsePrecision, ParseModifier, ParseConversion,
        ParseField, ParseLength, Span, ValueOf, Callable, FlagsOf;
      var c := format[pos];
      ghost var s := format[pos..];
      assert s[1..] == format[pos + 1..];
      PrecisionStep(f, w, pre, s);
      if IsDigit(c) {
        if max < 0 { max := 0; }
        max := 10 * max + DigitValue(c);
        pre, pos := pre + [c], pos + 1;
      } else if c == '*' {
        StarPrecision();
      } else {
        state, p := InMod, if pre == "" then Bare else Fixed(Decimal(pre));
      }
    }

    /** A precision taken from the arguments. */
    method StarPrecision()
      requires Reading() && state == InMax && pos < |format| && format[pos] == '*'
      requires Callable(pending, args[base..])
      modifies `pos, `state, `max, `next, `p
      ensures Reading() && Progress()
    {
      hide Tokenize, After, ParseDot, ParsePrecision, ParsePrecisionField, ParseModifier, ParseConversion, ParseField,
        ParseLength, Span, ValueOf, Callable, FlagsOf, Matches, HasKind;
      ghost var s := format[pos..];
      assert s[1..] == format[pos + 1..];
      PrecisionStep(f, w, pre, s);
      StarTaken(f, w, pre, s, args, base);
      max := args[next].n;
      next, pos, state, p := next + 1, pos + 1, InMod, FromArgument;
    }

    method StepMod()
      requires Reading() && state == InMod && pos < |format|
      modifies `pos, `state, `cflags
      ensures Reading() && Progress()
    {
      hide Tokenize, After, ParseModifier, ParseConversion, FlagsOf, Matches, FieldValue;
      var c := format[pos];
      ghost var s := format[pos..];
      match c {
        case 'h' => cflags, pos := Short, pos + 1;
        case 'l' =>
          cflags, pos := Long, pos + 1;
          if CharAt(format, pos) == 'l' { cflags, pos := LongLong, pos + 1; }
        case 'q' => cflags, pos := LongLong, pos + 1;
        case 'L' => cflags, pos := LongDouble, pos + 1;
        case _ =>
      }
      state := InConv;
      ModifierStep(f, w, p, s, cflags, format[pos..]);
    }

    /** The conversion switch. A string without precision is limited to the capacity instead. */
    method Convert(c: char)
      requires sink.Valid() && next <= |args| && c !in "fnw"
      requires Matches(ConversionKinds(c, cflags), args[next..])
      modifies `flags, `max, `next, sink, sink.buffer
      ensures sink.Valid() && next == old(next) + |ConversionKinds(c, cflags)|
      ensures var limit := if c == 's' && old(max) < 0 then sink.maxlen else old(max);
        sink.text == old(sink.text) + ConversionText(c, cflags, old(flags), min, limit, args[old(next)..])
    {
      hide IntText, StrText;
      if ConversionKinds(c, cflags) != [] {
        var value := args[next];
        next := next + 1;
        if c in "di" {
          sink.Fmtint(ToLong(value.n), 10, min, max, flags);
        } else if c in "ouxX" {
          flags := flags.(unsigned := true, upper := flags.upper || c == 'X');
          sink.Fmtint(ToLong(value.n), if c == 'o' then 8 else if c == 'u' then 10 else 16, min, max, flags);
        } else if c == 'p' {
          sink.Fmtint(ToLong(value.n), 16, min, max, flags);
        } else if c == 'c' {
          sink.Outch((value.n % 256) as char);
        } else if c == 's' {
          if max < 0 { max := sink.maxlen; }
          sink.Fmtstr(value.s, flags.minus, min, max);
        }
      } else if c == '%' {
        sink.Outch(c);
      }
    }

    method StepConv()
      requires Inv() && state == InConv && pos < |format| && sink.currlen < sink.maxlen
      modifies this, sink, sink.buffer
      ensures Inv() && Progress()
    {
      hide Tokenize, FormatText, ConversionText, IntText, StrText, Callable, ParseConversion, OnTrack, Supported, Kinds;
      var c := format[pos];
      ghost var d := Directive(f, w, p, cflags, Some(c));
      ghost var limit := if c == 's' && max < 0 then sink.maxlen else max;
      assert format[pos..][1..] == format[pos + 1..];
      RoomLeft(goal, sink.text, sink.maxlen, pending, args[base..]);
      ReadyToConvert(d, format[pos..], args, base, next);
      EmitConversion(goal, sink.text, sink.maxlen, d, Tokenize(format[pos + 1..]), args, base, next, min, max, limit);
      ConvertAndReset(c);
    }

    /** The conversion, and everything cleared for the next directive. */
    method ConvertAndReset(c: char)
      requires sink.Valid() && pos < |format| && next <= |args| && c !in "fnw"
      requires Matches(ConversionKinds(c, cflags), args[next..]) && next + |ConversionKinds(c, cflags)| <= |args|
      requires var limit := if c == 's' && max < 0 then sink.maxlen else max;
        OnTrack(goal, sink.text + ConversionText(c, cflags, flags, min, limit, args[next..]), sink.maxlen,
                Tokenize(format[pos + 1..]), args[next + |ConversionKinds(c, cflags)|..])
      modifies this, sink, sink.buffer
      ensures Inv() && pos == old(pos) + 1 && state == Default
    {
      hide Tokenize, ConversionText, OnTrack, Matches, ConversionKinds, Reading;
      Convert(c);
      Reset();
    }

    /** Between directives all the directive's variables are clear. */
    method Reset()
      requires pos < |format| && next <= |args|
      modifies `pos, `state, `min, `max, `cflags, `flags, `f, `base, `pending
      ensures Reading() && pos == old(pos) + 1 && state == Default
      ensures base == next && pending == Tokenize(format[pos..])
    {
      hide Tokenize, Matches, FieldKinds, FlagsOf, Decimal, Machine.WidthRead, Machine.PrecisionRead;
      NoFlags();
      pos, state, min, max, cflags := pos + 1, Default, 0, -1, Plain;
      flags := Flags(false, false, false, false, false, false, false);
      f, base, pending := "", next, Tokenize(format[pos..]);
    }

    /** The whole text is written, or the buffer is full with its beginning. */
    ghost predicate Finished()
      reads this, sink, sink.buffer
    {
      sink.Valid() && (sink.text == goal || Full(goal, sink.text, sink.maxlen))
    }

    /** The state machine stops at the terminator or when the buffer is full. */
    method Stop()
      requires Inv() && state != Done && (pos == |format| || sink.currlen >= sink.maxlen)
      modifies `state
      ensures state == Done && Finished()
    {
      hide Pending, Tokenize, FormatText;
      if sink.currlen < sink.maxlen {
        assert format[pos..] == "";
        RoomLeft(goal, sink.text, sink.maxlen, pending, args[base..]);
        NothingPending(state, f, w, p, cflags, pre, args[base..]);
      }
      state := Done;
    }

    method Step()
      requires Inv() && state != Done && pos < |format| && sink.currlen < sink.maxlen
      modifies this, sink, sink.buffer
      ensures Inv() && Progress()
    {
      hide Pending, Tokenize, FormatText, Callable;
      match state {
        case Default => StepDefault();
        case InFlags => StepFlags();
        case InMin => StepMin();
        case InDot => StepDot();
        case InMax => StepMax();
        case InMod => StepMod();
        case InConv => StepConv();
      }
    }

    lemma InBounds()
      requires Inv()
      ensures pos <= |format|
    {
    }

    /** The loop of dopr. */
    method Run()
      requires Inv() && state != Done
      modifies this, sink, sink.buffer
      ensures Finished()
    {
      hide Inv, Finished;
      while state != Done
        invariant if state == Done then Finished() else Inv()
        decreases |format| - pos, state.Rank()
      {
        InBounds();
        if CharAt(format, pos) == '\0' || sink.currlen >= sink.maxlen {
          Stop();
        } else {
          Step();
        }
      }
    }
  }

  /** The pieces still to be rendered, seen from the middle of a directive. */
  ghost function Pending(state: State, f: string, w: Field, p: Field, l: Length, pre: string, s: string): seq<Piece> {
    match state
    case Default => Tokenize(s)
    case InFlags => After(ParseFlags(f, s))
    case InMin => After(ParseWidth(f, pre, s))
    case InDot => After(ParseDot(f, w, s))
    case InMax => After(ParsePrecision(f, w, pre, s))
    case InMod => After(ParseModifier(f, w, p, s))
    case InConv => After(ParseConversion(f, w, p, l, s))
    case Done => []
  }

  /** A full buffer holds the beginning of the goal. */
  ghost predicate Full(goal: string, text: string, maxlen: nat) {
    maxlen <= |text| && maxlen <= |goal| && goal[..maxlen] == text[..maxlen]
  }

  /** What is written, followed by what is pending, is the goal. */
  ghost predicate OnTrack(goal: string, text: string, maxlen: nat, pending: seq<Piece>, args: seq<Arg>) {
    Full(goal, text, maxlen) || (Callable(pending, args) && goal == text + FormatText(pending, args))
  }

  lemma ModifierStep(f: string, w: Field, p: Field, s: string, l: Length, rest: string)
    requires (l, rest) == ParseLength(s)
    ensures ParseModifier(f, w, p, s) == ParseConversion(f, w, p, l, rest)
  {
  }

  function SetFlag(flags: Flags, c: char): Flags {
    match c
    case '-' => flags.(minus := true)
    case '+' => flags.(plus := true)
    case ' ' => flags.(space := true)
    case '#' => flags.(alternate := true)
    case _ => flags.(zero := true)
  }

  lemma FlagsSnoc(f: string, c: char)
    requires IsFlag(c)
    ensures FlagsOf(f + [c]) == SetFlag(FlagsOf(f), c)
  {
  }

  lemma NoFlags()
    ensures FlagsOf("") == Flags(false, false, false, false, false, false, false)
  {
  }

  lemma FlagStep(f: string, s: string)
    requires s != "" && IsFlag(s[0])
    ensures ParseFlags(f, s) == ParseFlags(f + [s[0]], s[1..])
  {
    hide ParseWidth;
    var n := Span(s, IsFlag);
    assert n == 1 + Span(s[1..], IsFlag);
    assert f + s[..n] == f + [s[0]] + s[1..][..n - 1];
    assert s[n..] == s[1..][n - 1..];
  }

  lemma FlagEnd(f: string, s: string)
    requires s != "" && !IsFlag(s[0])
    ensures ParseFlags(f, s) == ParseWidth(f, "", s) && Decimal("") == 0
  {
    assert f + "" == f;
  }

  lemma FieldDigit(pre: string, s: string)
    requires s != "" && IsDigit(s[0])
    ensures ParseField(pre, s) == ParseField(pre + [s[0]], s[1..])
    ensures Decimal(pre + [s[0]]) == 10 * Decimal(pre) + DigitValue(s[0])
  {
    var n := Span(s, IsDigit);
    assert pre + s[..n] == pre + [s[0]] + s[1..][..n - 1];
    ValueOfSnoc(pre, s[0], 10);
  }

  lemma FieldStops(pre: string, s: string)
    requires s != "" && !IsDigit(s[0])
    ensures s[0] == '*' ==> ParseField(pre, s) == (FromArgument, s[1..])
    ensures s[0] != '*' ==> ParseField(pre, s) == (if pre == "" then Absent else Fixed(Decimal(pre)), s)
  {
    assert pre + "" == pre;
  }

  lemma WidthStep(f: string, pre: string, s: string)
    requires s != ""
    ensures Decimal("") == 0
    ensures if IsDigit(s[0]) then
              && ParseWidth(f, pre, s) == ParseWidth(f, pre + [s[0]], s[1..])
              && Decimal(pre + [s[0]]) == 10 * Decimal(pre) + DigitValue(s[0])
            else if s[0] == '*' then ParseWidth(f, pre, s) == ParseDot(f, FromArgument, s[1..])
            else ParseWidth(f, pre, s) == ParseDot(f, if pre == "" then Absent else Fixed(Decimal(pre)), s)
  {
    hide ParseDot, ParseField;
    if IsDigit(s[0]) { FieldDigit(pre, s); } else { FieldStops(pre, s); }
  }

  lemma PrecisionStep(f: string, w: Field, pre: string, s: string)
    requires s != ""
    ensures Decimal("") == 0
    ensures if IsDigit(s[0]) then
              && ParsePrecision(f, w, pre, s) == ParsePrecision(f, w, pre + [s[0]], s[1..])
              && Decimal(pre + [s[0]]) == 10 * Decimal(pre) + DigitValue(s[0])
            else if s[0] == '*' then ParsePrecision(f, w, pre, s) == ParseModifier(f, w, FromArgument, s[1..])
            else
              ParsePrecision(f, w, pre, s) == ParseModifier(f, w, if pre == "" then Bare else Fixed(Decimal(pre)), s)
  {
    hide ParseModifier, ParseField;
    if IsDigit(s[0]) { FieldDigit(pre, s); } else { FieldStops(pre, s); }
  }

  /** A callable directive has its width and precision arguments in place. */
  lemma KindsOf(r: (Directive, string), args: seq<Arg>)
    requires Callable(After(r), args)
    ensures var a := |FieldKinds(r.0.width)|;
      Matches(FieldKinds(r.0.width), args) && a <= |args| && Matches(FieldKinds(r.0.precision), args[a..])
  {
    var d := r.0;
    CallableHead(Spec(d), Tokenize(r.1), args);
    hide Callable, Tokenize, ConversionKinds, FieldKinds, HasKind, Matches;
    PrintfLaws.KindsPlaced(d, args);
  }

  /** A star in the precision finds its argument after that of the width. */
  lemma StarTaken(f: string, w: Field, pre: string, s: string, args: seq<Arg>, base: nat)
    requires s != "" && s[0] == '*' && base <= |args|
    requires Callable(After(ParsePrecision(f, w, pre, s)), args[base..])
    ensures var b := base + |FieldKinds(w)|;
      b < |args| && Matches(FieldKinds(FromArgument), args[b..]) && args[b].Number?
  {
    hide Tokenize, After, ParsePrecision, ParseModifier, ValueOf, Callable;
    PrecisionStep(f, w, pre, s);
    KindsOf(ParsePrecision(f, w, pre, s), args[base..]);
    var b := base + |FieldKinds(w)|;
    assert args[base..][b - base..] == args[b..];
    assert HasKind(args[b..][0], KInt);
  }

  lemma RoomLeft(goal: string, text: string, maxlen: nat, pending: seq<Piece>, args: seq<Arg>)
    requires OnTrack(goal, text, maxlen, pending, args) && |text| < maxlen
    ensures Callable(pending, args)
  {
  }

  lemma FullExtends(goal: string, text: string, maxlen: nat, more: string)
    requires Full(goal, text, maxlen)
    ensures Full(goal, text + more, maxlen)
  {
    assert (text + more)[..maxlen] == text[..maxlen];
  }

  /** Writing the text of the next piece keeps the output on track. */
  lemma EmitPiece(goal: string, text: string, maxlen: nat, p: Piece, rest: seq<Piece>, args: seq<Arg>)
    requires OnTrack(goal, text, maxlen, [p] + rest, args) && Matches(Kinds(p), args)
    ensures OnTrack(goal, text + PieceText(p, args), maxlen, rest, args[|Kinds(p)|..])
  {
    hide Kinds, PieceText;
    if Full(goal, text, maxlen) {
      FullExtends(goal, text, maxlen, PieceText(p, args));
    } else {
      assert ([p] + rest)[1..] == rest;
      var more, tail := PieceText(p, args), FormatText(rest, args[|Kinds(p)|..]);
      assert FormatText([p] + rest, args) == more + tail;
      assert text + (more + tail) == (text + more) + tail;
    }
  }

  /** The arguments of a complete directive, split between width, precision and value. */
  lemma ConversionReady(d: Directive, rest: seq<Piece>, args: seq<Arg>)
    requires Callable([Spec(d)] + rest, args) && d.conversion.Some?
    ensures var a := |FieldKinds(d.width)|; var b := a + |FieldKinds(d.precision)|;
      var c := ConversionKinds(d.conversion.value, d.length);
      && Supported(Spec(d)) && Matches(Kinds(Spec(d)), args)
      && |Kinds(Spec(d))| == b + |c| && b <= |args| && Matches(c, args[b..])
  {
    CallableHead(Spec(d), rest, args);
    hide Callable, ConversionKinds, FieldKinds, HasKind, Matches, Supported;
    PrintfLaws.KindsPlaced(d, args);
  }

  lemma CallableHead(p: Piece, rest: seq<Piece>, args: seq<Arg>)
    requires Callable([p] + rest, args)
    ensures Supported(p) && Matches(Kinds(p), args) && Callable(rest, args[|Kinds(p)|..])
  {
    assert ([p] + rest)[1..] == rest;
  }

  lemma ReadyToConvert(d: Directive, s: string, args: seq<Arg>, base: nat, next: nat)
    requires s != "" && d.conversion == Some(s[0]) && base <= next <= |args|
    requires Callable(After(ParseConversion(d.flags, d.width, d.precision, d.length, s)), args[base..])
    requires next == base + |FieldKinds(d.width)| + |FieldKinds(d.precision)|
    ensures After(ParseConversion(d.flags, d.width, d.precision, d.length, s)) == [Spec(d)] + Tokenize(s[1..])
    ensures s[0] !in "fnw" && Matches(ConversionKinds(s[0], d.length), args[next..])
    ensures Matches(Kinds(Spec(d)), args[base..])
    ensures |Kinds(Spec(d))| == next - base + |ConversionKinds(s[0], d.length)|
  {
    hide Tokenize, Callable;
    ConversionReady(d, Tokenize(s[1..]), args[base..]);
    assert args[base..][next - base..] == args[next..];
  }

  /** A string cut to the capacity of the buffer does as well as the whole string. */
  lemma EmitConversion(goal: string, text: string, maxlen: nat, d: Directive, rest: seq<Piece>, args: seq<Arg>,
                       base: nat, next: nat, min: int, max: int, limit: int)
    requires base <= next <= |args| && d.conversion.Some?
    requires OnTrack(goal, text, maxlen, [Spec(d)] + rest, args[base..])
    requires Matches(Kinds(Spec(d)), args[base..])
    requires var a := base + |FieldKinds(d.width)|;
      && next == a + |FieldKinds(d.precision)|
      && Matches(ConversionKinds(d.conversion.value, d.length), args[next..])
      && Matches(FieldKinds(d.width), args[base..]) && min == FieldValue(d.width, 0, args[base..])
      && Matches(FieldKinds(d.precision), args[a..]) && max == FieldValue(d.precision, -1, args[a..])
    requires limit == if d.conversion.value == 's' && max < 0 then maxlen else max
    ensures var k := next + |ConversionKinds(d.conversion.value, d.length)|;
      && k <= |args|
      && OnTrack(goal, text + ConversionText(d.conversion.value, d.length, FlagsOf(d.flags), min, limit, args[next..]),
                 maxlen, rest, args[k..])
  {
    hide OnTrack, IntText, FlagsOf, ConversionKinds, HasKind;
    var c, fl := d.conversion.value, FlagsOf(d.flags);
    var k := next + |ConversionKinds(c, d.length)|;
    var a := base + |FieldKinds(d.width)|;
    assert args[base..][a - base..] == args[a..];
    assert args[base..][next - base..] == args[next..];
    assert |Kinds(Spec(d))| == k - base;
    assert args[base..][k - base..] == args[k..];
    var whole := ConversionText(c, d.length, fl, min, max, args[next..]);
    EmitPiece(goal, text, maxlen, Spec(d), rest, args[base..]);
    assert PieceText(Spec(d), args[base..]) == whole;
    if limit != max {
      CutStillFull(goal, text, whole, maxlen, rest, args[k..]);
    }
  }

  lemma CutStillFull(goal: string, text: string, whole: string, maxlen: nat, rest: seq<Piece>, args: seq<Arg>)
    requires OnTrack(goal, text + whole, maxlen, rest, args)
    ensures OnTrack(goal, text + Cut(whole, maxlen), maxlen, rest, args)
  {
    if maxlen < |whole| {
      assert Full(goal, text + whole, maxlen);
      assert (text + whole[..maxlen])[..maxlen] == (text + whole)[..maxlen];
    }
  }

  /** At the end of the format nothing more is printed, whatever the state. */
  lemma NothingPending(state: State, f: string, w: Field, p: Field, l: Length, pre: string, args: seq<Arg>)
    requires Callable(Pending(state, f, w, p, l, pre, ""), args)
    ensures FormatText(Pending(state, f, w, p, l, pre, ""), args) == ""
  {
    var pieces := Pending(state, f, w, p, l, pre, "");
    if pieces != [] {
      assert pieces[1..] == Tokenize("") == [];
      assert pieces[0].d.conversion == None;
    }
  }

  /** dopr: the reference text cut to maxlen - 1 characters, a terminator, and nothing else written. */
  method Dopr(buffer: array<char>, maxlen: nat, format: CString, args: seq<Arg>)
    requires 1 <= maxlen <= buffer.Length && maxlen <= INT_MAX
    requires Callable(Tokenize(format), args)
    modifies buffer
    ensures var text := FormatText(Tokenize(format), args); var k := Min(|text|, maxlen - 1);
      buffer[..k] == text[..k] && buffer[k] == '\0'
          && buffer[Min(|text| + 1, maxlen)..] == old(buffer[Min(|text| + 1, maxlen)..])
  {
    hide Tokenize, FormatText, Callable, OnTrack, Machine.Reading, Machine.Shape, Pending;
    var sink := new Sink(buffer, maxlen);
    var machine := new Machine(sink, format, args);
    machine.Run();
    ghost var text := machine.goal;
    if sink.currlen < maxlen - 1 {
      buffer[sink.currlen] := '\0';
    } else {
      buffer[maxlen - 1] := '\0';
    }
  }

  /** What a caller of snprintf sees in a buffer of `n` places. */
  function Output(n: nat, format: CString, args: seq<Arg>): string
    requires n >= 1 && Callable(Tokenize(format), args)
  {
    var text := FormatText(Tokenize(format), args);
    text[..Min(|text|, n - 1)]
  }

  /** A smaller buffer shows a prefix of what a larger one shows, and the whole text exactly when
      there is room for it and its terminator. */
  lemma TruncationIsPrefix(n: nat, m: nat, format: CString, args: seq<Arg>)
    requires 1 <= n <= m && Callable(Tokenize(format), args)
    ensures Output(n, format, args) <= Output(m, format, args) <= FormatText(Tokenize(format), args)
    ensures Output(n, format, args) == FormatText(Tokenize(format), args) <==> |FormatText(Tokenize(format), args)| < n
  {
    hide Tokenize, FormatText, Callable;
  }

  predicate NotNul(c: char) { c != '\0' }

  /** vsnprintf returns strlen of the buffer, not the length of the full text. */
  method Vsnprintf(str: array<char>, count: nat, format: CString, args: seq<Arg>) returns (length: nat)
    requires 1 <= count <= str.Length && count <= INT_MAX
    requires Callable(Tokenize(format), args)
    modifies str
    ensures length == Span(Output(count, format, args), NotNul) < count
    ensures str[..length] == Output(count, format, args)[..length] && str[length] == '\0'
  {
    hide Tokenize, FormatText, Callable;
    str[0] := '\0';
    Dopr(str, count, format, args);
    ghost var out := Output(count, format, args);
    length := 0;
    while str[length] != '\0'
      invariant length <= |out| && forall i :: 0 <= i < length ==> str[i] != '\0'
      decreases |out| - length
    {
      length := length + 1;
    }
    SpanIs(out, NotNul, length);
  }

  /** The value returned is the length of the full text, as section 7.19.6.5 of the standard asks for, exactly when
      the text fits and no %c got a multiple of 256. */
  lemma LengthReturnedIff(count: nat, format: CString, args: seq<Arg>)
    requires count >= 1 && Callable(Tokenize(format), args)
    ensures var text := FormatText(Tokenize(format), args);
      Span(Output(count, format, args), NotNul) == |text| <==>
      |text| < count && !PrintfLaws.AsksNul(Tokenize(format), args)
  {
    hide Tokenize, FormatText, Callable, PrintfLaws.AsksNul;
    PrintfLaws.TextNulIff(format, args);
    var text := FormatText(Tokenize(format), args);
    var out := Output(count, format, args);
    if |text| < count && '\0' !in text {
      assert out == text;
      SpanIs(out, NotNul, |text|);
    }
    if Span(out, NotNul) == |text| {
      assert out == text;
      assert forall c :: c in text ==> NotNul(c);
    }
  }
}
