/** The printf engine: an eight-state machine over the format, feeding renderers that
    write one character at a time into a bounded buffer. */
module Printf {
  import opened CText
  import opened Numerals
  import opened PrintfSpec

  /** The buffer, its current length and its capacity, which every renderer passes along.
      `text` is what would have been written to an unbounded buffer. */
  class Sink {
    const buffer: array<char>
    const maxlen: nat
    var currlen: nat
    ghost var text: string

    ghost const initial: seq<char>

    /** The buffer holds the text as far as it fits; the rest is as it was at the start. */
    ghost predicate Valid()
      reads this, buffer
    {
      && maxlen <= buffer.Length == |initial|
      && currlen == Min(|text|, maxlen)
      && (forall i :: 0 <= i < currlen ==> buffer[i] == text[i])
      && (forall i :: currlen <= i < buffer.Length ==> buffer[i] == initial[i])
    }

    constructor (buffer: array<char>, maxlen: nat)
      requires maxlen <= buffer.Length
      ensures Valid() && text == "" && this.buffer == buffer && this.maxlen == maxlen && initial == buffer[..]
    {
      this.buffer, this.maxlen, currlen, text, initial := buffer, maxlen, 0, "", buffer[..];
    }

    /** dopr_outch. */
    method Outch(c: char)
      requires Valid()
      modifies this, buffer
      ensures Valid() && text == old(text) + [c]
    {
      if currlen < maxlen {
        buffer[currlen] := c;
        currlen := currlen + 1;
      }
      text := text + [c];
    }

    /** Emit `c` `n` times, but stop when the count reaches `max`. */
    method Repeat(c: char, n: int, count: nat, max: nat) returns (cnt: nat)
      requires Valid() && count <= max
      modifies this, buffer
      ensures cnt == count + Min(Max(n, 0), max - count)
      ensures Valid() && text == old(text) + Fill(c, cnt - count)
    {
      var left := n;
      cnt := count;
      while left > 0 && cnt < max
        invariant count <= cnt <= max && (n > 0 ==> 0 <= left == n - (cnt - count))
            && (n <= 0 ==> left == n && cnt == count)
        invariant Valid() && text == old(text) + Fill(c, cnt - count)
      {
        Outch(c);
        FillSnoc(c, cnt - count);
        left, cnt := left - 1, cnt + 1;
      }
    }

    /** Emit the characters of `s`, but stop when the count reaches `max`. */
    method Put(s: string, count: nat, max: nat) returns (cnt: nat)
      requires Valid() && count <= max
      modifies this, buffer
      ensures cnt == count + Min(|s|, max - count)
      ensures Valid() && text == old(text) + s[..cnt - count]
    {
      cnt := count;
      while cnt - count < |s| && cnt < max
        invariant count <= cnt <= max && cnt - count <= |s|
        invariant Valid() && text == old(text) + s[..cnt - count]
      {
        Outch(s[cnt - count]);
        cnt := cnt + 1;
      }
    }

    /** fmtstr. The count against `max` includes the padding; callers pass `max` >= 0. */
    method Fmtstr(value: Option<CString>, left: bool, min: int, max: nat)
      requires Valid()
      modifies this, buffer
      ensures Valid() && text == old(text) + StrText(value, min, max, left)
    {
      var s: CString := if value.Some? then value.value else "<NULL>";
      var padlen := Max(min - |s|, 0);
      if left { padlen := -padlen; }
      var k0 := Repeat(' ', padlen, 0, max);
      ghost var t1 := text;
      var k1 := Put(s, k0, max);
      ghost var t2 := text;
      var k2 := Repeat(' ', -padlen, k1, max);
      StrLayout(old(text), t1, t2, text, s, min, max, left, k0, k1, k2);
    }

    /** fmtint. */
    method Fmtint(value: int, base: nat, min: int, max: int, f: Flags)
      requires Valid() && base in {8, 10, 16}
      requires -LONG_MAX - 1 <= value <= LONG_MAX
      modifies this, buffer
      ensures Valid() && text == old(text) + IntText(value, base, min, max, f)
    {
      var limit := Max(max, 0);
      var uvalue: nat := value % WORD;
      var sign := "";
      if !f.unsigned {
        if value < 0 {
          sign, uvalue := "-", (-value) % WORD;
        } else if f.plus {
          sign := "+";
        } else if f.space {
          sign := " ";
        }
      }
      assert uvalue == Magnitude(value, f) && sign == SignText(value, f);
      var convert, place := Convert(uvalue, base, f.upper);
      ghost var digits := DigitsText(uvalue, base, f.upper);
      assert place == |digits|;
      var zpadlen := Max(limit - place, 0);
      var spadlen := Max(min - Max(limit, place) - |sign|, 0);
      if f.zero {
        zpadlen, spadlen := Max(zpadlen, spadlen), 0;
      }
      IntTextIs(value, base, min, max, f, sign, digits, zpadlen, spadlen);
      if f.minus { spadlen := -spadlen; }
      EmitNumber(spadlen, sign, zpadlen, convert, place, digits);
    }

    /** The output half of fmtint; a negative `spadlen` puts the spaces after the digits. */
    method EmitNumber(spadlen: int, sign: string, zpadlen: nat, convert: array<char>, place: nat, ghost digits: string)
      requires Valid() && |sign| <= 1 && convert != buffer && place <= convert.Length
      requires IsReversed(convert[..place], digits)
      modifies this, buffer
      ensures Valid()
      ensures text == old(text)
          + (Spaces(Max(spadlen, 0)) + (sign + Zeros(zpadlen) + digits) + Spaces(Max(-spadlen, 0)))
    {
      ghost var before, after := Spaces(Max(spadlen, 0)), Spaces(Max(-spadlen, 0));
      var _ := Repeat(' ', spadlen, 0, Max(spadlen, 0));
      ghost var t1 := text;
      if sign != "" { Outch(sign[0]); }
      ghost var t2 := text;
      var _ := Repeat('0', zpadlen, 0, zpadlen);
      ghost var t3 := text;
      PutDigits(convert, place, digits);
      ghost var t4 := text;
      var _ := Repeat(' ', -spadlen, 0, Max(-spadlen, 0));
      Layout(old(text), t1, t2, t3, t4, text, before, sign, Zeros(zpadlen), digits, after);
    }

    /** Emit the digits, most significant first. */
    method PutDigits(convert: array<char>, digitCount: nat, ghost digits: string)
      requires Valid() && convert != buffer && digitCount <= convert.Length
      requires IsReversed(convert[..digitCount], digits)
      modifies this, buffer
      ensures Valid() && text == old(text) + digits
    {
      var place := digitCount;
      while place > 0
        invariant 0 <= place <= digitCount
        invariant IsReversed(convert[..digitCount], digits)
        invariant Valid() && text == old(text) + digits[..digitCount - place]
      {
        place := place - 1;
        Outch(convert[place]);
      }
    }

    /** The digit loop: `convert` receives the digits from the least significant up. */
    static method Convert(u: nat, base: nat, upper: bool) returns (convert: array<char>, place: nat)
      requires 2 <= base <= 16
      ensures fresh(convert) && convert.Length == 20 && place < 20
      ensures IsReversed(convert[..place], DigitsText(u, base, upper))
    {
      hide Numeral, DigitChar, DigitsText;
      convert := new char[20];
      place := 0;
      var uvalue: nat := u;
      ghost var low := "";
      while true
        invariant 0 <= place == |low| < 20
        invariant IsReversed(convert[..place], low)
        invariant Numeral(u, base, upper) ==
            (if uvalue == 0 && place > 0 then "" else Numeral(uvalue, base, upper)) + low
        invariant place > 0 ==> uvalue != 0
        decreases 20 - place
      {
        NumeralStep(uvalue, base, upper);
        convert[place] := DigitChar(uvalue % base, upper);
        low := [convert[place]] + low;
        place := place + 1;
        uvalue := uvalue / base;
        if !(uvalue != 0 && place < 20) { break; }
      }
      AllDigits(u, base, upper, uvalue, low);
      if place == 20 {
        place := 19;
        assert convert[..19] == convert[..20][..19];
      }
      convert[place] := '\0';
    }
  }

  lemma FillPrefix(c: char, n: nat, k: nat)
    requires k <= n
    ensures Fill(c, n)[..k] == Fill(c, k)
  {
  }

  lemma LastDigits(high: string, low: string)
    requires |low| < DIGITS + 1 ==> high == ""
    requires |low| <= DIGITS + 1
    ensures (if |high + low| <= DIGITS then high + low else (high + low)[|high + low| - DIGITS..]) ==
            if |low| <= DIGITS then low else low[1..]
  {
  }

  /** When the digit loop has ended, either all digits are out or the last twenty are. */
  lemma AllDigits(u: nat, base: nat, upper: bool, uvalue: nat, low: string)
    requires 2 <= base <= 16 && |low| <= DIGITS + 1 && (uvalue != 0 ==> |low| == DIGITS + 1)
    requires Numeral(u, base, upper) == (if uvalue == 0 then "" else Numeral(uvalue, base, upper)) + low
    ensures DigitsText(u, base, upper) == if |low| <= DIGITS then low else low[1..]
  {
    hide Numeral;
    LastDigits(if uvalue == 0 then "" else Numeral(uvalue, base, upper), low);
  }

  ghost predicate IsReversed(a: string, b: string) {
    |a| == |b| && forall i :: 0 <= i < |a| ==> a[i] == b[|b| - 1 - i]
  }

  lemma Layout(t0: string, t1: string, t2: string, t3: string, t4: string, t5: string,
               before: string, sign: string, zeros: string, digits: string, after: string)
    requires t1 == t0 + before && t2 == t1 + sign && t3 == t2 + zeros && t4 == t3 + digits && t5 == t4 + after
    ensures t5 == t0 + (before + (sign + zeros + digits) + after)
  {
  }

  lemma IntTextIs(value: int, base: nat, min: int, max: int, f: Flags, sign: string, digits: string, zeros: nat,
      spaces: nat)
    requires 2 <= base <= 16
    requires sign == SignText(value, f) && digits == DigitsText(Magnitude(value, f), base, f.upper)
    requires (zeros, spaces) == Padding(|digits|, |sign|, min, max, f.zero)
    ensures IntText(value, base, min, max, f) ==
      Spaces(if f.minus then 0 else spaces) + (sign + Zeros(zeros) + digits) + Spaces(if f.minus then spaces else 0)
  {
  }

  /** Cutting a concatenation cuts its parts in turn. */
  lemma CutConcat(a: string, b: string, max: nat)
    ensures Cut(a + b, max) == a[..Min(|a|, max)] + b[..Min(|b|, max - Min(|a|, max))]
  {
  }

  lemma StrLayout(t0: string, t1: string, t2: string, t3: string, s: CString, min: int, max: nat, left: bool,
                  k0: nat, k1: nat, k2: nat)
    requires var pad := Max(min - |s|, 0);
      && k0 == Min(if left then 0 else pad, max)
      && k1 == k0 + Min(|s|, max - k0)
      && k2 == k1 + Min(if left then pad else 0, max - k1)
    requires t1 == t0 + Spaces(k0) && t2 == t1 + s[..k1 - k0] && t3 == t2 + Spaces(k2 - k1)
    ensures t3 == t0 + StrText(Some(s), min, max, left)
  {
    var pad := Max(min - |s|, 0);
    if left {
      CutConcat(s, Spaces(pad), max);
      FillPrefix(' ', pad, k2 - k1);
    } else {
      CutConcat(Spaces(pad), s, max);
      FillPrefix(' ', pad, k0);
    }
  }
}
