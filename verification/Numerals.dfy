/** Numerals as character strings: positional notation in any base up to sixteen,
    shared by the printf engine and by the text file formats. */
module Numerals {

  function Min(a: int, b: int): int { if a < b then a else b }

  function Max(a: int, b: int): int { if a < b then b else a }

  function DigitChar(d: nat, upper: bool): char
    requires d < 16
  {
    if d < 10 then ('0' as int + d) as char
    else if upper then ('A' as int + (d - 10)) as char
    else ('a' as int + (d - 10)) as char
  }

  function DigitValue(c: char): nat {
    if '0' <= c <= '9' then c as int - '0' as int
    else if 'a' <= c <= 'f' then c as int - 'a' as int + 10
    else if 'A' <= c <= 'F' then c as int - 'A' as int + 10
    else 0
  }

  predicate IsDigit(c: char) { '0' <= c <= '9' }

  lemma DigitRoundTrip(d: nat, upper: bool)
    requires d < 16
    ensures DigitValue(DigitChar(d, upper)) == d
    ensures d < 10 ==> IsDigit(DigitChar(d, upper))
    ensures DigitChar(d, upper) !in "+- xX\0"
  {
  }

  /** Digit `d` is place `d` of the sixteen digits, letters in the case asked for. */
  lemma DigitIs(d: nat, upper: bool)
    requires d < 16
    ensures DigitChar(d, upper) == (if upper then "0123456789ABCDEF" else "0123456789abcdef")[d]
  {
  }

  /** The shortest numeral of `n`: no leading zero except for zero itself. */
  function Numeral(n: nat, base: nat, upper: bool): (s: string)
    requires 2 <= base <= 16
    ensures |s| >= 1
  {
    if n < base then [DigitChar(n, upper)]
    else Numeral(n / base, base, upper) + [DigitChar(n % base, upper)]
  }

  function ValueOf(s: string, base: nat): nat {
    if s == "" then 0 else ValueOf(s[..|s| - 1], base) * base + DigitValue(s[|s| - 1])
  }

  function Power(b: nat, e: nat): nat {
    if e == 0 then 1 else b * Power(b, e - 1)
  }

  function Fill(c: char, n: nat): (s: string)
    ensures |s| == n && forall i :: 0 <= i < n ==> s[i] == c
  {
    if n == 0 then "" else [c] + Fill(c, n - 1)
  }

  function Zeros(n: nat): string { Fill('0', n) }

  lemma FillSnoc(c: char, n: nat)
    ensures Fill(c, n + 1) == Fill(c, n) + [c]
  {
  }

  lemma ValueOfSnoc(s: string, c: char, base: nat)
    ensures ValueOf(s + [c], base) == ValueOf(s, base) * base + DigitValue(c)
  {
    assert (s + [c])[..|s|] == s;
  }

  lemma QuotientSmaller(n: nat, d: nat)
    requires n > 0 && d >= 2
    ensures 0 <= n / d < n
  {
  }

  /** The digit loop's step: the last digit, and the numeral of what is left if anything is. */
  lemma NumeralStep(n: nat, base: nat, upper: bool)
    requires 2 <= base <= 16
    ensures Numeral(n, base, upper) ==
            (if n / base == 0 then "" else Numeral(n / base, base, upper)) + [DigitChar(n % base, upper)]
    ensures 0 <= n / base
  {
    DivMod(n, base);
    QuotientZero(n, base);
  }

  lemma QuotientZero(n: nat, d: nat)
    requires d >= 1
    ensures 0 <= n / d && (n / d == 0 <==> n < d)
    ensures n < d ==> n % d == n
  {
  }

  lemma DivMod(n: nat, d: nat)
    requires d >= 1
    ensures n == n / d * d + n % d
  {
  }

  lemma {:induction false} NumeralDenotes(n: nat, base: nat, upper: bool)
    requires 2 <= base <= 16
    ensures ValueOf(Numeral(n, base, upper), base) == n
  {
    var q, r := n / base, n % base;
    DivMod(n, base);
    QuotientZero(n, base);
    NumeralStep(n, base, upper);
    DigitRoundTrip(r, upper);
    hide Numeral, DigitChar, DigitValue;
    var hi := if q == 0 then "" else Numeral(q, base, upper);
    ValueOfSnoc(hi, DigitChar(r, upper), base);
    assert ValueOf("", base) == 0;
    hide ValueOf;
    if q > 0 {
      QuotientSmaller(n, base);
      NumeralDenotes(q, base, upper);
    }
  }

  /** A numeral never contains a sign, a space, an x or a NUL, and in base ten or less only decimal digits. */
  lemma {:induction false} NumeralChars(n: nat, base: nat, upper: bool)
    requires 2 <= base <= 16
    ensures forall i :: 0 <= i < |Numeral(n, base, upper)| ==>
              Numeral(n, base, upper)[i] !in "+- xX\0" && (base <= 10 ==> IsDigit(Numeral(n, base, upper)[i]))
  {
    if n < base {
      DigitRoundTrip(n, upper);
    } else {
      NumeralChars(n / base, base, upper);
      DigitRoundTrip(n % base, upper);
    }
  }

  /** Its characters are the sixteen digits, letters in the case asked for. */
  lemma {:induction false} NumeralCase(n: nat, base: nat, upper: bool)
    requires 2 <= base <= 16
    ensures forall c :: c in Numeral(n, base, upper) ==> c in (if upper then "0123456789ABCDEF" else "0123456789abcdef")
  {
    NumeralStep(n, base, upper);
    DigitIs(n % base, upper);
    if n / base > 0 {
      QuotientSmaller(n, base);
      NumeralCase(n / base, base, upper);
    }
  }

  /** Positional notation: the digits after a cut weigh less by the power of their number. */
  lemma {:induction false} ValueOfConcat(a: string, b: string, base: nat)
    ensures ValueOf(a + b, base) == ValueOf(a, base) * Power(base, |b|) + ValueOf(b, base)
    ensures |b| == 1 ==> ValueOf(b, base) == DigitValue(b[0])
    decreases |b|
  {
    if b == "" {
      assert a + b == a;
    } else {
      var n := |b| - 1;
      assert a + b == (a + b[..n]) + [b[n]];
      ValueOfSnoc(a + b[..n], b[n], base);
      ValueOfConcat(a, b[..n], base);
      var x, y, p := ValueOf(a, base), ValueOf(b[..n], base), Power(base, n);
      assert (x * p + y) * base == x * (base * p) + y * base by { Weigh(x, y, p, base); }
    }
  }

  lemma Weigh(x: int, y: int, p: int, base: int)
    ensures (x * p + y) * base == x * (base * p) + y * base
  {
    assert x * p * base == x * (base * p);
  }

  lemma {:induction false} NumeralHead(n: nat, base: nat, upper: bool)
    requires 2 <= base <= 16 && n > 0
    ensures Numeral(n, base, upper)[0] != '0'
  {
    NumeralStep(n, base, upper);
    if n / base > 0 {
      QuotientSmaller(n, base);
      NumeralHead(n / base, base, upper);
    }
  }

  lemma PowerPositive(b: nat, e: nat)
    requires b > 0
    ensures Power(b, e) > 0
  {
    if e > 0 { PowerPositive(b, e - 1); }
  }

  lemma PowerStep(b: nat, e: nat)
    requires e >= 1
    ensures Power(b, e) == b * Power(b, e - 1)
  {
  }

  /** `n` has at most `k` digits exactly when it is below base to the `k`. */
  lemma {:induction false} NumeralLength(n: nat, base: nat, upper: bool, k: nat)
    requires 2 <= base <= 16 && k >= 1
    ensures |Numeral(n, base, upper)| <= k <==> n < Power(base, k)
    decreases k
  {
    var p := Power(base, k - 1);
    assert Power(base, k) == base * p;
    PowerPositive(base, k - 1);
    MulAtLeast(base, p);
    if n >= base {
      var q := n / base;
      DivBelow(n, base, p);
      if k > 1 {
        NumeralLength(q, base, upper, k - 1);
        LongNumeral(n, base, upper, k, p);
      }
    }
  }

  lemma LongNumeral(n: nat, base: nat, upper: bool, k: nat, p: nat)
    requires 2 <= base <= 16 && k > 1 && n >= base
    requires |Numeral(n / base, base, upper)| <= k - 1 <==> n / base < p
    ensures |Numeral(n, base, upper)| <= k <==> n / base < p
  {
  }

  lemma MulAtLeast(a: nat, b: nat)
    requires b >= 1
    ensures a * b >= a
  {
    assert a * b == a + a * (b - 1);
  }

  lemma DivBelow(n: nat, base: nat, p: nat)
    requires base >= 1
    ensures n / base < p <==> n < base * p
  {
    var q := n / base;
    DivMod(n, base);
    MulDistribute(base, q, 1);
    if q < p {
      MulMonotone(base, q + 1, p);
    } else {
      MulMonotone(base, p, q);
    }
  }

  lemma MulMonotone(a: nat, x: nat, y: nat)
    requires x <= y
    ensures a * x <= a * y
  {
    assert a * y == a * x + a * (y - x);
  }

  /** The last `k` digits of a longer numeral denote the number modulo base to the `k`. */
  lemma {:induction false} LowDigitsDenote(n: nat, base: nat, upper: bool, k: nat)
    requires 2 <= base <= 16 && k < |Numeral(n, base, upper)|
    ensures Power(base, k) > 0
    ensures var t := Numeral(n, base, upper); ValueOf(t[|t| - k..], base) == n % Power(base, k)
    decreases k
  {
    PowerPositive(base, k);
    if k == 0 {
      assert Numeral(n, base, upper)[|Numeral(n, base, upper)|..] == "";
    } else {
      LastDigitStep(n, base, upper, k);
      LowDigitsDenote(n / base, base, upper, k - 1);
      PowerStep(base, k);
      hide Power, ValueOf, Numeral;
      ModSplit(n, base, Power(base, k - 1));
    }
  }

  lemma LastDigitStep(n: nat, base: nat, upper: bool, k: nat)
    requires 2 <= base <= 16 && 1 <= k < |Numeral(n, base, upper)|
    ensures n / base >= 0 && k - 1 < |Numeral(n / base, base, upper)|
    ensures var t, hi := Numeral(n, base, upper), Numeral(n / base, base, upper);
      ValueOf(t[|t| - k..], base) == ValueOf(hi[|hi| - (k - 1)..], base) * base + n % base
  {
    hide ValueOf;
    QuotientZero(n, base);
    NumeralStep(n, base, upper);
    DigitRoundTrip(n % base, upper);
    hide Numeral, DigitChar, DigitValue;
    var t, hi, c := Numeral(n, base, upper), Numeral(n / base, base, upper), DigitChar(n % base, upper);
    assert t[|t| - k..] == hi[|hi| - (k - 1)..] + [c];
    ValueOfSnoc(hi[|hi| - (k - 1)..], c, base);
  }

  lemma ModSplit(n: nat, base: nat, p: nat)
    requires base >= 1 && p >= 1
    ensures base * p >= 1
    ensures n % (base * p) == (n / base % p) * base + n % base
  {
    MulAtLeast(base, p);
    var q, m := n / base, n % base;
    var h, l := q / p, q % p;
    DivMod(n, base);
    DivMod(q, p);
    ModSplitParts(n, base, p, h, l, m);
    MulMonotone(base, l + 1, p);
    MulDistribute(base, l, 1);
    ModUnique(n, base * p, h, l * base + m);
  }

  lemma ModSplitParts(n: int, base: int, p: int, h: int, l: int, m: int)
    requires n == (h * p + l) * base + m
    ensures n == (base * p) * h + (l * base + m)
  {
    assert (h * p + l) * base == (h * p) * base + l * base;
    assert (h * p) * base == (base * p) * h;
  }

  lemma MulDistribute(a: int, x: int, y: int)
    ensures a * (x + y) == a * x + a * y
  {
  }

  lemma ModUnique(n: nat, d: nat, q: nat, r: nat)
    requires d >= 1 && n == d * q + r && r < d
    ensures n % d == r
  {
    var e := n / d;
    DivMod(n, d);
    MulDistribute(d, e, 1);
    MulDistribute(d, q, 1);
    if q > e {
      MulMonotone(d, e + 1, q);
    } else if q < e {
      MulMonotone(d, q + 1, e);
    }
  }

  /** Zeros written before a numeral do not change its value. */
  lemma {:induction false} LeadingZeros(s: string, n: nat, base: nat)
    ensures ValueOf(Zeros(n) + s, base) == ValueOf(s, base)
    decreases |s|, n
  {
    if s != "" {
      LeadingZeros(s[..|s| - 1], n, base);
      assert Zeros(n) + s == (Zeros(n) + s[..|s| - 1]) + [s[|s| - 1]];
      ValueOfSnoc(Zeros(n) + s[..|s| - 1], s[|s| - 1], base);
    } else if n > 0 {
      LeadingZeros("", n - 1, base);
      FillSnoc('0', n - 1);
      assert Zeros(n) + "" == (Zeros(n - 1) + "") + ['0'];
      ValueOfSnoc(Zeros(n - 1) + "", '0', base);
    }
  }
}
