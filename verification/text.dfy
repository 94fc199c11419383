/**
 Number-to-text conversions the disassembler relies on: Python's `d` and `X`
 format specifications (decimal and upper-case hexadecimal, optionally
 zero-padded to a minimum width), each paired with a parser that reads the
 digits back.
 */
module Text {

  /** A digit of `base` in upper case, as Python prints it. */
  predicate IsDigit(c: char, base: nat)
    requires 2 <= base <= 16
  {
    ('0' <= c <= '9' && (c as int - '0' as int) < base)
    || ('A' <= c <= 'F' && (c as int - 'A' as int) + 10 < base)
  }

  predicate AllDigits(s: string, base: nat)
    requires 2 <= base <= 16
  {
    forall i | 0 <= i < |s| :: IsDigit(s[i], base)
  }

  function DigitChar(d: nat): (c: char)
    requires d < 16
    ensures ('0' <= c <= '9') || ('A' <= c <= 'F')
    ensures forall base | d < base <= 16 && 2 <= base :: IsDigit(c, base)
    ensures DigitValue(c) == d
  {
    if d < 10 then ('0' as int + d) as char else ('A' as int + d - 10) as char
  }

  function DigitValue(c: char): (d: nat)
    requires ('0' <= c <= '9') || ('A' <= c <= 'F')
    ensures d < 16
  {
    if c <= '9' then c as int - '0' as int else c as int - 'A' as int + 10
  }

  /** The digits of `n` in `base`, most significant first, without leading zeros ("0" for zero). */
  function Digits(n: nat, base: nat): (s: string)
    requires 2 <= base <= 16
    ensures 1 <= |s|
    ensures AllDigits(s, base)
    ensures s[0] == '0' <==> n == 0
    decreases n
  {
    if n < base then [DigitChar(n)]
    else
      DivisionFacts(n, base);
      Digits(n / base, base) + [DigitChar(n % base)]
  }

  lemma DivisionFacts(n: nat, base: nat)
    requires 2 <= base <= n
    ensures 1 <= n / base < n
    ensures n % base < base
    ensures n == (n / base) * base + n % base
  {
  }

  lemma QuotientBound(n: nat, base: nat, p: nat)
    requires 2 <= base
    requires n < base * p
    ensures n / base < p
  {
  }

  /** The number a digit string denotes in `base`; the partner of `Digits`. */
  function Value(s: string, base: nat): nat
    requires 2 <= base <= 16
    requires AllDigits(s, base)
  {
    if s == [] then 0 else Value(s[..|s| - 1], base) * base + DigitValue(s[|s| - 1])
  }

  lemma {:induction false} DigitsRoundTrip(n: nat, base: nat)
    requires 2 <= base <= 16
    ensures Value(Digits(n, base), base) == n
    decreases n
  {
    if n >= base {
      var q, d := n / base, n % base;
      DivisionFacts(n, base);
      var s := Digits(n, base);
      assert s == Digits(q, base) + [DigitChar(d)];
      assert s[..|s| - 1] == Digits(q, base);
      DigitsRoundTrip(q, base);
      var v := Value(s[..|s| - 1], base);
      assert v == q;
      assert Value(s, base) == v * base + d;
    }
  }

  /** `Digits` never needs more than `k` places for a value below `base^k`. */
  lemma {:induction false} DigitsLength(n: nat, base: nat, k: nat)
    requires 2 <= base <= 16
    requires k >= 1
    requires n < Power(base, k)
    ensures |Digits(n, base)| <= k
    decreases k
  {
    if n >= base {
      QuotientBound(n, base, Power(base, k - 1));
      DigitsLength(n / base, base, k - 1);
    }
  }

  function Power(base: nat, k: nat): (r: nat)
    requires base >= 1
    ensures r >= 1
  {
    if k == 0 then 1 else base * Power(base, k - 1)
  }

  function Repeat(c: char, n: nat): (s: string)
    ensures |s| == n
    ensures forall i | 0 <= i < n :: s[i] == c
  {
    if n == 0 then [] else [c] + Repeat(c, n - 1)
  }

  /** Left-pads `s` with zeros to `width` characters; a longer `s` is kept whole. */
  function ZeroPad(s: string, width: nat): (r: string)
    ensures |r| == if |s| < width then width else |s|
    ensures r[|r| - |s|..] == s
    ensures forall i | 0 <= i < |r| - |s| :: r[i] == '0'
  {
    if |s| < width then Repeat('0', width - |s|) + s else s
  }

  lemma {:induction false} LeadingZerosValue(z: nat, s: string, base: nat)
    requires 2 <= base <= 16
    requires AllDigits(s, base)
    ensures AllDigits(Repeat('0', z) + s, base)
    ensures Value(Repeat('0', z) + s, base) == Value(s, base)
    decreases |s|
  {
    var t := Repeat('0', z) + s;
    if s == [] {
      assert t == Repeat('0', z);
      ZerosValue(z, base);
    } else {
      var s' := s[..|s| - 1];
      assert t[..|t| - 1] == Repeat('0', z) + s';
      LeadingZerosValue(z, s', base);
    }
  }

  lemma {:induction false} ZerosValue(z: nat, base: nat)
    requires 2 <= base <= 16
    ensures AllDigits(Repeat('0', z), base)
    ensures Value(Repeat('0', z), base) == 0
    decreases z
  {
    if z > 0 {
      var s := Repeat('0', z);
      assert s[..z - 1] == Repeat('0', z - 1);
      ZerosValue(z - 1, base);
    }
  }

  lemma ZeroPadValue(s: string, width: nat, base: nat)
    requires 2 <= base <= 16
    requires AllDigits(s, base)
    ensures AllDigits(ZeroPad(s, width), base)
    ensures Value(ZeroPad(s, width), base) == Value(s, base)
  {
    if |s| < width {
      LeadingZerosValue(width - |s|, s, base);
    }
  }

  /** Python's `format(n, 'd')`. */
  function Decimal(n: nat): string
  {
    Digits(n, 10)
  }

  /**
   Python's `format(v, '0<width>X')`, or `format(v, 'X')` when `width` is 0: the
   upper-case hexadecimal digits of |v|, a '-' in front when v is negative, and
   zeros between the sign and the digits up to `width` characters in all.
   */
  function FormatHex(v: int, width: nat): (r: string)
    ensures v >= 0 ==> |r| >= width && AllDigits(r, 16) && Value(r, 16) == v
    ensures v < 0 ==> |r| >= 2 && r[0] == '-' && AllDigits(r[1..], 16) && Value(r[1..], 16) == -v
    ensures |r| >= width
  {
    if v >= 0 then
      ZeroPadValue(Digits(v, 16), width, 16);
      DigitsRoundTrip(v, 16);
      ZeroPad(Digits(v, 16), width)
    else
      var w := if width > 0 then width - 1 else 0;
      ZeroPadValue(Digits(-v, 16), w, 16);
      DigitsRoundTrip(-v, 16);
      var r := "-" + ZeroPad(Digits(-v, 16), w);
      assert r[1..] == ZeroPad(Digits(-v, 16), w);
      r
  }

  /** A value below 16^width prints in exactly `width` hexadecimal digits. */
  lemma FormatHexWidth(v: int, width: nat)
    requires width >= 1
    requires 0 <= v < Power(16, width)
    ensures |FormatHex(v, width)| == width
  {
    DigitsLength(v, 16, width);
  }

  /** Decimal digits are injective: two numbers with the same text are equal. */
  lemma DecimalInjective(m: nat, n: nat)
    requires Decimal(m) == Decimal(n)
    ensures m == n
  {
    DigitsRoundTrip(m, 10);
    DigitsRoundTrip(n, 10);
  }
}
