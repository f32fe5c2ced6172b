/**
 * Decimal digit strings: the `str.isdigit()` / `int()` pair the parser uses
 * to read a row number, and the `f"{row:03d}"` formatting the renderer uses
 * to print one. Digits are the ASCII characters '0'..'9'.
 */
module Digits {

  predicate IsDigit(c: char) {
    '0' <= c <= '9'
  }

  /** `s.isdigit()`: non-empty and made of digits only. */
  predicate IsDigits(s: string) {
    |s| > 0 && forall i :: 0 <= i < |s| ==> IsDigit(s[i])
  }

  predicate AllDigits(s: string) {
    forall i :: 0 <= i < |s| ==> IsDigit(s[i])
  }

  function DigitChar(d: nat): (c: char)
    requires d < 10
    ensures IsDigit(c)
  {
    ('0' as int + d) as char
  }

  function Pow10(k: nat): (p: nat)
    ensures p >= 1
  {
    if k == 0 then 1 else 10 * Pow10(k - 1)
  }

  /** `int(s)` for a string of digits: the number it denotes in base 10. */
  function Value(s: string): nat
    requires AllDigits(s)
  {
    if s == [] then 0
    else Value(s[..|s| - 1]) * 10 + (s[|s| - 1] as int - '0' as int)
  }

  /** The decimal numeral of `n` without leading zeros (Python's `str(n)`). */
  function Decimal(n: nat): (s: string)
    ensures IsDigits(s)
    ensures |s| >= 1
  {
    if n < 10 then [DigitChar(n)] else Decimal(n / 10) + [DigitChar(n % 10)]
  }

  /** `f"{n:0{width}d}"`: the numeral of `n`, left-padded with zeros to at
      least `width` characters. */
  function ZeroPad(n: nat, width: nat): (s: string)
    ensures IsDigits(s)
  {
    var d := Decimal(n);
    Zeros(width - |d|) + d
  }

  /** `"0" * k`. */
  function Zeros(k: int): (z: string)
    ensures |z| == if k > 0 then k else 0
    ensures forall i :: 0 <= i < |z| ==> z[i] == '0'
  {
    if k <= 0 then [] else ['0'] + Zeros(k - 1)
  }

  lemma {:induction false} ValueAppend(a: string, b: string)
    requires AllDigits(a) && AllDigits(b)
    ensures AllDigits(a + b)
    ensures Value(a + b) == Value(a) * Pow10(|b|) + Value(b)
  {
    if b == [] {
      assert a + b == a;
    } else {
      var b' := b[..|b| - 1];
      var ab := a + b;
      assert ab[..|ab| - 1] == a + b';
      assert ab[|ab| - 1] == b[|b| - 1];
      ValueAppend(a, b');
      var d := b[|b| - 1] as int - '0' as int;
      assert Value(ab) == Value(a + b') * 10 + d;
      assert Value(b) == Value(b') * 10 + d;
      ShiftStep(Value(a), Value(b'), Pow10(|b'|), d);
    }
  }

  lemma ShiftStep(va: int, vb: int, p: int, d: int)
    ensures (va * p + vb) * 10 + d == va * (10 * p) + (vb * 10 + d)
  {
  }

  lemma {:induction false} ZerosValue(k: int)
    ensures AllDigits(Zeros(k))
    ensures Value(Zeros(k)) == 0
  {
    if k > 0 {
      var z := Zeros(k);
      assert z[..|z| - 1] == Zeros(k - 1);
      ZerosValue(k - 1);
    }
  }

  /** Reading back a printed numeral gives the number. */
  lemma {:induction false} DecimalValue(n: nat)
    ensures Value(Decimal(n)) == n
  {
    if n >= 10 {
      var d := Decimal(n);
      assert d[..|d| - 1] == Decimal(n / 10);
      DecimalValue(n / 10);
    }
  }

  /** Zero padding does not change the number read back. */
  lemma ZeroPadValue(n: nat, width: nat)
    ensures Value(ZeroPad(n, width)) == n
  {
    var d := Decimal(n);
    var z := Zeros(width - |d|);
    ZerosValue(width - |d|);
    ValueAppend(z, d);
    DecimalValue(n);
  }

  /** A number below `10^k` needs at most `k` digits. */
  lemma {:induction false} DecimalLength(n: nat, k: nat)
    requires k >= 1 && n < Pow10(k)
    ensures |Decimal(n)| <= k
  {
    if n >= 10 {
      DecimalLength(n / 10, k - 1);
    }
  }

  /** A value read from `k` digits is below `10^k`. */
  lemma {:induction false} ValueBound(s: string)
    requires AllDigits(s)
    ensures Value(s) < Pow10(|s|)
  {
    if s != [] {
      ValueBound(s[..|s| - 1]);
    }
  }

  /** Two digit strings of equal length with the same value are equal:
      a fixed-width numeral is determined by its number. */
  lemma {:induction false} ValueInjective(s: string, t: string)
    requires AllDigits(s) && AllDigits(t) && |s| == |t|
    requires Value(s) == Value(t)
    ensures s == t
  {
    if s != [] {
      var n := |s| - 1;
      var ds := s[n] as int - '0' as int;
      var dt := t[n] as int - '0' as int;
      assert Value(s) % 10 == ds && Value(t) % 10 == dt;
      assert Value(s[..n]) == Value(t[..n]);
      ValueInjective(s[..n], t[..n]);
      assert s == s[..n] + [s[n]] && t == t[..n] + [t[n]];
    }
  }

  /** `f"{n:03d}"` of a number below 1000 is exactly three digits, and it is
      the only three-digit numeral of `n`. */
  lemma ZeroPad3(n: nat)
    requires n < 1000
    ensures |ZeroPad(n, 3)| == 3
    ensures forall s :: |s| == 3 && AllDigits(s) && Value(s) == n ==> s == ZeroPad(n, 3)
  {
    DecimalLength(n, 3);
    ZeroPadValue(n, 3);
    forall s | |s| == 3 && AllDigits(s) && Value(s) == n
      ensures s == ZeroPad(n, 3)
    {
      ValueInjective(s, ZeroPad(n, 3));
    }
  }
}
