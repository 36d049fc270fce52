// Numerals: digits in a base of at most ten.
module Numerals {
  import opened Powers

  type Base = b: int | 2 <= b <= 10 witness 10

  predicate IsDigit(c: char) { '0' <= c <= '9' }

  predicate AllDigits(s: string) { forall k | 0 <= k < |s| :: IsDigit(s[k]) }

  function DigitOf(c: char): (d: nat)
    requires IsDigit(c)
    ensures d < 10
  {
    c as int - '0' as int
  }

  function CharOf(d: nat): (c: char)
    requires d < 10
    ensures IsDigit(c) && DigitOf(c) == d
  {
    '0' + d as char
  }

  /** What digits amount to; in base 8 the digits 8 and 9 are not refused. */
  function Value(s: string, base: Base): nat
    requires AllDigits(s)
  {
    if s == "" then 0 else Value(s[..|s| - 1], base) * base + DigitOf(s[|s| - 1])
  }

  /** The numeral of n, without zeros in front. */
  function Show(n: nat, base: Base): string {
    if n < base then [CharOf(n)] else Show(n / base, base) + [CharOf(n % base)]
  }

  /** %d and %ld. */
  function ShowInt(n: int): string {
    if n < 0 then "-" + Show(-n, 10) else Show(n, 10)
  }

  /** Show, with nothing for zero. */
  function Front(n: nat, base: Base): string { if n == 0 then "" else Show(n, base) }

  lemma ShowLast(n: nat, base: Base)
    requires n > 0
    ensures 0 <= n / base < n && 0 <= n % base < base
    ensures Front(n, base) == Front(n / base, base) + [CharOf(n % base)]
  {
    if n < base {
      assert n / base == 0 && n % base == n;
      assert Front(n, base) == [CharOf(n)];
    } else {
      assert n / base > 0;
    }
  }

  lemma Division(n: nat, base: Base)
    requires n >= base
    ensures n == (n / base) * base + n % base && 0 < n / base < n && 0 <= n % base < base
  {}

  lemma {:induction false} ShowValue(n: nat, base: Base)
    ensures |Show(n, base)| > 0 && AllDigits(Show(n, base)) && Value(Show(n, base), base) == n
    ensures n > 0 ==> Show(n, base)[0] != '0'
  {
    if n < base {
      ValueSnoc("", CharOf(n), base);
      assert "" + [CharOf(n)] == Show(n, base);
    } else {
      Division(n, base);
      ShowValue(n / base, base);
      ValueSnoc(Show(n / base, base), CharOf(n % base), base);
    }
  }

  /** Exactly negative numbers have a sign. */
  lemma ShowIntSign(n: int)
    ensures ShowInt(n) != "" && (ShowInt(n)[0] == '-' <==> n < 0)
  {
    if n >= 0 {
      ShowValue(n, 10);
    }
  }

  lemma QuotientBelow(n: nat, base: Base, p: int)
    requires n < base * p
    ensures n / base < p
  {
    assert base * (p - n / base) > 0;
  }

  lemma {:induction false} ShowLength(n: nat, base: Base, k: nat)
    requires k > 0 && n < Power(base, k)
    ensures |Show(n, base)| <= k
  {
    if n >= base {
      if k == 1 {
        PowerOne(base);
        assert false;
      }
      Division(n, base);
      QuotientBelow(n, base, Power(base, k - 1));
      ShowLength(n / base, base, k - 1);
    }
  }

  lemma ValueSnoc(s: string, c: char, base: Base)
    requires AllDigits(s) && IsDigit(c)
    ensures AllDigits(s + [c]) && Value(s + [c], base) == Value(s, base) * base + DigitOf(c)
  {
    assert (s + [c])[..|s|] == s;
  }

  lemma {:induction false} ValueAppend(s: string, t: string, base: Base)
    requires AllDigits(s) && AllDigits(t)
    ensures AllDigits(s + t) && Value(s + t, base) == Value(s, base) * Power(base, |t|) + Value(t, base)
  {
    if t == "" {
      assert s + t == s;
    } else {
      var init, last := t[..|t| - 1], t[|t| - 1];
      ValueAppend(s, init, base);
      ValueSnoc(s + init, last, base);
      ValueSnoc(init, last, base);
      assert s + t == s + init + [last] && t == init + [last];
      Spread(Value(s, base), Power(base, |t| - 1), Value(init, base), base);
    }
  }

  lemma Spread(v: int, p: int, w: int, b: int)
    ensures (v * p + w) * b == v * (b * p) + w * b
  {}

  lemma {:induction false} ValueZeros(z: string, base: Base)
    requires forall k | 0 <= k < |z| :: z[k] == '0'
    ensures AllDigits(z) && Value(z, base) == 0
  {
    if z != "" {
      ValueZeros(z[..|z| - 1], base);
    }
  }
}
