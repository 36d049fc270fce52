// Integer powers: the squaring loops of conspower in src/expr.c and of pow_ii in
// libf2c/pow_ii.c, and the quotients of C.
module Powers {

  function Abs(a: int): nat { if a < 0 then -a else a }

  /** C's division: the quotient is cut toward zero. */
  function Quot(a: int, b: int): int
    requires b != 0
  {
    if (a >= 0) == (b > 0) then Abs(a) / Abs(b) else -(Abs(a) / Abs(b))
  }

  /** C's remainder, which has the sign of a. */
  function Rem(a: int, b: int): int
    requires b != 0
  {
    a - b * Quot(a, b)
  }

  /** The n-fold product. */
  function Power(a: int, n: nat): int {
    if n == 0 then 1 else a * Power(a, n - 1)
  }

  /** a ** n of section 6.6.1 of ANSI X3.9-1978: a negative exponent gives the integer quotient
      1 / a ** -n, which does not exist if a is zero. */
  ghost predicate HasPower(a: int, n: int) { n >= 0 || Power(a, -n) != 0 }

  ghost function PowerOf(a: int, n: int): int
    requires HasPower(a, n)
  {
    if n >= 0 then Power(a, n) else Quot(1, Power(a, -n))
  }

  lemma MulAtLeast(g: int, d: int)
    requires d > 0
    ensures g > 0 ==> g * d >= d
    ensures g < 0 ==> g * d <= -d
  {
    if g > 0 {
      assert (g - 1) * d >= 0;
    } else if g < 0 {
      assert (-g - 1) * d >= 0;
    }
  }

  lemma MulDiv(m: nat, d: nat)
    requires d != 0
    ensures (m * d) / d == m
  {
    var q, r := (m * d) / d, (m * d) % d;
    assert m * d == q * d + r;
    assert (m - q) * d == r;
    MulAtLeast(m - q, d);
  }

  lemma MulAbs(m: int, d: int)
    ensures Abs(m * d) == Abs(m) * Abs(d)
  {}

  /** Dividing a multiple is exact. */
  lemma QuotExact(m: int, d: int)
    requires d != 0
    ensures Quot(m * d, d) == m
  {
    MulAbs(m, d);
    MulDiv(Abs(m), Abs(d));
    if d > 0 {
      assert m * d >= 0 <==> m >= 0;
    } else {
      assert m * d >= 0 <==> m <= 0;
    }
  }

  /** Multiples of d other than 0 are at least as far from 0 as d. */
  lemma MultipleFar(d: int, g: int)
    requires d != 0
    ensures g != 0 ==> Abs(d * g) >= Abs(d)
  {
    MulAbs(g, d);
    if g != 0 {
      MulAtLeast(Abs(g), Abs(d));
    }
  }

  lemma Rest(m: nat, d: nat)
    requires d > 0
    ensures 0 <= m - d * (m / d) < d
  {}

  lemma SignsOut(b: int, q: int)
    ensures b * -q == -(b * q) && -b * q == -(b * q) && -b * -q == b * q
  {}

  lemma QuotRest(a: int, b: int)
    requires b != 0
    ensures var r := a - b * Quot(a, b); Abs(r) < Abs(b) && (a >= 0 ==> r >= 0) && (a <= 0 ==> r <= 0)
  {
    Rest(Abs(a), Abs(b));
    SignsOut(b, Abs(a) / Abs(b));
  }

  /** The quotient of C is the one number whose rest is smaller than the divisor and has the sign of the
      dividend. */
  lemma QuotIs(a: int, b: int, q: int)
    requires b != 0
    ensures q == Quot(a, b) <==>
            var r := a - b * q; Abs(r) < Abs(b) && (a >= 0 ==> r >= 0) && (a <= 0 ==> r <= 0)
  {
    QuotRest(a, b);
    var r := a - b * q;
    if Abs(r) < Abs(b) && (a >= 0 ==> r >= 0) && (a <= 0 ==> r <= 0) {
      var g := q - Quot(a, b);
      assert b * g == b * q - b * Quot(a, b);
      MultipleFar(b, g);
    }
  }

  /** x * c / d may be computed as x * (c / d) if d divides c. */
  lemma QuotRegroup(x: int, c: int, d: int)
    requires d != 0 && Rem(c, d) == 0
    ensures Quot(x * c, d) == x * Quot(c, d)
  {
    var k := Quot(c, d);
    assert c == d * k;
    assert x * c == (x * k) * d;
    QuotExact(x * k, d);
  }

  lemma {:induction false} PowerAdd(a: int, m: nat, n: nat)
    ensures Power(a, m + n) == Power(a, m) * Power(a, n)
    decreases m
  {
    if m != 0 {
      PowerAdd(a, m - 1, n);
      assert a * (Power(a, m - 1) * Power(a, n)) == (a * Power(a, m - 1)) * Power(a, n);
    }
  }

  lemma PowerOne(a: int)
    ensures Power(a, 1) == a
  {
    assert Power(a, 0) == 1;
  }

  /** One squaring: (x * x) ** h is x ** (2 * h). */
  lemma {:induction false} PowerSquare(x: int, h: nat)
    ensures Power(x * x, h) == Power(x, 2 * h)
  {
    if h != 0 {
      PowerSquare(x, h - 1);
      PowerAdd(x, 2, 2 * (h - 1));
      PowerOne(x);
      assert Power(x, 2) == x * Power(x, 1);
    }
  }

  lemma {:induction false} PowerUnit(a: int, n: nat)
    requires a == 1 || a == -1
    ensures Power(a, n) == if a == 1 || n % 2 == 0 then 1 else -1
  {
    if n != 0 {
      PowerUnit(a, n - 1);
    }
  }

  lemma {:induction false} PowerZero(n: nat)
    ensures Power(0, n) == if n == 0 then 1 else 0
  {
    if n != 0 {
      PowerZero(n - 1);
    }
  }

  lemma MulGrows(a: int, p: int)
    requires Abs(a) > 1 && p != 0
    ensures Abs(a * p) >= 2 * Abs(p)
  {
    MulAbs(a, p);
    assert Abs(a) * Abs(p) >= 2 * Abs(p) by {
      assert (Abs(a) - 2) * Abs(p) >= 0;
    }
  }

  /** Powers of a base beyond 1 at least double. */
  lemma {:induction false} PowerGrows(a: int, m: nat, n: nat)
    requires Abs(a) > 1 && m < n
    ensures Power(a, m) != 0 && 2 * Abs(Power(a, m)) <= Abs(Power(a, n))
    decreases n
  {
    if m == n - 1 {
      if m != 0 {
        PowerGrows(a, m - 1, m);
      }
    } else {
      PowerGrows(a, m, n - 1);
    }
    MulGrows(a, Power(a, n - 1));
  }

  /** A negative power of anything but 0 and the units is zero. */
  lemma NegativePower(a: int, n: int)
    requires n > 0
    ensures HasPower(a, -n) <==> a != 0
    ensures Abs(a) > 1 ==> PowerOf(a, -n) == 0
    ensures Abs(a) == 1 ==> PowerOf(a, -n) == Power(a, n)
  {
    if a == 0 {
      PowerZero(n);
    } else if Abs(a) > 1 {
      PowerGrows(a, 0, n);
    } else {
      PowerUnit(a, n);
    }
  }

  // ----- the loops -----

  /** What conspower leaves, and whether it reports an error. */
  function ConsPower(a: int, n: int): (r: (int, bool)) {
    if n >= 0 then (Power(a, n), false)
    else if a == 1 || a == -1 then (Power(a, -n), false)
    else (1, true)
  }

  /** What is left of the exponent when its last bit r is taken. */
  lemma HalvesLeft(k: nat, u: nat, h: nat, r: nat)
    requires u == 2 * h + r && r <= 1
    ensures k * u == k * (2 * h) + k * r && k * (2 * h) == (2 * k) * h
    ensures r == 1 ==> k <= k * u
    ensures h > 0 ==> 2 * k <= k * (2 * h)
  {
    assert h > 0 ==> (2 * k) * h >= 2 * k by { if h > 0 { assert (2 * k) * (h - 1) >= 0; } }
  }

  /** pow_ii, which compiled code calls: None is the division 1/x by zero. */
  method PowII(ap: int, bp: int) returns (ok: bool, pow: int)
    ensures ok <==> HasPower(ap, bp)
    ensures ok ==> pow == PowerOf(ap, bp)
  {
    var x, n := ap, bp;
    ok, pow := true, 1;
    if n <= 0 {
      if n != 0 {
        NegativePower(x, -n);
        PowerUnit(1, -n);
      }
      if n == 0 || x == 1 {
        return;
      }
      if x != -1 {
        return x != 0, 0;
      }
      n := -n;
    }
    var u := n;
    ghost var k, done := 1, 0;
    PowerOne(x);
    while true
      invariant 0 < u && 0 < k && 0 <= done && done + k * u == n
      invariant pow == Power(ap, done) && x == Power(ap, k)
      decreases u
    {
      if u % 2 == 1 {
        PowerAdd(ap, done, k);
        pow := pow * x;
        done := done + k;
      }
      u := u / 2;
      if u == 0 {
        break;
      }
      PowerAdd(ap, k, k);
      x := x * x;
      k := 2 * k;
    }
  }
}
