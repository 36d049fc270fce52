// Complex powers by squaring, pow_zi of libf2c/pow_zi.c, with the quotient of z_div.c, in exact
// arithmetic.
module ComplexPowers {
  import opened Powers

  datatype Complex = Complex(r: real, i: real)

  const ONE: Complex := Complex(1.0, 0.0)
  const ZERO: Complex := Complex(0.0, 0.0)

  function Mul(a: Complex, b: Complex): Complex {
    Complex(a.r * b.r - a.i * b.i, a.r * b.i + a.i * b.r)
  }

  lemma MulAssoc(a: Complex, b: Complex, c: Complex)
    ensures Mul(a, Mul(b, c)) == Mul(Mul(a, b), c)
  {
    Spread(a, b, c);
  }

  lemma Spread(a: Complex, b: Complex, c: Complex)
    ensures a.r * (b.r * c.r - b.i * c.i) == a.r * b.r * c.r - a.r * b.i * c.i
    ensures a.i * (b.r * c.i + b.i * c.r) == a.i * b.r * c.i + a.i * b.i * c.r
    ensures (a.r * b.r - a.i * b.i) * c.r == a.r * b.r * c.r - a.i * b.i * c.r
    ensures (a.r * b.i + a.i * b.r) * c.i == a.r * b.i * c.i + a.i * b.r * c.i
    ensures a.r * (b.r * c.i + b.i * c.r) == a.r * b.r * c.i + a.r * b.i * c.r
    ensures a.i * (b.r * c.r - b.i * c.i) == a.i * b.r * c.r - a.i * b.i * c.i
    ensures (a.r * b.r - a.i * b.i) * c.i == a.r * b.r * c.i - a.i * b.i * c.i
    ensures (a.r * b.i + a.i * b.r) * c.r == a.r * b.i * c.r + a.i * b.r * c.r
  {}

  lemma MulOne(a: Complex)
    ensures Mul(ONE, a) == a == Mul(a, ONE)
  {}

  lemma MulSwap(a: Complex, b: Complex)
    ensures Mul(a, b) == Mul(b, a)
  {}

  /** The n-fold product. */
  function PowC(a: Complex, n: nat): Complex {
    if n == 0 then ONE else Mul(a, PowC(a, n - 1))
  }

  lemma {:induction false} PowAdd(a: Complex, m: nat, n: nat)
    ensures PowC(a, m + n) == Mul(PowC(a, m), PowC(a, n))
  {
    if m == 0 {
      MulOne(PowC(a, n));
    } else {
      PowAdd(a, m - 1, n);
      MulAssoc(a, PowC(a, m - 1), PowC(a, n));
    }
  }

  /** If x is the reciprocal of a, so are their powers. */
  lemma {:induction false} PowReciprocal(x: Complex, a: Complex, n: nat)
    requires Mul(x, a) == ONE
    ensures Mul(PowC(x, n), PowC(a, n)) == ONE
  {
    if n != 0 {
      var p, q := PowC(x, n - 1), PowC(a, n - 1);
      PowReciprocal(x, a, n - 1);
      MulAssoc(Mul(x, p), a, q);
      MulSwap(x, p);
      MulAssoc(p, x, a);
      MulOne(p);
    }
  }

  /** z_div; false: complex division by zero, which ends the run. */
  method Z_div(a: Complex, b: Complex) returns (ok: bool, c: Complex)
    ensures ok <==> b != ZERO
    ensures ok ==> Mul(c, b) == a
  {
    var abr := if b.r < 0.0 then -b.r else b.r;
    var abi := if b.i < 0.0 then -b.i else b.i;
    ok, c := true, ZERO;
    if abr <= abi {
      if abi == 0.0 {
        return false, ZERO;
      }
      c := ByImaginary(a, b);
    } else {
      c := ByReal(a, b);
    }
  }

  method ByImaginary(a: Complex, b: Complex) returns (c: Complex)
    requires b.i != 0.0
    ensures Mul(c, b) == a
  {
    var ratio := b.r / b.i;
    var den := b.i * (1.0 + ratio * ratio);
    DenominatorIs(b.i, ratio);
    c := Complex((a.r * ratio + a.i) / den, (a.i * ratio - a.r) / den);
    QuotientByImaginary(a, b, ratio, den, c);
  }

  method ByReal(a: Complex, b: Complex) returns (c: Complex)
    requires b.r != 0.0
    ensures Mul(c, b) == a
  {
    var ratio := b.i / b.r;
    var den := b.r * (1.0 + ratio * ratio);
    DenominatorIs(b.r, ratio);
    c := Complex((a.r + a.i * ratio) / den, (a.i - a.r * ratio) / den);
    QuotientByReal(a, b, ratio, den, c);
  }

  lemma DenominatorIs(d: real, ratio: real)
    requires d != 0.0
    ensures d * (1.0 + ratio * ratio) != 0.0
  {
    assert ratio * ratio >= 0.0;
  }

  lemma Cancel(x: real, y: real, s: real)
    requires s > 0.0 && x * s == y * s
    ensures x == y
  {
    assert (x - y) * s == 0.0;
  }

  /** u and v, scaled by s == 1 + t * t, combine to p and q. */
  lemma Combined(u: real, v: real, t: real, p: real, q: real)
    requires u * (1.0 + t * t) == p * t + q && v * (1.0 + t * t) == q * t - p
    ensures t * u - v == p && u + t * v == q
  {
    var s := 1.0 + t * t;
    assert t * t >= 0.0;
    assert (t * u - v) * s == t * (u * s) - v * s;
    assert t * (p * t + q) - (q * t - p) == p * s;
    Cancel(t * u - v, p, s);
    assert (u + t * v) * s == u * s + t * (v * s);
    assert (p * t + q) + t * (q * t - p) == q * s;
    Cancel(u + t * v, q, s);
  }

  lemma QuotientByImaginary(a: Complex, b: Complex, ratio: real, den: real, c: Complex)
    requires b.r == ratio * b.i && den == b.i * (1.0 + ratio * ratio)
    requires c.r * den == a.r * ratio + a.i && c.i * den == a.i * ratio - a.r
    ensures Mul(c, b) == a
  {
    var u, v, s := c.r * b.i, c.i * b.i, 1.0 + ratio * ratio;
    assert u * s == c.r * (b.i * s) && v * s == c.i * (b.i * s);
    Combined(u, v, ratio, a.r, a.i);
    assert c.r * b.r == ratio * u && c.i * b.r == ratio * v;
  }

  lemma QuotientByReal(a: Complex, b: Complex, ratio: real, den: real, c: Complex)
    requires b.i == ratio * b.r && den == b.r * (1.0 + ratio * ratio)
    requires c.r * den == a.r + a.i * ratio && c.i * den == a.i - a.r * ratio
    ensures Mul(c, b) == a
  {
    var u, v, s := c.r * b.r, c.i * b.r, 1.0 + ratio * ratio;
    assert u * s == c.r * (b.r * s) && v * s == c.i * (b.r * s);
    Combined(u, -v, ratio, a.i, a.r);
    assert c.i * b.i == ratio * v && c.r * b.i == ratio * u;
  }

  /** pow_zi; false: a power of zero with a negative exponent. */
  method PowZI(a: Complex, b: int) returns (ok: bool, p: Complex)
    ensures ok <==> b >= 0 || a != ZERO
    ensures ok && b >= 0 ==> p == PowC(a, b)
    ensures ok && b < 0 ==> Mul(p, PowC(a, -b)) == ONE
  {
    if b == 0 {
      return true, ONE;
    }
    var x, n := a, b;
    if b < 0 {
      n := -n;
      ok, x := Z_div(ONE, a);
      if !ok {
        return false, ZERO;
      }
      PowReciprocal(x, a, n);
    }
    ok := true;
    p := Squarings(x, n);
  }

  /** q *= x, through a temporary for the real part. */
  method Times(q0: Complex, x: Complex) returns (q: Complex)
    ensures q == Mul(q0, x)
  {
    var t := q0.r * x.r - q0.i * x.i;
    q := Complex(t, q0.r * x.i + q0.i * x.r);
  }

  /** x *= x. */
  method Square(x0: Complex) returns (x: Complex)
    ensures x == Mul(x0, x0)
  {
    var t := x0.r * x0.r - x0.i * x0.i;
    x := Complex(t, 2.0 * x0.r * x0.i);
  }

  /** The loop of pow_zi. */
  method Squarings(x0: Complex, n: nat) returns (q: Complex)
    requires n > 0
    ensures q == PowC(x0, n)
  {
    var x, u := x0, n;
    q := ONE;
    ghost var k, done := 1, 0;
    FirstPower(x0);
    while true
      invariant 0 < u && 0 < k && 0 <= done && done + k * u == n
      invariant q == PowC(x0, done) && x == PowC(x0, k)
      decreases u
    {
      ghost var h, r := u / 2, u % 2;
      if u % 2 == 1 {
        PowAdd(x0, done, k);
        q := Times(q, x);
      }
      assert done + k * r + (2 * k) * h == n by { HalvesLeft(k, u, h, r); }
      done := done + k * r;
      u := u / 2;
      if u == 0 {
        break;
      }
      PowAdd(x0, k, k);
      x := Square(x);
      k := 2 * k;
    }
  }

  lemma FirstPower(x: Complex)
    ensures PowC(x, 0) == ONE && PowC(x, 1) == x
  {
    MulOne(x);
    assert PowC(x, 1) == Mul(x, PowC(x, 0));
  }
}
