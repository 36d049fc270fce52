// Powers of integer constants, as conspower of src/expr.c computes them with the products and
// the overflow check of consbinop.
module ConstantPowers {
  import opened Powers
  import opened Words

  /** Dividing the wrapped product by one factor gives the other exactly if nothing was lost. */
  lemma CheckExact(a: int, b: int, c: int)
    requires Longint(a) && Longint(b) && c == Wrap(a * b) && a != 0
    ensures Quot(c, a) == b <==> Longint(a * b)
  {
    var q := WrapIs(a * b);
    if Quot(c, a) == b {
      QuotRest(c, a);
      assert Rem(c, a) == c - a * b == -2 * WORD * q;
      assert q == 0;
    }
    if Longint(a * b) {
      assert a * b == b * a;
      QuotExact(b, a);
    }
  }

  /** consbinop on OPSTAR; overflow: whether it reports one. */
  method Product(a: int, b: int) returns (c: int, overflow: bool)
    requires Longint(a) && Longint(b)
    ensures c == Wrap(a * b) && (overflow <==> !Longint(a * b))
  {
    c := Wrap(a * b);
    overflow := a != 0 && Quot(c, a) != b;
    if a != 0 {
      CheckExact(a, b, c);
    }
  }

  /** If a power fits a word, so does every smaller one. */
  lemma {:induction false} PartFits(a: int, part: nat, m: nat)
    requires part <= m
    ensures Longint(Power(a, m)) ==> Longint(Power(a, part))
  {
    if Abs(a) > 1 {
      if part < m {
        PowerGrows(a, part, m);
      }
    } else if a == 0 {
      PowerZero(part);
    } else {
      PowerUnit(a, part);
    }
  }

  /** conspower on integers. error: the report of a negative power that is no integer; overflow: a report of
      consbinop, which is made exactly if the power does not fit a long. */
  method Conspower(a: int, n: int) returns (p: int, error: bool, overflow: bool)
    requires Longint(a)
    ensures error <==> n < 0 && Abs(a) != 1
    ensures !error ==> HasPower(a, n) && (overflow <==> !Longint(PowerOf(a, n)))
    ensures !error && !overflow ==> p == PowerOf(a, n)
    ensures !overflow ==> (p, error) == ConsPower(a, n)
  {
    p, error, overflow := 1, false, false;
    if n == 1 {
      PowerOne(a);
      p := a;
      return;
    }
    if n == 0 {
      return;
    }
    var u := n;
    if n < 0 {
      NegativePower(a, -n);
      u := -n;
      if a != 1 && a != -1 {
        error := true;
        return;
      }
      PowerUnit(a, u);
    }
    p, overflow := PowerLoop(a, u);
  }

  /** The loop of conspower, entered with p == 1. */
  method PowerLoop(a: int, n: nat) returns (p: int, overflow: bool)
    requires n > 0 && Longint(a)
    ensures overflow <==> !Longint(Power(a, n))
    ensures !overflow ==> p == Power(a, n)
  {
    var x, u, over := 0, n, false;
    p := 1;
    x, overflow := Product(1, a);
    ghost var k, done := 1, 0;
    PowerOne(a);
    while true
      invariant 0 < u && 0 < k && done + k * u == n && 0 <= done && Longint(p) && Longint(x)
      invariant overflow ==> !Longint(Power(a, n))
      invariant !overflow ==> p == Power(a, done) && x == Power(a, k)
      decreases u
    {
      ghost var h := u / 2;
      if u % 2 == 1 {
        assert done + k <= n by { HalvesLeft(k, u, h, 1); }
        PowerAdd(a, done, k);
        PartFits(a, done + k, n);
        p, over := Product(p, x);
        overflow := overflow || over;
        done := done + k;
      }
      assert done + k * (2 * h) == n by { HalvesLeft(k, u, h, u % 2); }
      u := u / 2;
      if u == 0 {
        break;
      }
      assert done + 2 * k <= n && done + (2 * k) * u == n by { HalvesLeft(k, 2 * h, h, 0); }
      PowerAdd(a, k, k);
      PartFits(a, 2 * k, n);
      x, over := Product(x, x);
      overflow := overflow || over;
      k := 2 * k;
    }
  }
}
