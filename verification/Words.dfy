// Integers of 64 bits, the long and longint of C: overflow wraps around.
module Words {
  import opened Powers

  const WORD: int := 0x8000_0000_0000_0000

  predicate Longint(x: int) { -0x8000_0000_0000_0000 <= x <= 0x7fff_ffff_ffff_ffff }

  /** A long holds integers modulo 2 ** 64. */
  function Wrap(x: int): (r: int)
    ensures Longint(r)
    decreases if Longint(x) then 0 else Abs(x)
  {
    if x >= WORD then Wrap(x - 2 * WORD) else if x < -WORD then Wrap(x + 2 * WORD) else x
  }

  lemma {:induction false} WrapTurns(x: int, k: nat)
    ensures Wrap(x + 2 * WORD * k) == Wrap(x) == Wrap(x - 2 * WORD * k)
    decreases k
  {
    if k != 0 {
      WrapTurns(x, k - 1);
      WrapOnce(x + 2 * WORD * (k - 1));
      WrapOnce(x - 2 * WORD * k);
    }
  }

  lemma WrapOnce(x: int)
    ensures Wrap(x + 2 * WORD) == Wrap(x)
  {}

  lemma {:induction false} WrapIs(x: int) returns (q: int)
    ensures x == Wrap(x) + 2 * WORD * q
    decreases if Longint(x) then 0 else Abs(x)
  {
    q := 0;
    if x >= WORD {
      q := WrapIs(x - 2 * WORD);
      q := q + 1;
    } else if x < -WORD {
      q := WrapIs(x + 2 * WORD);
      q := q - 1;
    }
  }

  /** Wrapping on the way or at the end makes no difference. */
  lemma WrapStep(a: int, b: int, c: int)
    ensures Wrap(Wrap(a) * b + c) == Wrap(a * b + c)
  {
    var q := WrapIs(a);
    var x, turns := Wrap(a) * b + c, q * b;
    assert a * b + c == x + 2 * WORD * turns by {
      assert (Wrap(a) + 2 * WORD * q) * b == Wrap(a) * b + 2 * WORD * (q * b);
    }
    if turns >= 0 {
      WrapTurns(x, turns);
    } else {
      WrapTurns(x, -turns);
    }
  }

  lemma WrapNegative(v: int)
    ensures Wrap(-Wrap(v)) == Wrap(-v)
  {
    WrapStep(v, -1, 0);
  }
}
