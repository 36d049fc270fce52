// The shape of the heap kept by src/malloc.c, as values: a map from the address
// of each block's header to the length of its payload, and the free list.
// Addresses and lengths count 8-byte words; a header takes two words.
module HeapTiling {

  /** sizeof(mem), MINBLK and SBGULP in words. */
  const HEADER: nat := 2
  const MINBLK: nat := 2 * HEADER + 2
  const SBGULP: nat := 1024

  type Sizes = map<nat, nat>

  function End(sizes: Sizes, a: nat): nat
    requires a in sizes
  {
    a + HEADER + sizes[a]
  }

  /** Block a ends at the break or where another block starts. */
  predicate Chained(sizes: Sizes, brk: nat, a: nat) {
    a in sizes && (End(sizes, a) == brk || End(sizes, a) in sizes)
  }

  /** Block a lies between base and brk. */
  predicate Inside(sizes: Sizes, base: nat, brk: nat, a: nat) {
    a in sizes && base <= a && End(sizes, a) <= brk
  }

  predicate Apart(sizes: Sizes, a: nat, b: nat) {
    a in sizes && b in sizes && (a < b ==> End(sizes, a) <= b)
  }

  /** The blocks lie one after the other from base to brk. */
  ghost predicate Tiling(sizes: Sizes, base: nat, brk: nat) {
    && base <= brk
    && (base == brk || base in sizes)
    && (forall a {:trigger Inside(sizes, base, brk, a)} | a in sizes :: Inside(sizes, base, brk, a))
    && (forall a {:trigger Chained(sizes, brk, a)} | a in sizes :: Chained(sizes, brk, a))
    && (forall a, b {:trigger Apart(sizes, a, b)} | a in sizes && b in sizes :: Apart(sizes, a, b))
  }

  /** x is a word of block a, header included. */
  predicate Within(sizes: Sizes, a: nat, x: int) {
    a in sizes && a <= x < End(sizes, a)
  }

  /** Every word of the heap belongs to exactly one block. */
  lemma {:induction false} TilingCovers(sizes: Sizes, base: nat, brk: nat, x: nat) returns (a: nat)
    requires Tiling(sizes, base, brk) && base <= x < brk
    ensures Within(sizes, a, x)
    ensures forall b | Within(sizes, b, x) :: b == a
  {
    a := base;
    while End(sizes, a) <= x
      invariant a in sizes && a <= x
      decreases brk - a
    {
      assert Chained(sizes, brk, a);
      a := End(sizes, a);
    }
    forall b | Within(sizes, b, x)
      ensures b == a
    {
      assert Apart(sizes, a, b) && Apart(sizes, b, a);
    }
  }

  /** Block q cut after w words; the rest becomes a block of its own. */
  function SplitAt(sizes: Sizes, q: nat, w: nat): Sizes
    requires q in sizes && w + HEADER <= sizes[q]
  {
    sizes[q := w][q + HEADER + w := sizes[q] - w - HEADER]
  }

  lemma SplitTiles(sizes: Sizes, base: nat, brk: nat, q: nat, w: nat)
    requires Tiling(sizes, base, brk) && q in sizes && w + HEADER <= sizes[q]
    ensures Tiling(SplitAt(sizes, q, w), base, brk)
    ensures q + HEADER + w !in sizes
  {
    var p := q + HEADER + w;
    var s' := SplitAt(sizes, q, w);
    if p in sizes {
      assert Apart(sizes, q, p);
    }
    forall a | a in s'
      ensures Chained(s', brk, a) && Inside(s', base, brk, a)
    {
      assert Chained(sizes, brk, if a == p then q else a);
      assert Inside(sizes, base, brk, if a == p then q else a);
    }
    forall a, b | a in s' && b in s'
      ensures Apart(s', a, b)
    {
      assert Apart(sizes, if a == p then q else a, if b == p then q else b);
      assert a != p ==> Apart(sizes, q, a);
    }
  }

  /** Block q and its upper neighbour made one. */
  function Merge(sizes: Sizes, q: nat): Sizes
    requires q in sizes && End(sizes, q) in sizes
  {
    var p := End(sizes, q);
    (sizes - {p})[q := sizes[q] + HEADER + sizes[p]]
  }

  lemma MergeTiles(sizes: Sizes, base: nat, brk: nat, q: nat)
    requires Tiling(sizes, base, brk) && q in sizes && End(sizes, q) in sizes
    ensures Tiling(Merge(sizes, q), base, brk)
    ensures End(Merge(sizes, q), q) == End(sizes, End(sizes, q))
  {
    var p := End(sizes, q);
    var s' := Merge(sizes, q);
    assert Inside(sizes, base, brk, q) && Inside(sizes, base, brk, p);
    forall a | a in s'
      ensures Chained(s', brk, a) && Inside(s', base, brk, a)
    {
      assert Chained(sizes, brk, if a == q then p else a) && Inside(sizes, base, brk, a);
      assert Apart(sizes, a, q) && Apart(sizes, q, a);
    }
    forall a, b | a in s' && b in s'
      ensures Apart(s', a, b)
    {
      assert Apart(sizes, a, b) && Apart(sizes, p, b) && Apart(sizes, q, b) && Apart(sizes, b, p);
    }
  }

  /** New memory: a block of w words at the break, or the top block q grown to w words,
      and above it a block that fills the rest of the gulp. */
  function Grow(sizes: Sizes, q: nat, w: nat): Sizes {
    sizes[q := w][q + HEADER + w := SBGULP - HEADER]
  }

  lemma GrowTiles(sizes: Sizes, base: nat, brk: nat, q: nat, w: nat)
    requires Tiling(sizes, base, brk)
    requires q == brk || (q in sizes && End(sizes, q) == brk && sizes[q] <= w)
    ensures Tiling(Grow(sizes, q, w), base, q + HEADER + w + SBGULP)
    ensures q == brk ==> q !in sizes
    ensures q + HEADER + w !in sizes
  {
    var r := q + HEADER + w;
    var s' := Grow(sizes, q, w);
    forall a | a in sizes
      ensures a < brk
    {
      assert Inside(sizes, base, brk, a);
    }
    assert q in sizes ==> Inside(sizes, base, brk, q);
    assert (r in sizes ==> r < brk) && (q in sizes ==> q < brk);
    forall a | a in s'
      ensures Chained(s', r + SBGULP, a) && Inside(s', base, r + SBGULP, a)
    {
      if a in sizes {
        assert Chained(sizes, brk, a) && Inside(sizes, base, brk, a);
        assert q in sizes ==> Apart(sizes, q, a) && Apart(sizes, a, q);
      }
    }
    forall a, b | a in s' && b in s'
      ensures Apart(s', a, b)
    {
      if a in sizes && b in sizes {
        assert Apart(sizes, a, b) && (q in sizes ==> Apart(sizes, q, b));
      }
      if a in sizes {
        assert Inside(sizes, base, brk, a) && (q in sizes ==> Apart(sizes, a, q) && Apart(sizes, q, a));
      }
      if b in sizes {
        assert Inside(sizes, base, brk, b) && (q in sizes ==> Apart(sizes, q, b));
      }
    }
  }

  /** The free list: blocks in strictly descending order, no two of them adjacent. */
  ghost predicate Descending(sizes: Sizes, free: seq<nat>) {
    && (forall i | 0 <= i < |free| :: free[i] in sizes)
    && (forall i, j | 0 <= i < j < |free| :: End(sizes, free[j]) < free[i])
  }

  function Remove(free: seq<nat>, k: nat): (r: seq<nat>)
    requires k < |free|
    ensures |r| == |free| - 1 && forall i | 0 <= i < |r| :: r[i] == free[if i < k then i else i + 1]
  {
    free[..k] + free[k + 1..]
  }

  function Insert(free: seq<nat>, k: nat, q: nat): (r: seq<nat>)
    requires k <= |free|
    ensures |r| == |free| + 1 && r[k] == q && forall i | 0 <= i < |r| && i != k ::
              r[i] == free[if i < k then i else i - 1]
  {
    free[..k] + [q] + free[k..]
  }

  /** The address a link to entry k of the list holds. */
  function Link(free: seq<nat>, k: nat): nat {
    if k < |free| then free[k] else 0
  }

  // ----- what each operation does to the free list -----

  lemma RemoveKeeps(sizes: Sizes, free: seq<nat>, k: nat)
    requires Descending(sizes, free) && k < |free|
    ensures Descending(sizes, Remove(free, k))
    ensures free[k] !in Remove(free, k)
  {}

  lemma SplitKeeps(sizes: Sizes, base: nat, brk: nat, free: seq<nat>, k: nat, w: nat)
    requires Tiling(sizes, base, brk) && Descending(sizes, free) && k < |free|
    requires w + HEADER <= sizes[free[k]]
    ensures var p := free[k] + HEADER + w;
            Descending(SplitAt(sizes, free[k], w), free[k := p]) && free[k] !in free[k := p]
  {
    var p := free[k] + HEADER + w;
    SplitTiles(sizes, base, brk, free[k], w);
    forall i | 0 <= i < |free| && i != k
      ensures free[i] != free[k] && free[i] != p
    {
      assert i < k || k < i;
    }
  }

  lemma GrowKeeps(sizes: Sizes, base: nat, brk: nat, free: seq<nat>, q: nat, w: nat)
    requires Tiling(sizes, base, brk) && Descending(sizes, free)
    requires q == brk || (free != [] && q == free[0] && End(sizes, q) == brk && sizes[q] <= w)
    ensures var r := q + HEADER + w;
            var rest := if q == brk then free else free[1..];
            Descending(Grow(sizes, q, w), [r] + rest) && q !in [r] + rest
  {
    var r := q + HEADER + w;
    var rest := if q == brk then free else free[1..];
    GrowTiles(sizes, base, brk, q, w);
    forall a | a in sizes
      ensures End(sizes, a) <= brk
    {
      assert Inside(sizes, base, brk, a);
    }
    assert forall i | 0 <= i < |rest| :: rest[i] in sizes && rest[i] != q && rest[i] != r;
    assert forall i | 0 <= i < |rest| :: End(sizes, rest[i]) < r;
  }

  /** k is the place of block q in the list: the blocks above it come first. */
  ghost predicate Place(free: seq<nat>, k: nat, q: nat) {
    && k <= |free|
    && (forall i | 0 <= i < k :: q < free[i])
    && (forall i | k <= i < |free| :: free[i] < q)
  }

  lemma InsertKeeps(sizes: Sizes, base: nat, brk: nat, free: seq<nat>, k: nat, q: nat)
    requires Tiling(sizes, base, brk) && Descending(sizes, free) && q in sizes && Place(free, k, q)
    requires k > 0 ==> End(sizes, q) != free[k - 1]
    requires k < |free| ==> End(sizes, free[k]) != q
    ensures Descending(sizes, Insert(free, k, q))
  {
    forall i | 0 <= i < |free|
      ensures if i < k then End(sizes, q) < free[i] else End(sizes, free[i]) < q
    {
      assert Apart(sizes, q, free[i]) && Apart(sizes, free[i], q);
      assert k > 0 ==> Apart(sizes, q, free[k - 1]);
    }
  }

  lemma UpperKeeps(sizes: Sizes, free: seq<nat>, k: nat, q: nat)
    requires Descending(sizes, free) && q in sizes && k < |free| && Place(free, k + 1, q)
    requires End(sizes, q) == free[k]
    requires k + 1 < |free| ==> End(sizes, free[k + 1]) < q
    ensures Descending(Merge(sizes, q), free[k := q])
  {
    forall i | k + 1 <= i < |free|
      ensures End(sizes, free[i]) < q
    {
      assert k + 1 < i ==> End(sizes, free[i]) < free[k + 1];
    }
    assert forall i | 0 <= i < |free| && i != k :: free[i] != free[k];
  }

  lemma LowerKeeps(sizes: Sizes, base: nat, brk: nat, free: seq<nat>, k: nat, q: nat)
    requires Tiling(sizes, base, brk) && Descending(sizes, free) && q in sizes && k < |free| && Place(free, k, q)
    requires End(sizes, free[k]) == q
    requires k > 0 ==> End(sizes, q) != free[k - 1]
    ensures Descending(Merge(sizes, free[k]), free)
  {
    forall i | 0 <= i < k
      ensures End(sizes, q) < free[i]
    {
      assert Apart(sizes, q, free[k - 1]);
    }
    assert forall i | 0 <= i < |free| && i != k :: free[i] != free[k];
  }

  lemma BothKeeps(sizes: Sizes, free: seq<nat>, k: nat, q: nat)
    requires Descending(sizes, free) && q in sizes && k + 1 < |free| && Place(free, k + 1, q)
    requires End(sizes, q) == free[k] && End(sizes, free[k + 1]) == q
    ensures Descending(Merge(Merge(sizes, q), free[k + 1]), Remove(free, k))
  {
    var up := Merge(sizes, q);
    var p := free[k + 1];
    assert forall i | 0 <= i < |free| && i != k :: free[i] != free[k];
    assert forall i | 0 <= i < |free| && i != k + 1 :: free[i] != p;
    var s' := Merge(up, p);
    assert forall i | 0 <= i < |free| && i != k && i != k + 1 :: free[i] in s' && s'[free[i]] == sizes[free[i]];
    assert End(s', p) == End(sizes, free[k]);
  }
}
