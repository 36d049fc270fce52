// The heap as a value: the words of memory together with the shape they encode,
// and what each rewriting of headers and links by src/malloc.c does to it.
module HeapImage {
  import opened HeapTiling

  /** The words of memory, the head of the free list, the blocks, and the free list. */
  datatype Image = Image(m: seq<int>, F: int, sizes: Sizes, free: seq<nat>)

  ghost predicate HeadAt(h: Image, a: nat) {
    a in h.sizes && a + 1 < |h.m| && h.m[a + 1] == h.sizes[a]
  }

  ghost predicate LinkAt(h: Image, i: nat) {
    i < |h.free| && 0 < h.free[i] < |h.m| && h.m[h.free[i]] == Link(h.free, i + 1)
  }

  /** The headers hold the lengths, the links the list. */
  ghost predicate Encodes(h: Image) {
    && h.F == Link(h.free, 0)
    && (forall a {:trigger HeadAt(h, a)} | a in h.sizes :: HeadAt(h, a))
    && (forall i: nat {:trigger LinkAt(h, i)} | i < |h.free| :: LinkAt(h, i))
  }

  ghost predicate Sane(h: Image, base: nat, brk: nat) {
    && 0 < base && brk <= |h.m|
    && Tiling(h.sizes, base, brk)
    && Descending(h.sizes, h.free)
    && Encodes(h)
  }

  /** x is a word of the payload of block a. */
  predicate Payload(sizes: Sizes, a: nat, x: int) {
    a in sizes && a + HEADER <= x < End(sizes, a)
  }

  /** No word of block q belongs to another block. */
  lemma Foreign(sizes: Sizes, base: nat, brk: nat, q: nat, x: int)
    requires Tiling(sizes, base, brk) && Within(sizes, q, x)
    ensures forall a | a in sizes && a != q :: x != a && x != a + 1 && !Payload(sizes, a, x)
  {
    forall a | a in sizes && a != q
      ensures x != a && x != a + 1 && !Payload(sizes, a, x)
    {
      assert Apart(sizes, a, q) && Apart(sizes, q, a);
    }
  }

  /** The cell of the link to entry k, 0 for the variable F: what the code calls r or s. */
  function Before(free: seq<nat>, k: nat): nat
    requires k <= |free|
  {
    if k == 0 then 0 else free[k - 1]
  }

  function Get(m: seq<int>, x: int): int { if 0 <= x < |m| then m[x] else 0 }

  function Put(m: seq<int>, x: int, v: int): seq<int> { if 0 <= x < |m| then m[x := v] else m }

  /** r->next = v. */
  function Relink(h: Image, r: nat, v: int): Image {
    if r == 0 then h.(F := v) else h.(m := Put(h.m, r, v))
  }

  /** Entries of the free list are headers, so a link is no header word but its own. */
  lemma LinkCell(h: Image, base: nat, brk: nat, k: nat)
    requires Sane(h, base, brk) && k < |h.free|
    ensures var q := h.free[k];
            && LinkAt(h, k) && HeadAt(h, q)
            && q in h.sizes && base <= q && End(h.sizes, q) <= brk
            && (forall a | a in h.sizes && a != q :: q != a && q != a + 1 && q + 1 != a && q + 1 != a + 1)
            && (forall i | 0 <= i < |h.free| && i != k :: h.free[i] != q)
  {
    var q := h.free[k];
    assert LinkAt(h, k) && HeadAt(h, q) && Inside(h.sizes, base, brk, q);
    Foreign(h.sizes, base, brk, q, q);
    Foreign(h.sizes, base, brk, q, q + 1);
  }

  // ----- malloc -----

  /** A free block that is used whole: its entry is unlinked. */
  function TakenWhole(h: Image, k: nat): Image
    requires k < |h.free|
  {
    Relink(h, Before(h.free, k), Get(h.m, h.free[k])).(free := Remove(h.free, k))
  }

  lemma TakeWholeHeads(h: Image, base: nat, brk: nat, k: nat)
    requires Sane(h, base, brk) && k < |h.free|
    ensures var h' := TakenWhole(h, k);
            forall a {:trigger HeadAt(h', a)} | a in h'.sizes :: HeadAt(h', a)
  {
    var h' := TakenWhole(h, k);
    LinkCell(h, base, brk, k);
    if k > 0 {
      LinkCell(h, base, brk, k - 1);
    }
    forall a | a in h'.sizes
      ensures HeadAt(h', a)
    {
      assert HeadAt(h, a);
    }
  }

  lemma TakeWholeLink(h: Image, base: nat, brk: nat, k: nat, i: nat)
    requires Sane(h, base, brk) && k < |h.free|
    requires i < |TakenWhole(h, k).free|
    ensures LinkAt(TakenWhole(h, k), i)
  {
    var j := if i < k then i else i + 1;
    assert LinkAt(h, j) && LinkAt(h, k);
    if k > 0 {
      Entries(h, base, brk, k - 1, j);
    }
  }

  /** Different entries are different blocks. */
  lemma Entries(h: Image, base: nat, brk: nat, i: nat, j: nat)
    requires Sane(h, base, brk) && i < |h.free| && j < |h.free|
    ensures h.free[i] == h.free[j] <==> i == j
    ensures i != j ==> h.free[i] != h.free[j] + 1 && h.free[i] + 1 != h.free[j]
    ensures 0 < h.free[i] < |h.m| - 1
  {
    LinkCell(h, base, brk, i);
  }

  lemma TakeWholeLinks(h: Image, base: nat, brk: nat, k: nat)
    requires Sane(h, base, brk) && k < |h.free|
    ensures var h' := TakenWhole(h, k);
            h'.F == Link(h'.free, 0) && forall i: nat {:trigger LinkAt(h', i)} | i < |h'.free| :: LinkAt(h', i)
  {
    var h' := TakenWhole(h, k);
    LinkCell(h, base, brk, k);
    forall i: nat | i < |h'.free|
      ensures LinkAt(h', i)
    {
      TakeWholeLink(h, base, brk, k, i);
    }
  }

  lemma TakeWhole(h: Image, base: nat, brk: nat, k: nat)
    requires Sane(h, base, brk) && k < |h.free|
    ensures Sane(TakenWhole(h, k), base, brk)
  {
    TakeWholeHeads(h, base, brk, k);
    TakeWholeLinks(h, base, brk, k);
    RemoveKeeps(h.sizes, h.free, k);
  }

  /** A free block that is cut after w words: its upper part takes its place in the list. */
  function TakenSplit(h: Image, k: nat, w: nat): Image
    requires k < |h.free| && h.free[k] in h.sizes && w + HEADER <= h.sizes[h.free[k]]
  {
    var q := h.free[k];
    var p := q + HEADER + w;
    var h1 := h.(m := Put(Put(h.m, p, Get(h.m, q)), p + 1, h.sizes[q] - w - HEADER));
    var h2 := Relink(h1, Before(h.free, k), p);
    Image(Put(h2.m, q + 1, w), h2.F, SplitAt(h.sizes, q, w), h.free[k := p])
  }

  /** What malloc writes when it cuts block q at p: r->next is written before the new length of q. */
  function Cut(m: seq<int>, q: nat, p: nat, r: nat, w: nat): seq<int> {
    var m1 := Put(Put(m, p, Get(m, q)), p + 1, Get(m, q + 1) - w - HEADER);
    Put(if r == 0 then m1 else Put(m1, r, p), q + 1, w)
  }

  lemma CutIsSplit(h: Image, base: nat, brk: nat, k: nat, w: nat)
    requires Sane(h, base, brk) && k < |h.free| && w + HEADER <= h.sizes[h.free[k]]
    ensures var q := h.free[k];
            var p := q + HEADER + w;
            TakenSplit(h, k, w) == Image(Cut(h.m, q, p, Before(h.free, k), w), if k == 0 then p else h.F,
                                         SplitAt(h.sizes, q, w), h.free[k := p])
  {
    Entries(h, base, brk, k, k);
    assert HeadAt(h, h.free[k]);
    if k > 0 {
      Entries(h, base, brk, k - 1, k);
    }
  }

  lemma TakeSplitHeads(h: Image, base: nat, brk: nat, k: nat, w: nat)
    requires Sane(h, base, brk) && k < |h.free| && w + HEADER <= h.sizes[h.free[k]]
    ensures var h' := TakenSplit(h, k, w);
            forall a {:trigger HeadAt(h', a)} | a in h'.sizes :: HeadAt(h', a)
  {
    var h' := TakenSplit(h, k, w);
    var q := h.free[k];
    var p := q + HEADER + w;
    SplitTiles(h.sizes, base, brk, q, w);
    LinkCell(h, base, brk, k);
    Foreign(h.sizes, base, brk, q, p);
    Foreign(h.sizes, base, brk, q, p + 1);
    if k > 0 {
      LinkCell(h, base, brk, k - 1);
    }
    forall a | a in h'.sizes
      ensures HeadAt(h', a)
    {
      assert a != p ==> HeadAt(h, a);
    }
  }

  lemma TakeSplitLinks(h: Image, base: nat, brk: nat, k: nat, w: nat)
    requires Sane(h, base, brk) && k < |h.free| && w + HEADER <= h.sizes[h.free[k]]
    ensures var h' := TakenSplit(h, k, w);
            h'.F == Link(h'.free, 0) && forall i: nat {:trigger LinkAt(h', i)} | i < |h'.free| :: LinkAt(h', i)
  {
    var h' := TakenSplit(h, k, w);
    var q := h.free[k];
    var p := q + HEADER + w;
    SplitTiles(h.sizes, base, brk, q, w);
    LinkCell(h, base, brk, k);
    Foreign(h.sizes, base, brk, q, p);
    Foreign(h.sizes, base, brk, q, p + 1);
    if k > 0 {
      LinkCell(h, base, brk, k - 1);
    }
    forall i: nat | i < |h'.free|
      ensures LinkAt(h', i)
    {
      assert LinkAt(h, i);
    }
  }

  lemma TakeSplit(h: Image, base: nat, brk: nat, k: nat, w: nat)
    requires Sane(h, base, brk) && k < |h.free| && w + HEADER <= h.sizes[h.free[k]]
    ensures Sane(TakenSplit(h, k, w), base, brk)
  {
    TakeSplitHeads(h, base, brk, k, w);
    TakeSplitLinks(h, base, brk, k, w);
    SplitTiles(h.sizes, base, brk, h.free[k], w);
    SplitKeeps(h.sizes, base, brk, h.free, k, w);
  }

  /** Memory from sbrk: block q, at the break or the top free block, gets w words, and a free
      block above it the rest of the gulp. */
  function Grown(h: Image, brk: nat, q: nat, w: nat): Image {
    var r := q + HEADER + w;
    var rest := if q == brk || h.free == [] then h.free else h.free[1..];
    Image(Put(Put(Put(h.m, r + 1, SBGULP - HEADER), r, Link(rest, 0)), q + 1, w), r, Grow(h.sizes, q, w), [r] + rest)
  }

  lemma GrowTopHeads(h: Image, base: nat, brk: nat, q: nat, w: nat)
    requires Sane(h, base, brk)
    requires q == brk || (h.free != [] && q == h.free[0] && End(h.sizes, q) == brk && h.sizes[q] <= w)
    requires q + HEADER + w + SBGULP <= |h.m|
    ensures var h' := Grown(h, brk, q, w);
            forall a {:trigger HeadAt(h', a)} | a in h'.sizes :: HeadAt(h', a)
  {
    var h' := Grown(h, brk, q, w);
    var r := q + HEADER + w;
    GrowTiles(h.sizes, base, brk, q, w);
    if q != brk {
      LinkCell(h, base, brk, 0);
    }
    forall a | a in h'.sizes
      ensures HeadAt(h', a)
    {
      if a in h.sizes {
        assert HeadAt(h, a) && Inside(h.sizes, base, brk, a);
      }
    }
  }

  lemma GrowTopLinks(h: Image, base: nat, brk: nat, q: nat, w: nat)
    requires Sane(h, base, brk)
    requires q == brk || (h.free != [] && q == h.free[0] && End(h.sizes, q) == brk && h.sizes[q] <= w)
    requires q + HEADER + w + SBGULP <= |h.m|
    ensures var h' := Grown(h, brk, q, w);
            h'.F == Link(h'.free, 0) && forall i: nat {:trigger LinkAt(h', i)} | i < |h'.free| :: LinkAt(h', i)
  {
    var h' := Grown(h, brk, q, w);
    var r := q + HEADER + w;
    GrowTiles(h.sizes, base, brk, q, w);
    if q != brk {
      LinkCell(h, base, brk, 0);
    }
    forall i: nat | i < |h'.free|
      ensures LinkAt(h', i)
    {
      if i > 0 {
        GrownLinkAt(h, base, brk, q, w, i);
      }
    }
  }

  lemma GrownLinkAt(h: Image, base: nat, brk: nat, q: nat, w: nat, i: nat)
    requires Sane(h, base, brk)
    requires q == brk || (h.free != [] && q == h.free[0] && End(h.sizes, q) == brk && h.sizes[q] <= w)
    requires q + HEADER + w + SBGULP <= |h.m| && 0 < i < |Grown(h, brk, q, w).free|
    ensures LinkAt(Grown(h, brk, q, w), i)
  {
    var j := if q == brk then i - 1 else i;
    assert LinkAt(h, j);
    LinkCell(h, base, brk, j);
    assert Inside(h.sizes, base, brk, h.free[j]);
  }

  lemma GrowTop(h: Image, base: nat, brk: nat, q: nat, w: nat)
    requires Sane(h, base, brk)
    requires q == brk || (h.free != [] && q == h.free[0] && End(h.sizes, q) == brk && h.sizes[q] <= w)
    requires q + HEADER + w + SBGULP <= |h.m|
    ensures Sane(Grown(h, brk, q, w), base, q + HEADER + w + SBGULP)
  {
    GrowTopHeads(h, base, brk, q, w);
    GrowTopLinks(h, base, brk, q, w);
    GrowTiles(h.sizes, base, brk, q, w);
    GrowKeeps(h.sizes, base, brk, h.free, q, w);
  }

  // ----- free -----

  /** No neighbour is free: the block is linked in at entry k. */
  function FreedAlone(h: Image, k: nat, q: nat): Image
    requires k <= |h.free|
  {
    var h1 := Relink(h, Before(h.free, k), q);
    h1.(m := Put(h1.m, q, Link(h.free, k)), free := Insert(h.free, k, q))
  }

  /** Only the upper neighbour, entry k, is free: the block absorbs it and takes its entry. */
  function FreedUpper(h: Image, k: nat, q: nat): Image
    requires k < |h.free| && q in h.sizes && End(h.sizes, q) in h.sizes
  {
    var h1 := h.(m := Put(h.m, q + 1, Merge(h.sizes, q)[q]));
    var h2 := Relink(h1, Before(h.free, k), q);
    Image(Put(h2.m, q, Link(h.free, k + 1)), h2.F, Merge(h.sizes, q), h.free[k := q])
  }

  /** Only the lower neighbour, entry k, is free: it absorbs the block, whose old header
      is left with length 0 and the address of its new owner. */
  function FreedLower(h: Image, k: nat, q: nat): Image
    requires k < |h.free| && h.free[k] in h.sizes && End(h.sizes, h.free[k]) in h.sizes
  {
    var p := h.free[k];
    var h1 := h.(m := Put(Put(Put(h.m, p + 1, Merge(h.sizes, p)[p]), q + 1, 0), q, p));
    Relink(h1, Before(h.free, k), p).(sizes := Merge(h.sizes, p))
  }

  /** Both neighbours, entries k and k + 1, are free: entry k goes. */
  function FreedBoth(h: Image, k: nat, q: nat): Image
    requires k + 1 < |h.free| && q in h.sizes && End(h.sizes, q) in h.sizes
    requires h.free[k + 1] in Merge(h.sizes, q) && End(Merge(h.sizes, q), h.free[k + 1]) in Merge(h.sizes, q)
  {
    var p := h.free[k + 1];
    var up := Merge(h.sizes, q);
    var m1 := Put(h.m, q + 1, up[q]);
    var h1 := h.(m := Put(Put(Put(m1, p + 1, Merge(up, p)[p]), q + 1, 0), q, p));
    Relink(h1, Before(h.free, k), p).(sizes := Merge(up, p), free := Remove(h.free, k))
  }

  /** A block that is not free, with its place in the list. */
  ghost predicate Held(h: Image, base: nat, brk: nat, k: nat, q: nat) {
    Sane(h, base, brk) && q in h.sizes && Place(h.free, k, q)
  }

  lemma HeldCell(h: Image, base: nat, brk: nat, k: nat, q: nat)
    requires Held(h, base, brk, k, q)
    ensures HeadAt(h, q) && base <= q && End(h.sizes, q) <= brk && End(h.sizes, q) <= |h.m|
    ensures forall a | a in h.sizes && a != q :: q != a && q != a + 1 && q + 1 != a && q + 1 != a + 1
    ensures forall i | 0 <= i < |h.free| :: h.free[i] != q
  {
    assert HeadAt(h, q) && Inside(h.sizes, base, brk, q);
    Foreign(h.sizes, base, brk, q, q);
    Foreign(h.sizes, base, brk, q, q + 1);
  }

  lemma FreeAloneHeads(h: Image, base: nat, brk: nat, k: nat, q: nat)
    requires Held(h, base, brk, k, q)
    requires k > 0 ==> End(h.sizes, q) != h.free[k - 1]
    requires k < |h.free| ==> End(h.sizes, h.free[k]) != q
    ensures var h' := FreedAlone(h, k, q);
            forall a {:trigger HeadAt(h', a)} | a in h'.sizes :: HeadAt(h', a)
  {
    var h' := FreedAlone(h, k, q);
    HeldCell(h, base, brk, k, q);
    if k > 0 {
      LinkCell(h, base, brk, k - 1);
    }
    forall a | a in h'.sizes
      ensures HeadAt(h', a)
    {
      assert HeadAt(h, a);
    }
  }

  /** The links after q has entered the list at k, whatever else was written besides. */
  lemma InsertedLink(h: Image, base: nat, brk: nat, k: nat, q: nat, h': Image, i: nat)
    requires Held(h, base, brk, k, q)
    requires h'.free == Insert(h.free, k, q) && |h'.m| == |h.m|
    requires forall x | 0 <= x < |h.m| && x != q && x != Before(h.free, k) :: h'.m[x] == h.m[x]
    requires Get(h'.m, q) == Link(h.free, k) && (k > 0 ==> Get(h'.m, Before(h.free, k)) == q)
    requires i < |h'.free|
    ensures LinkAt(h', i)
  {
    HeldCell(h, base, brk, k, q);
    if i != k {
      LinkCell(h, base, brk, if i < k then i else i - 1);
    }
  }

  lemma FreeAloneLink(h: Image, base: nat, brk: nat, k: nat, q: nat, i: nat)
    requires Held(h, base, brk, k, q)
    requires i < |FreedAlone(h, k, q).free|
    ensures LinkAt(FreedAlone(h, k, q), i)
  {
    HeldCell(h, base, brk, k, q);
    if k > 0 {
      LinkCell(h, base, brk, k - 1);
    }
    InsertedLink(h, base, brk, k, q, FreedAlone(h, k, q), i);
  }

  lemma FreeAloneLinks(h: Image, base: nat, brk: nat, k: nat, q: nat)
    requires Held(h, base, brk, k, q)
    requires k > 0 ==> End(h.sizes, q) != h.free[k - 1]
    requires k < |h.free| ==> End(h.sizes, h.free[k]) != q
    ensures var h' := FreedAlone(h, k, q);
            h'.F == Link(h'.free, 0) && forall i: nat {:trigger LinkAt(h', i)} | i < |h'.free| :: LinkAt(h', i)
  {
    var h' := FreedAlone(h, k, q);
    forall i: nat | i < |h'.free|
      ensures LinkAt(h', i)
    {
      FreeAloneLink(h, base, brk, k, q, i);
    }
  }

  lemma FreeAlone(h: Image, base: nat, brk: nat, k: nat, q: nat)
    requires Held(h, base, brk, k, q)
    requires k > 0 ==> End(h.sizes, q) != h.free[k - 1]
    requires k < |h.free| ==> End(h.sizes, h.free[k]) != q
    ensures Sane(FreedAlone(h, k, q), base, brk)
  {
    FreeAloneHeads(h, base, brk, k, q);
    FreeAloneLinks(h, base, brk, k, q);
    InsertKeeps(h.sizes, base, brk, h.free, k, q);
  }

  lemma FreeUpperHeads(h: Image, base: nat, brk: nat, k: nat, q: nat)
    requires Held(h, base, brk, k + 1, q) && k < |h.free|
    requires End(h.sizes, q) == h.free[k]
    requires k + 1 < |h.free| ==> End(h.sizes, h.free[k + 1]) < q
    ensures var h' := FreedUpper(h, k, q);
            forall a {:trigger HeadAt(h', a)} | a in h'.sizes :: HeadAt(h', a)
  {
    var h' := FreedUpper(h, k, q);
    HeldCell(h, base, brk, k + 1, q);
    LinkCell(h, base, brk, k);
    if k > 0 {
      LinkCell(h, base, brk, k - 1);
    }
    forall a | a in h'.sizes
      ensures HeadAt(h', a)
    {
      assert HeadAt(h, a);
    }
  }

  lemma FreeUpperLink(h: Image, base: nat, brk: nat, k: nat, q: nat, i: nat)
    requires Held(h, base, brk, k + 1, q) && k < |h.free|
    requires End(h.sizes, q) == h.free[k]
    requires k + 1 < |h.free| ==> End(h.sizes, h.free[k + 1]) < q
    requires i < |FreedUpper(h, k, q).free|
    ensures LinkAt(FreedUpper(h, k, q), i)
  {
    var h' := FreedUpper(h, k, q);
    HeldCell(h, base, brk, k + 1, q);
    LinkCell(h, base, brk, k);
    if k > 0 {
      LinkCell(h, base, brk, k - 1);
    }
    LinkCell(h, base, brk, i);
  }

  lemma FreeUpperLinks(h: Image, base: nat, brk: nat, k: nat, q: nat)
    requires Held(h, base, brk, k + 1, q) && k < |h.free|
    requires End(h.sizes, q) == h.free[k]
    requires k + 1 < |h.free| ==> End(h.sizes, h.free[k + 1]) < q
    ensures var h' := FreedUpper(h, k, q);
            h'.F == Link(h'.free, 0) && forall i: nat {:trigger LinkAt(h', i)} | i < |h'.free| :: LinkAt(h', i)
  {
    var h' := FreedUpper(h, k, q);
    forall i: nat | i < |h'.free|
      ensures LinkAt(h', i)
    {
      FreeUpperLink(h, base, brk, k, q, i);
    }
  }

  lemma FreeUpper(h: Image, base: nat, brk: nat, k: nat, q: nat)
    requires Held(h, base, brk, k + 1, q) && k < |h.free|
    requires End(h.sizes, q) == h.free[k]
    requires k + 1 < |h.free| ==> End(h.sizes, h.free[k + 1]) < q
    ensures Sane(FreedUpper(h, k, q), base, brk)
  {
    FreeUpperHeads(h, base, brk, k, q);
    FreeUpperLinks(h, base, brk, k, q);
    MergeTiles(h.sizes, base, brk, q);
    UpperKeeps(h.sizes, h.free, k, q);
  }

  lemma FreeLowerHeads(h: Image, base: nat, brk: nat, k: nat, q: nat)
    requires Held(h, base, brk, k, q) && k < |h.free|
    requires End(h.sizes, h.free[k]) == q
    requires k > 0 ==> End(h.sizes, q) != h.free[k - 1]
    ensures var h' := FreedLower(h, k, q);
            forall a {:trigger HeadAt(h', a)} | a in h'.sizes :: HeadAt(h', a)
  {
    var h' := FreedLower(h, k, q);
    HeldCell(h, base, brk, k, q);
    LinkCell(h, base, brk, k);
    if k > 0 {
      LinkCell(h, base, brk, k - 1);
    }
    forall a | a in h'.sizes
      ensures HeadAt(h', a)
    {
      assert HeadAt(h, a);
    }
  }

  lemma FreeLowerLink(h: Image, base: nat, brk: nat, k: nat, q: nat, i: nat)
    requires Held(h, base, brk, k, q) && k < |h.free|
    requires End(h.sizes, h.free[k]) == q
    requires k > 0 ==> End(h.sizes, q) != h.free[k - 1]
    requires i < |FreedLower(h, k, q).free|
    ensures LinkAt(FreedLower(h, k, q), i)
  {
    var h' := FreedLower(h, k, q);
    HeldCell(h, base, brk, k, q);
    LinkCell(h, base, brk, k);
    if k > 0 {
      LinkCell(h, base, brk, k - 1);
    }
    LinkCell(h, base, brk, i);
  }

  lemma FreeLowerLinks(h: Image, base: nat, brk: nat, k: nat, q: nat)
    requires Held(h, base, brk, k, q) && k < |h.free|
    requires End(h.sizes, h.free[k]) == q
    requires k > 0 ==> End(h.sizes, q) != h.free[k - 1]
    ensures var h' := FreedLower(h, k, q);
            h'.F == Link(h'.free, 0) && forall i: nat {:trigger LinkAt(h', i)} | i < |h'.free| :: LinkAt(h', i)
  {
    var h' := FreedLower(h, k, q);
    forall i: nat | i < |h'.free|
      ensures LinkAt(h', i)
    {
      FreeLowerLink(h, base, brk, k, q, i);
    }
  }

  lemma FreeLower(h: Image, base: nat, brk: nat, k: nat, q: nat)
    requires Held(h, base, brk, k, q) && k < |h.free|
    requires End(h.sizes, h.free[k]) == q
    requires k > 0 ==> End(h.sizes, q) != h.free[k - 1]
    ensures Sane(FreedLower(h, k, q), base, brk)
  {
    FreeLowerHeads(h, base, brk, k, q);
    FreeLowerLinks(h, base, brk, k, q);
    MergeTiles(h.sizes, base, brk, h.free[k]);
    LowerKeeps(h.sizes, base, brk, h.free, k, q);
  }

  lemma FreeBothHeads(h: Image, base: nat, brk: nat, k: nat, q: nat)
    requires Held(h, base, brk, k + 1, q) && k + 1 < |h.free|
    requires End(h.sizes, q) == h.free[k] && End(h.sizes, h.free[k + 1]) == q
    ensures var h' := FreedBoth(h, k, q);
            forall a {:trigger HeadAt(h', a)} | a in h'.sizes :: HeadAt(h', a)
  {
    var h' := FreedBoth(h, k, q);
    HeldCell(h, base, brk, k + 1, q);
    LinkCell(h, base, brk, k);
    LinkCell(h, base, brk, k + 1);
    if k > 0 {
      LinkCell(h, base, brk, k - 1);
    }
    forall a | a in h'.sizes
      ensures HeadAt(h', a)
    {
      assert HeadAt(h, a);
    }
  }

  /** The words FreedBoth writes. */
  lemma FreedBothWords(h: Image, k: nat, q: nat)
    requires k + 1 < |h.free| && q in h.sizes && End(h.sizes, q) in h.sizes
    requires h.free[k + 1] in Merge(h.sizes, q) && End(Merge(h.sizes, q), h.free[k + 1]) in Merge(h.sizes, q)
    ensures var m' := FreedBoth(h, k, q).m;
            var r := Before(h.free, k);
            && |m'| == |h.m|
            && (forall x | 0 <= x < |m'| && x !in {q, q + 1, h.free[k + 1] + 1, r} :: m'[x] == h.m[x])
            && (0 < r < |m'| ==> m'[r] == h.free[k + 1])
            && (0 <= q && q + 1 < |m'| && q != r && q + 1 != r ==> m'[q] == h.free[k + 1] && m'[q + 1] == 0)
  {}

  /** The links after entry k has left the list, if only the link to it and words that are no
      links have been written. */
  lemma RemovedLink(h: Image, base: nat, brk: nat, k: nat, h': Image, i: nat)
    requires Sane(h, base, brk) && k < |h.free|
    requires h'.free == Remove(h.free, k) && |h'.m| == |h.m|
    requires forall j | 0 <= j < |h.free| && j + 1 != k && h.free[j] < |h.m| :: h'.m[h.free[j]] == h.m[h.free[j]]
    requires k > 0 ==> h.free[k - 1] < |h.m| && h'.m[h.free[k - 1]] == Link(h.free, k + 1)
    requires i < |h'.free|
    ensures LinkAt(h', i)
  {
    var j := if i < k then i else i + 1;
    assert LinkAt(h, j) && h'.free[i] == h.free[j];
  }

  lemma FreeBothLink(h: Image, base: nat, brk: nat, k: nat, q: nat, i: nat)
    requires Held(h, base, brk, k + 1, q) && k + 1 < |h.free|
    requires End(h.sizes, q) == h.free[k] && End(h.sizes, h.free[k + 1]) == q
    requires i < |FreedBoth(h, k, q).free|
    ensures LinkAt(FreedBoth(h, k, q), i)
  {
    var h' := FreedBoth(h, k, q);
    FreedBothWords(h, k, q);
    HeldCell(h, base, brk, k + 1, q);
    LinkCell(h, base, brk, k + 1);
    if k > 0 {
      LinkCell(h, base, brk, k - 1);
    }
    forall j | 0 <= j < |h.free| && j + 1 != k && h.free[j] < |h.m|
      ensures h'.m[h.free[j]] == h.m[h.free[j]]
    {
      assert k > 0 ==> h.free[j] != h.free[k - 1];
    }
    RemovedLink(h, base, brk, k, h', i);
  }

  lemma FreeBothLinks(h: Image, base: nat, brk: nat, k: nat, q: nat)
    requires Held(h, base, brk, k + 1, q) && k + 1 < |h.free|
    requires End(h.sizes, q) == h.free[k] && End(h.sizes, h.free[k + 1]) == q
    ensures var h' := FreedBoth(h, k, q);
            h'.F == Link(h'.free, 0) && forall i: nat {:trigger LinkAt(h', i)} | i < |h'.free| :: LinkAt(h', i)
  {
    var h' := FreedBoth(h, k, q);
    forall i: nat | i < |h'.free|
      ensures LinkAt(h', i)
    {
      FreeBothLink(h, base, brk, k, q, i);
    }
  }

  lemma FreeBoth(h: Image, base: nat, brk: nat, k: nat, q: nat)
    requires Held(h, base, brk, k + 1, q) && k + 1 < |h.free|
    requires End(h.sizes, q) == h.free[k] && End(h.sizes, h.free[k + 1]) == q
    ensures Sane(FreedBoth(h, k, q), base, brk)
  {
    FreeBothHeads(h, base, brk, k, q);
    FreeBothLinks(h, base, brk, k, q);
    MergeTiles(h.sizes, base, brk, q);
    MergeTiles(Merge(h.sizes, q), base, brk, h.free[k + 1]);
    BothKeeps(h.sizes, h.free, k, q);
  }

  // ----- conservation -----

  /** Blocks that are neither free nor held by the caller. */
  function Lost(h: Image, live: set<nat>): set<nat> {
    set a | a in h.sizes && a !in live && a !in h.free
  }

  lemma TakeWholeLoses(h: Image, base: nat, brk: nat, k: nat, live: set<nat>)
    requires Sane(h, base, brk) && k < |h.free|
    ensures Lost(TakenWhole(h, k), live + {h.free[k]}) == Lost(h, live)
  {
    var h' := TakenWhole(h, k);
    forall a: nat
      ensures a in h'.free || a == h.free[k] <==> a in h.free
    {
      if a in h.free {
        var i :| 0 <= i < |h.free| && h.free[i] == a;
        assert i != k ==> h'.free[if i < k then i else i - 1] == a;
      }
    }
  }

  lemma TakeSplitLoses(h: Image, base: nat, brk: nat, k: nat, w: nat, live: set<nat>)
    requires Sane(h, base, brk) && k < |h.free| && w + HEADER <= h.sizes[h.free[k]] && live <= h.sizes.Keys
    ensures Lost(TakenSplit(h, k, w), live + {h.free[k]}) == Lost(h, live)
  {
    var h' := TakenSplit(h, k, w);
    var p := h.free[k] + HEADER + w;
    SplitTiles(h.sizes, base, brk, h.free[k], w);
    forall a: nat
      ensures a in h'.free || a == h.free[k] <==> a in h.free || a == p
    {
      assert h'.free[k] == p;
      if a in h.free {
        var i :| 0 <= i < |h.free| && h.free[i] == a;
        assert i != k ==> h'.free[i] == a;
      }
    }
  }

  // ----- payloads -----

  /** Every payload word of h is as it was, except those of block q from word w of its payload on. */
  ghost predicate Keeps(h: Image, m': seq<int>, q: nat, w: nat) {
    |m'| == |h.m|
    && forall a, x {:trigger Payload(h.sizes, a, x)} |
         Payload(h.sizes, a, x) && (a != q || x < q + HEADER + w) && 0 <= x < |h.m| :: m'[x] == h.m[x]
  }

  lemma HeaderWords(sizes: Sizes, base: nat, brk: nat, c: nat)
    requires Tiling(sizes, base, brk) && c in sizes
    ensures forall a, x {:trigger Payload(sizes, a, x)} | Payload(sizes, a, x) :: x != c && x != c + 1
  {
    Foreign(sizes, base, brk, c, c);
    Foreign(sizes, base, brk, c, c + 1);
  }

  lemma LinkWords(h: Image, base: nat, brk: nat, k: nat)
    requires Sane(h, base, brk) && k <= |h.free|
    ensures k > 0 ==> forall a, x {:trigger Payload(h.sizes, a, x)} | Payload(h.sizes, a, x) :: x != Before(h.free, k)
  {
    if k > 0 {
      HeaderWords(h.sizes, base, brk, h.free[k - 1]);
    }
  }

  lemma TakeWholeKeeps(h: Image, base: nat, brk: nat, k: nat, w: nat)
    requires Sane(h, base, brk) && k < |h.free|
    ensures Keeps(h, TakenWhole(h, k).m, h.free[k], w)
  {
    LinkWords(h, base, brk, k);
  }

  lemma TakeSplitKeeps(h: Image, base: nat, brk: nat, k: nat, w: nat)
    requires Sane(h, base, brk) && k < |h.free| && w + HEADER <= h.sizes[h.free[k]]
    ensures Keeps(h, TakenSplit(h, k, w).m, h.free[k], w)
  {
    var q := h.free[k];
    LinkWords(h, base, brk, k);
    HeaderWords(h.sizes, base, brk, q);
    Foreign(h.sizes, base, brk, q, q + HEADER + w);
    Foreign(h.sizes, base, brk, q, q + HEADER + w + 1);
  }

  lemma GrowTopKeeps(h: Image, base: nat, brk: nat, q: nat, w: nat)
    requires Sane(h, base, brk)
    requires q == brk || (h.free != [] && q == h.free[0] && End(h.sizes, q) == brk && h.sizes[q] <= w)
    ensures Keeps(h, Grown(h, brk, q, w).m, q, w)
  {
    forall a | a in h.sizes
      ensures End(h.sizes, a) <= brk
    {
      assert Inside(h.sizes, base, brk, a);
    }
    if q in h.sizes {
      HeaderWords(h.sizes, base, brk, q);
    }
  }

  lemma FreeAloneKeeps(h: Image, base: nat, brk: nat, k: nat, q: nat)
    requires Held(h, base, brk, k, q)
    ensures Keeps(h, FreedAlone(h, k, q).m, q, h.sizes[q])
  {
    LinkWords(h, base, brk, k);
    HeaderWords(h.sizes, base, brk, q);
  }

  lemma FreeUpperKeeps(h: Image, base: nat, brk: nat, k: nat, q: nat)
    requires Held(h, base, brk, k + 1, q) && k < |h.free| && End(h.sizes, q) == h.free[k]
    ensures Keeps(h, FreedUpper(h, k, q).m, q, h.sizes[q])
  {
    LinkWords(h, base, brk, k);
    HeaderWords(h.sizes, base, brk, q);
  }

  lemma FreeLowerKeeps(h: Image, base: nat, brk: nat, k: nat, q: nat)
    requires Held(h, base, brk, k, q) && k < |h.free| && End(h.sizes, h.free[k]) == q
    ensures Keeps(h, FreedLower(h, k, q).m, q, h.sizes[q])
  {
    LinkWords(h, base, brk, k);
    HeaderWords(h.sizes, base, brk, q);
    HeaderWords(h.sizes, base, brk, h.free[k]);
  }

  lemma FreeBothKeeps(h: Image, base: nat, brk: nat, k: nat, q: nat)
    requires Held(h, base, brk, k + 1, q) && k + 1 < |h.free|
    requires End(h.sizes, q) == h.free[k] && End(h.sizes, h.free[k + 1]) == q
    ensures Keeps(h, FreedBoth(h, k, q).m, q, h.sizes[q])
  {
    FreedBothWords(h, k, q);
    LinkWords(h, base, brk, k);
    HeaderWords(h.sizes, base, brk, q);
    HeaderWords(h.sizes, base, brk, h.free[k + 1]);
  }

  // ----- what the callers see -----

  /** A sane heap in which the blocks the caller holds are not free. */
  ghost predicate Sound(h: Image, base: nat, brk: nat, live: set<nat>) {
    && Sane(h, base, brk)
    && live <= h.sizes.Keys
    && (forall i | 0 <= i < |h.free| :: h.free[i] !in live)
  }

  /** Block q with at least w words has become the caller's; no other block has changed its
      length unless it was made from memory that was free or new, and no payload word has
      changed except those of q from its w-th on. */
  ghost predicate Allocated(h: Image, live: set<nat>, h': Image, live': set<nat>, q: nat, w: nat) {
    && q !in live && live' == live + {q}
    && q in h'.sizes && h'.sizes[q] >= w
    && (forall a | a in h.sizes && a != q :: a in h'.sizes && h'.sizes[a] == h.sizes[a])
    && Lost(h', live') == Lost(h, live)
    && Keeps(h, h'.m, q, w)
  }

  lemma WholeAllocated(h: Image, base: nat, brk: nat, live: set<nat>, k: nat, w: nat)
    requires Sound(h, base, brk, live) && k < |h.free| && h.sizes[h.free[k]] >= w
    ensures Sound(TakenWhole(h, k), base, brk, live + {h.free[k]})
    ensures Allocated(h, live, TakenWhole(h, k), live + {h.free[k]}, h.free[k], w)
  {
    TakeWhole(h, base, brk, k);
    TakeWholeKeeps(h, base, brk, k, w);
    TakeWholeLoses(h, base, brk, k, live);
    RemoveKeeps(h.sizes, h.free, k);
  }

  lemma SplitAllocated(h: Image, base: nat, brk: nat, live: set<nat>, k: nat, w: nat)
    requires Sound(h, base, brk, live) && k < |h.free| && h.sizes[h.free[k]] >= w + HEADER
    ensures Sound(TakenSplit(h, k, w), base, brk, live + {h.free[k]})
    ensures Allocated(h, live, TakenSplit(h, k, w), live + {h.free[k]}, h.free[k], w)
  {
    TakeSplit(h, base, brk, k, w);
    TakeSplitKeeps(h, base, brk, k, w);
    TakeSplitLoses(h, base, brk, k, w, live);
    SplitTiles(h.sizes, base, brk, h.free[k], w);
    SplitKeeps(h.sizes, base, brk, h.free, k, w);
  }

  lemma GrownLoses(h: Image, base: nat, brk: nat, q: nat, w: nat, live: set<nat>)
    requires Sane(h, base, brk) && live <= h.sizes.Keys
    requires q == brk || (h.free != [] && q == h.free[0] && End(h.sizes, q) == brk && h.sizes[q] <= w)
    ensures Lost(Grown(h, brk, q, w), live + {q}) == Lost(h, live)
  {
    var h' := Grown(h, brk, q, w);
    var r := q + HEADER + w;
    GrowTiles(h.sizes, base, brk, q, w);
    forall a: nat
      ensures a in h'.free || (a == q && q != brk) <==> a in h.free || a == r
    {
      assert h'.free[0] == r;
      if a in h.free {
        var i :| 0 <= i < |h.free| && h.free[i] == a;
        assert if q == brk then h'.free[i + 1] == a else i == 0 || h'.free[i] == a;
      }
    }
  }

  lemma GrownAllocated(h: Image, base: nat, brk: nat, live: set<nat>, q: nat, w: nat)
    requires Sound(h, base, brk, live) && q + HEADER + w + SBGULP <= |h.m|
    requires q == brk || (h.free != [] && q == h.free[0] && End(h.sizes, q) == brk && h.sizes[q] <= w)
    ensures Sound(Grown(h, brk, q, w), base, q + HEADER + w + SBGULP, live + {q})
    ensures Allocated(h, live, Grown(h, brk, q, w), live + {q}, q, w)
  {
    GrowTiles(h.sizes, base, brk, q, w);
    GrowTop(h, base, brk, q, w);
    GrowTopKeeps(h, base, brk, q, w);
    GrownLoses(h, base, brk, q, w, live);
    GrowKeeps(h.sizes, base, brk, h.free, q, w);
  }

  /** Block q has become free: it lies inside the free block g of h'. If g is not q, the old
      header of q has length 0 and the address of g. No payload word has changed. */
  ghost predicate Released(h: Image, live: set<nat>, h': Image, live': set<nat>, q: nat, g: nat) {
    && q in h.sizes && live' == live - {q}
    && g in h'.free && g in h'.sizes && g <= q && End(h.sizes, q) <= End(h'.sizes, g)
    && q + 1 < |h'.m|
    && (g != q ==> h'.m[q + 1] == 0 && h'.m[q] == g)
    && (forall a | a in live' :: a in h.sizes && a in h'.sizes && h'.sizes[a] == h.sizes[a])
    && Lost(h', live') == Lost(h, live)
    && Keeps(h, h'.m, q, h.sizes[q])
  }

  /** h' has the entries of h, without those in gone and with those in come. */
  lemma LostSame(h: Image, live: set<nat>, h': Image, q: nat, gone: set<nat>, come: set<nat>)
    requires forall a: nat :: a in h'.free <==> (a in h.free && a !in gone) || a in come
    requires h'.sizes.Keys == h.sizes.Keys - (gone + {q}) + come
    requires q in live && come <= {q} && (q !in come ==> q !in h'.sizes)
    requires forall a | a in gone :: a in h.free
    requires forall a | a in h.free :: a !in live
    ensures Lost(h', live - {q}) == Lost(h, live)
  {}

  lemma AloneReleased(h: Image, base: nat, brk: nat, live: set<nat>, k: nat, q: nat)
    requires Sound(h, base, brk, live) && q in live && Place(h.free, k, q)
    requires k > 0 ==> End(h.sizes, q) != h.free[k - 1]
    requires k < |h.free| ==> End(h.sizes, h.free[k]) != q
    ensures var h' := FreedAlone(h, k, q);
            Sound(h', base, brk, live - {q}) && Released(h, live, h', live - {q}, q, q)
  {
    var h' := FreedAlone(h, k, q);
    FreeAlone(h, base, brk, k, q);
    FreeAloneKeeps(h, base, brk, k, q);
    HeldCell(h, base, brk, k, q);
    InsertHas(h.free, k, q);
    LostSame(h, live, h', q, {}, {q});
  }

  lemma InsertHas(free: seq<nat>, k: nat, q: nat)
    requires k <= |free|
    ensures forall a: nat :: a in Insert(free, k, q) <==> a in free || a == q
  {
    var r := Insert(free, k, q);
    assert r[k] == q;
    forall a: nat
      ensures a in r <==> a in free || a == q
    {
      if a in free {
        var i :| 0 <= i < |free| && free[i] == a;
        assert r[if i < k then i else i + 1] == a;
      }
    }
  }

  lemma UpperReleased(h: Image, base: nat, brk: nat, live: set<nat>, k: nat, q: nat)
    requires Sound(h, base, brk, live) && q in live && k < |h.free| && Place(h.free, k + 1, q)
    requires End(h.sizes, q) == h.free[k]
    requires k + 1 < |h.free| ==> End(h.sizes, h.free[k + 1]) < q
    ensures var h' := FreedUpper(h, k, q);
            Sound(h', base, brk, live - {q}) && Released(h, live, h', live - {q}, q, q)
  {
    var h' := FreedUpper(h, k, q);
    FreeUpper(h, base, brk, k, q);
    FreeUpperKeeps(h, base, brk, k, q);
    HeldCell(h, base, brk, k + 1, q);
    LinkCell(h, base, brk, k);
    assert h'.free[k] == q;
    forall a: nat
      ensures a in h'.free <==> (a in h.free && a != h.free[k]) || a == q
    {
      if a in h.free {
        var i :| 0 <= i < |h.free| && h.free[i] == a;
        assert i != k ==> h'.free[i] == a;
      }
    }
    LostSame(h, live, h', q, {h.free[k]}, {q});
  }

  lemma LowerReleased(h: Image, base: nat, brk: nat, live: set<nat>, k: nat, q: nat)
    requires Sound(h, base, brk, live) && q in live && k < |h.free| && Place(h.free, k, q)
    requires End(h.sizes, h.free[k]) == q
    requires k > 0 ==> End(h.sizes, q) != h.free[k - 1]
    ensures var h' := FreedLower(h, k, q);
            Sound(h', base, brk, live - {q}) && Released(h, live, h', live - {q}, q, h.free[k])
  {
    var h' := FreedLower(h, k, q);
    FreeLower(h, base, brk, k, q);
    FreeLowerKeeps(h, base, brk, k, q);
    HeldCell(h, base, brk, k, q);
    LinkCell(h, base, brk, k);
    if k > 0 {
      LinkCell(h, base, brk, k - 1);
    }
    LostSame(h, live, h', q, {}, {});
  }

  lemma RemoveMembers(free: seq<nat>, k: nat)
    requires k < |free| && forall i | 0 <= i < |free| && i != k :: free[i] != free[k]
    ensures forall a: nat :: a in Remove(free, k) <==> a in free && a != free[k]
  {
    forall a: nat
      ensures a in Remove(free, k) <==> a in free && a != free[k]
    {
      if a in free {
        var i :| 0 <= i < |free| && free[i] == a;
        assert i != k ==> Remove(free, k)[if i < k then i else i - 1] == a;
      }
    }
  }

  lemma BothLoses(h: Image, base: nat, brk: nat, live: set<nat>, k: nat, q: nat)
    requires Sound(h, base, brk, live) && q in live && k + 1 < |h.free| && Place(h.free, k + 1, q)
    requires End(h.sizes, q) == h.free[k] && End(h.sizes, h.free[k + 1]) == q
    ensures Lost(FreedBoth(h, k, q), live - {q}) == Lost(h, live)
    ensures h.free[k + 1] in FreedBoth(h, k, q).free
    ensures forall i | 0 <= i < |h.free| - 1 :: FreedBoth(h, k, q).free[i] in h.free
  {
    var h' := FreedBoth(h, k, q);
    LinkCell(h, base, brk, k);
    RemoveMembers(h.free, k);
    HeldCell(h, base, brk, k + 1, q);
    assert h.free[k] != h.free[k + 1];
    LostSame(h, live, h', q, {h.free[k]}, {});
  }

  lemma BothReleased(h: Image, base: nat, brk: nat, live: set<nat>, k: nat, q: nat)
    requires Sound(h, base, brk, live) && q in live && k + 1 < |h.free| && Place(h.free, k + 1, q)
    requires End(h.sizes, q) == h.free[k] && End(h.sizes, h.free[k + 1]) == q
    ensures var h' := FreedBoth(h, k, q);
            Sound(h', base, brk, live - {q}) && Released(h, live, h', live - {q}, q, h.free[k + 1])
  {
    FreeBoth(h, base, brk, k, q);
    FreeBothKeeps(h, base, brk, k, q);
    BothLoses(h, base, brk, live, k, q);
    FreedBothWords(h, k, q);
    HeldCell(h, base, brk, k + 1, q);
    LinkCell(h, base, brk, k + 1);
    assert q != Before(h.free, k) && q + 1 != Before(h.free, k) by {
      if k > 0 {
        LinkCell(h, base, brk, k - 1);
      }
    }
  }

  /** What free writes when the block joins its lower neighbour p: r->next is written last. */
  function Joined(m: seq<int>, q: nat, p: nat, r: nat): seq<int> {
    var m1 := Put(Put(Put(m, p + 1, Get(m, p + 1) + HEADER + Get(m, q + 1)), q + 1, 0), q, p);
    if r == 0 then m1 else Put(m1, r, p)
  }

  lemma JoinedIsLower(h: Image, base: nat, brk: nat, k: nat, q: nat)
    requires Held(h, base, brk, k, q) && k < |h.free| && End(h.sizes, h.free[k]) == q
    ensures FreedLower(h, k, q) == Image(Joined(h.m, q, h.free[k], Before(h.free, k)),
                                         if k == 0 then h.free[0] else h.F, Merge(h.sizes, h.free[k]), h.free)
  {
    LinkCell(h, base, brk, k);
    HeldCell(h, base, brk, k, q);
    if k > 0 {
      LinkCell(h, base, brk, k - 1);
    }
  }

  lemma JoinedIsBoth(h: Image, base: nat, brk: nat, k: nat, q: nat)
    requires Held(h, base, brk, k + 1, q) && k + 1 < |h.free|
    requires End(h.sizes, q) == h.free[k] && End(h.sizes, h.free[k + 1]) == q
    ensures var p := h.free[k + 1];
            var up := Merge(h.sizes, q);
            FreedBoth(h, k, q) == Image(Joined(Put(h.m, q + 1, up[q]), q, p, Before(h.free, k)),
                                        if k == 0 then p else h.F, Merge(up, p), Remove(h.free, k))
  {
    var p := h.free[k + 1];
    JoinedLengths(h, base, brk, k, q);
    Entries(h, base, brk, k, k + 1);
    if k > 0 {
      Entries(h, base, brk, k - 1, k + 1);
    }
  }

  lemma JoinedLengths(h: Image, base: nat, brk: nat, k: nat, q: nat)
    requires Held(h, base, brk, k + 1, q) && k + 1 < |h.free|
    requires End(h.sizes, q) == h.free[k] && End(h.sizes, h.free[k + 1]) == q
    ensures var p, up := h.free[k + 1], Merge(h.sizes, q);
            var m1 := Put(h.m, q + 1, up[q]);
            && p in up && End(up, p) in up
            && Merge(up, p)[p] == Get(m1, p + 1) + HEADER + Get(m1, q + 1)
  {
    LinkCell(h, base, brk, k + 1);
    HeldCell(h, base, brk, k + 1, q);
    var m1 := Put(h.m, q + 1, Merge(h.sizes, q)[q]);
    assert Get(m1, h.free[k + 1] + 1) == h.sizes[h.free[k + 1]];
  }

  /** What the comparisons of free's loop mean at entry k, when all entries before it lie
      above q and are not its upper neighbour. */
  lemma LoopFacts(h: Image, base: nat, brk: nat, live: set<nat>, k: nat, q: nat)
    requires Sound(h, base, brk, live) && q in live && k <= |h.free|
    requires forall i | 0 <= i < k :: q < h.free[i] && h.free[i] != End(h.sizes, q)
    ensures k == |h.free| ==> Place(h.free, k, q)
    ensures k < |h.free| && End(h.sizes, h.free[k]) <= q ==> Place(h.free, k, q)
    ensures k < |h.free| && End(h.sizes, h.free[k]) > q ==> q < h.free[k]
    ensures k < |h.free| && End(h.sizes, q) == h.free[k] ==> Place(h.free, k + 1, q)
    ensures k + 1 < |h.free| && End(h.sizes, q) == h.free[k] ==> End(h.sizes, h.free[k + 1]) <= q
  {
    if k < |h.free| {
      assert Apart(h.sizes, h.free[k], q) && Apart(h.sizes, q, h.free[k]);
    }
    if k + 1 < |h.free| {
      assert Apart(h.sizes, h.free[k + 1], q) && Apart(h.sizes, q, h.free[k + 1]);
    }
  }

  // ----- copying payloads -----

  /** m with the n words from s copied to d. */
  function Blit(m: seq<int>, d: nat, s: nat, n: nat): (r: seq<int>)
    requires d + n <= |m| && s + n <= |m|
    ensures |r| == |m| && forall x | 0 <= x < |m| :: r[x] == if d <= x < d + n then m[s + x - d] else m[x]
  {
    seq(|m|, x requires 0 <= x < |m| => if d <= x < d + n then m[s + x - d] else m[x])
  }

  /** Writing inside the payload of block b disturbs no header and no other block. */
  lemma BlitKeeps(h: Image, base: nat, brk: nat, b: nat, d: nat, s: nat, n: nat)
    requires Sane(h, base, brk) && b in h.sizes && b + HEADER <= d && d + n <= End(h.sizes, b)
    requires d + n <= |h.m| && s + n <= |h.m|
    ensures forall a, x {:trigger Payload(h.sizes, a, x)} |
              Payload(h.sizes, a, x) && a != b && 0 <= x < |h.m| :: Blit(h.m, d, s, n)[x] == h.m[x]
    ensures forall a | a in h.sizes && a + 1 < |h.m| ::
              Blit(h.m, d, s, n)[a] == h.m[a] && Blit(h.m, d, s, n)[a + 1] == h.m[a + 1]
  {
    forall a | a in h.sizes
      ensures a == b || End(h.sizes, a) <= b || End(h.sizes, b) <= a
    {
      assert Apart(h.sizes, a, b) && Apart(h.sizes, b, a);
    }
  }

  lemma BlitSound(h: Image, base: nat, brk: nat, live: set<nat>, b: nat, d: nat, s: nat, n: nat)
    requires Sound(h, base, brk, live) && b in h.sizes && b + HEADER <= d && d + n <= End(h.sizes, b)
    requires d + n <= |h.m| && s + n <= |h.m|
    ensures Sound(h.(m := Blit(h.m, d, s, n)), base, brk, live)
  {
    var h' := h.(m := Blit(h.m, d, s, n));
    BlitKeeps(h, base, brk, b, d, s, n);
    forall a | a in h'.sizes
      ensures HeadAt(h', a)
    {
      assert HeadAt(h, a);
    }
    forall i: nat | i < |h'.free|
      ensures LinkAt(h', i)
    {
      LinkCell(h, base, brk, i);
    }
  }

  /** Blocks held by the caller keep their lengths and every word. */
  ghost predicate LiveKept(h: Image, live: set<nat>, h': Image) {
    && |h'.m| == |h.m|
    && (forall a | a in live && a in h.sizes :: a in h'.sizes && h'.sizes[a] == h.sizes[a])
    && (forall a, x {:trigger Payload(h.sizes, a, x)} |
          a in live && Payload(h.sizes, a, x) && 0 <= x < |h.m| :: h'.m[x] == h.m[x])
  }

  /** The n words from d of m' are those from s of m. */
  predicate Carries(m: seq<int>, s: nat, m': seq<int>, d: nat, n: nat) {
    s + n <= |m| && d + n <= |m'| && forall x | d <= x < d + n :: m'[x] == m[s + x - d]
  }

  lemma KeptKept(h: Image, h1: Image, h2: Image, live: set<nat>)
    requires LiveKept(h, live, h1) && LiveKept(h1, live, h2)
    ensures LiveKept(h, live, h2)
  {
    forall a, x {:trigger Payload(h.sizes, a, x)} | a in live && Payload(h.sizes, a, x) && 0 <= x < |h.m|
      ensures h2.m[x] == h.m[x]
    {
      assert Payload(h1.sizes, a, x);
    }
  }

  lemma ReleasedKept(h: Image, live: set<nat>, h1: Image, live1: set<nat>, q: nat, g: nat)
    requires Released(h, live, h1, live1, q, g)
    ensures LiveKept(h, live1, h1)
  {}

  lemma AllocatedKept(h: Image, live: set<nat>, h1: Image, live1: set<nat>, q: nat, w: nat)
    requires Allocated(h, live, h1, live1, q, w)
    ensures LiveKept(h, live, h1)
  {}

  lemma BlitKept(h: Image, base: nat, brk: nat, live: set<nat>, b: nat, d: nat, s: nat, n: nat)
    requires Sane(h, base, brk) && b in h.sizes && b + HEADER <= d && d + n <= End(h.sizes, b)
    requires d + n <= |h.m| && s + n <= |h.m| && b !in live
    ensures LiveKept(h, live, h.(m := Blit(h.m, d, s, n)))
  {
    BlitKeeps(h, base, brk, b, d, s, n);
  }

  lemma CarriesOn(m: seq<int>, s: nat, m1: seq<int>, d: nat, m2: seq<int>, d2: nat, n: nat)
    requires Carries(m, s, m1, d, n) && Carries(m1, d, m2, d2, n)
    ensures Carries(m, s, m2, d2, n)
  {}

  /** The payload of q is still where it was after free, which is inside the payload of g. */
  lemma ReleasedCarries(h: Image, base: nat, brk: nat, live: set<nat>, h1: Image, live1: set<nat>,
                        q: nat, g: nat, n: nat)
    requires Sane(h, base, brk) && Sane(h1, base, brk) && Released(h, live, h1, live1, q, g) && n <= h.sizes[q]
    ensures Carries(h.m, q + HEADER, h1.m, q + HEADER, n)
    ensures g + HEADER + n <= End(h1.sizes, g) <= |h1.m|
  {
    assert Inside(h1.sizes, base, brk, g) && Inside(h.sizes, base, brk, q);
    forall x | q + HEADER <= x < q + HEADER + n
      ensures h1.m[x] == h.m[x]
    {
      assert Payload(h.sizes, q, x);
    }
  }

  /** Wherever malloc puts the new block, the payload at the start of g is still there. */
  lemma AllocatedCarries(h: Image, base: nat, brk: nat, h1: Image, brk1: nat, live: set<nat>, live1: set<nat>,
                         q: nat, w: nat, g: nat, n: nat)
    requires Sane(h, base, brk) && Sane(h1, base, brk1) && Allocated(h, live, h1, live1, q, w)
    requires g in h.sizes && g + HEADER + n <= End(h.sizes, g) <= |h.m| && n <= w
    ensures Carries(h.m, g + HEADER, h1.m, g + HEADER, n)
    ensures q + HEADER + n <= End(h1.sizes, q) <= |h1.m|
  {
    assert Inside(h1.sizes, base, brk1, q);
    forall x | g + HEADER <= x < g + HEADER + n
      ensures h1.m[x] == h.m[x]
    {
      assert Payload(h.sizes, g, x);
    }
  }
}
