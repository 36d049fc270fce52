// malloc, free and realloc of src/malloc.c over one memory that holds both the
// headers and the payloads. Addresses count 8-byte words; address 0 is NULL.
module Heap {
  import opened HeapTiling
  import opened HeapImage

  /** Words a request of size bytes is rounded up to. */
  function Words(size: nat): nat { (size + 7) / 8 }

  /** A block of s words, of 8 bytes each, has room for size bytes exactly if it has for the words. */
  lemma WordsFit(size: nat, s: nat)
    ensures s >= Words(size) <==> 8 * s >= size
    ensures 8 * Words(size) < size + 8
    ensures s >= Words(size) + 6 <==> 8 * s >= size + 48
  {}

  function Min(a: nat, b: nat): nat { if a < b then a else b }

  /** Lengths fit the unsigned of the search loop, requests the int argument of sbrk. */
  const MEMORY_LIMIT: nat := 0x2000_0000
  const SIZE_LIMIT: nat := 0x8000_0000 - 8 * (SBGULP + HEADER) - 8

  /** Every word that holds a byte of the first size bytes of a block of len words at s has been carried to d. */
  ghost predicate Survives(m: seq<int>, s: nat, m': seq<int>, d: nat, len: nat, size: nat) {
    forall i: nat {:trigger Moved(m, s, m', d, i)} | i < len && 8 * i < size :: Moved(m, s, m', d, i)
  }

  ghost predicate Moved(m: seq<int>, s: nat, m': seq<int>, d: nat, i: nat) {
    s + i < |m| && d + i < |m'| && m'[d + i] == m[s + i]
  }

  lemma WordsSurvive(m: seq<int>, s: nat, m': seq<int>, d: nat, n: nat, len: nat, size: nat)
    requires n == Min(len, Words(size)) && (n > 0 ==> Carries(m, s, m', d, n))
    ensures Survives(m, s, m', d, len, size)
  {
    forall i: nat | i < len && 8 * i < size
      ensures Moved(m, s, m', d, i)
    {
      WordsFit(size, i);
      assert m'[d + i] == m[s + (d + i) - d];
    }
  }

  class Heap {
    const mem: array<int>
    const base: nat
    /** What sbrk(0) returns, and the head of the free list (0 if it is empty). */
    var brk: nat
    var F: nat

    ghost var sizes: Sizes
    ghost var free: seq<nat>
    /** Headers of the blocks the caller holds. */
    ghost var live: set<nat>

    ghost function Now(): Image
      reads this`F, this`sizes, this`free, mem
    {
      Image(mem[..], F, sizes, free)
    }

    ghost predicate Valid()
      reads this, mem
    {
      mem.Length <= MEMORY_LIMIT && Sound(Now(), base, brk, live)
    }

    constructor (memory: array<int>, start: nat)
      requires 0 < start <= memory.Length <= MEMORY_LIMIT
      ensures Valid() && mem == memory && base == brk == start && live == {} && free == []
    {
      mem, base, brk, F := memory, start, start, 0;
      sizes, free, live := map[], [], {};
    }

    /** r->next = v, where r is 0 for the variable F. */
    method SetNext(r: nat, v: nat)
      requires r < mem.Length
      modifies this`F, mem
      ensures if r == 0 then F == v && mem[..] == old(mem[..])
              else F == old(F) && mem[..] == Put(old(mem[..]), r, v)
    {
      if r == 0 {
        F := v;
      } else {
        mem[r] := v;
      }
    }

    /** The search loop of malloc: the first of the smallest free blocks that fit. */
    method Search(w: nat) returns (q: nat, s: nat, ghost k: nat)
      requires Valid()
      ensures q == 0 ==> forall i | 0 <= i < |free| :: sizes[free[i]] < w
      ensures q != 0 ==>
                && k < |free| && q == free[k] && s == Before(free, k) && sizes[q] >= w
                && (forall i | 0 <= i < |free| && sizes[free[i]] >= w :: sizes[q] <= sizes[free[i]])
                && (forall i | 0 <= i < k && sizes[free[i]] >= w :: sizes[q] < sizes[free[i]])
    {
      var p, r, m := F, 0, 0;
      q, s, k := 0, 0, 0;
      ghost var i := 0;
      while p != 0
        invariant i <= |free| && p == Link(free, i) && r == Before(free, i)
        invariant q == 0 ==> forall j | 0 <= j < i :: sizes[free[j]] < w
        invariant q != 0 ==>
                    && k < i && q == free[k] && s == Before(free, k) && m == sizes[q] >= w
                    && (forall j | 0 <= j < i && sizes[free[j]] >= w :: m <= sizes[free[j]])
                    && (forall j | 0 <= j < k && sizes[free[j]] >= w :: m < sizes[free[j]])
        decreases |free| - i
      {
        LinkCell(Now(), base, brk, i);
        if mem[p + 1] >= w && (q == 0 || m > mem[p + 1]) {
          m, q, s, k := mem[p + 1], p, r, i;
        }
        r := p;
        p := mem[p];
        i := i + 1;
      }
      if i < |free| {
        LinkCell(Now(), base, brk, i);
      }
    }

    /** Cutting the free block q, entry k of the list, after w words. */
    method Split(q: nat, s: nat, ghost k: nat, w: nat)
      requires Valid() && k < |free| && q == free[k] && s == Before(free, k) && sizes[q] >= w + MINBLK
      modifies this`F, this`sizes, this`free, mem
      ensures Now() == TakenSplit(old(Now()), k, w)
    {
      ghost var h := Now();
      LinkCell(h, base, brk, k);
      if k > 0 {
        Entries(h, base, brk, k - 1, k);
      }
      CutIsSplit(h, base, brk, k, w);
      var p := q + HEADER + w;
      CutAt(q, p, s, w);
      sizes := SplitAt(sizes, q, w);
      free := free[k := p];
    }

    method CutAt(q: nat, p: nat, s: nat, w: nat)
      requires q + 1 < p < mem.Length - 1 && s < mem.Length
      modifies this`F, mem
      ensures F == if s == 0 then p else old(F)
      ensures mem[..] == Cut(old(mem[..]), q, p, s, w)
    {
      mem[p] := mem[q];
      mem[p + 1] := mem[q + 1] - w - HEADER;
      SetNext(s, p);
      mem[q + 1] := w;
    }

    /** Taking the free block q, entry k of the list, and splitting it if enough is left over. */
    method Take(q: nat, s: nat, ghost k: nat, w: nat)
      requires Valid() && k < |free| && q == free[k] && s == Before(free, k) && sizes[q] >= w
      modifies this`F, this`sizes, this`free, this`live, mem
      ensures Valid() && Allocated(old(Now()), old(live), Now(), live, q, w)
      ensures sizes[q] == if old(sizes[q]) - w >= MINBLK then w else old(sizes[q])
    {
      ghost var h := Now();
      LinkCell(h, base, brk, k);
      if k > 0 {
        LinkCell(h, base, brk, k - 1);
      }
      if mem[q + 1] - w >= MINBLK {
        SplitAllocated(h, base, brk, live, k, w);
        Split(q, s, k, w);
      } else {
        WholeAllocated(h, base, brk, live, k, w);
        SetNext(s, mem[q]);
        free := Remove(free, k);
        assert Now() == TakenWhole(h, k);
      }
      live := live + {q};
    }

    /** sbrk: the break moves up by n words if there is room. */
    method Sbrk(n: nat) returns (ok: bool)
      modifies this`brk
      ensures ok == (old(brk) + n <= mem.Length)
      ensures brk == if ok then old(brk) + n else old(brk)
    {
      ok := brk + n <= mem.Length;
      if ok {
        brk := brk + n;
      }
    }

    /** The headers of block q and of the free block above it, in memory fresh from sbrk. */
    method Enlarge(q: nat, w: nat, ghost h: Image, ghost top: nat)
      requires q + HEADER + w + SBGULP <= mem.Length
      requires mem[..] == h.m && sizes == h.sizes
      requires free == (if q == top || h.free == [] then h.free else h.free[1..]) && F == Link(free, 0)
      modifies this`F, this`sizes, this`free, mem
      ensures Now() == Grown(h, top, q, w)
    {
      var top1 := q + HEADER + w;
      mem[top1 + 1] := SBGULP - HEADER;
      mem[top1] := F;
      F := top1;
      mem[q + 1] := w;
      sizes := Grow(sizes, q, w);
      free := [top1] + free;
    }

    /** Where new memory starts: the top block, taken off the list, if it is free, or the break. */
    method TopBlock() returns (q: nat)
      requires Valid()
      modifies this`F, this`free
      ensures Valid()
      ensures q == if old(TopIsFree()) then old(free)[0] else brk
      ensures free == if old(TopIsFree()) then old(free)[1..] else old(free)
    {
      ghost var h := Now();
      if free != [] {
        LinkCell(h, base, brk, 0);
      }
      if F != 0 && F + HEADER + mem[F + 1] == brk {
        q := F;
        TakeWhole(h, base, brk, 0);
        RemoveKeeps(sizes, free, 0);
        F := mem[F];
        free := free[1..];
        assert Now() == TakenWhole(h, 0);
      } else {
        q := brk;
      }
    }

    /** malloc when no free block fits: more memory, starting in the top block if it is free. */
    method More(w: nat) returns (q: nat)
      requires Valid() && forall i | 0 <= i < |free| :: sizes[free[i]] < w
      modifies this`F, this`brk, this`sizes, this`free, this`live, mem
      ensures Valid() && brk >= old(brk)
      ensures q != 0 <==> old(Top()) + HEADER + w + SBGULP <= mem.Length
      ensures q != 0 ==> Allocated(old(Now()), old(live), Now(), live, q, w) && sizes[q] == w
      ensures q != 0 ==> q == old(Top()) && brk == q + HEADER + w + SBGULP
      ensures q == 0 ==> brk == old(brk) && live == old(live) && mem[..] == old(mem[..]) && sizes == old(sizes)
      ensures q == 0 ==> free == if old(TopIsFree()) then old(free)[1..] else old(free)
    {
      var top := brk;
      ghost var h := Now();
      q := TopBlock();
      if q != top {
        LinkCell(h, base, top, 0);
      }
      var top1 := q + HEADER + w;
      var ok := Sbrk(top1 - top + SBGULP);
      if !ok {
        return 0;
      }
      GrownAllocated(h, base, top, live, q, w);
      Enlarge(q, w, h, top);
      live := live + {q};
    }

    ghost predicate TopIsFree()
      reads this`brk, this`sizes, this`free
    {
      free != [] && free[0] in sizes && End(sizes, free[0]) == brk
    }

    /** Where new memory starts: at the top block if that is free, or at the break. */
    ghost function Top(): nat
      reads this`brk, this`sizes, this`free
    {
      if TopIsFree() then free[0] else brk
    }

    /** Memory for a new block of size bytes, rounded up, at the top and 8192 bytes more, counting the headers
        of 16 bytes, can be had. */
    ghost predicate Room(size: nat)
      reads this`brk, this`sizes, this`free, mem
    {
      8 * (mem.Length - Top()) >= 16 + size + 8192
    }

    ghost predicate Fits(size: nat)
      requires Valid()
      reads this, mem
    {
      exists i :: 0 <= i < |free| && 8 * sizes[free[i]] >= size
    }

    /** malloc of size bytes; the result is the address of the payload, 0 on failure. */
    method Malloc(size: nat) returns (p: nat)
      requires Valid() && size <= SIZE_LIMIT
      modifies this`F, this`brk, this`sizes, this`free, this`live, mem
      ensures Valid() && brk >= old(brk)
      ensures p != 0 <==> old(Fits(size)) || old(Room(size))
      ensures p != 0 ==>
                && p >= HEADER && Allocated(old(Now()), old(live), Now(), live, p - HEADER, Words(size))
                && 8 * sizes[p - HEADER] >= size
      // best fit: a smallest of the free blocks that fit, split if at least 48 bytes are left over; new
      // memory only if none does, with 8192 bytes more
      ensures old(Fits(size)) ==>
                && p != 0 && brk == old(brk) && (p - HEADER) in old(free)
                && (forall i | 0 <= i < |old(free)| && 8 * old(sizes)[old(free)[i]] >= size ::
                      old(sizes)[p - HEADER] <= old(sizes)[old(free)[i]])
                && if 8 * old(sizes)[p - HEADER] >= size + 48 then 8 * sizes[p - HEADER] < size + 8
                   else sizes[p - HEADER] == old(sizes)[p - HEADER]
      ensures p != 0 && !old(Fits(size)) ==>
                && p - HEADER == old(Top()) && 8 * sizes[p - HEADER] < size + 8
                && 8 * (brk - (p + sizes[p - HEADER])) == 8192
      ensures p == 0 ==> brk == old(brk) && live == old(live) && mem[..] == old(mem[..]) && sizes == old(sizes)
      ensures p == 0 ==> free == if old(TopIsFree()) then old(free)[1..] else old(free)
    {
      var w := Words(size);
      ghost var k;
      var q: nat, s: nat;
      q, s, k := Search(w);
      FitsWords(size);
      if q != 0 {
        WordsFit(size, sizes[q]);
        Take(q, s, k, w);
      } else {
        q := More(w);
        if q == 0 {
          return 0;
        }
      }
      WordsFit(size, sizes[q]);
      p := q + HEADER;
    }

    lemma FitsWords(size: nat)
      requires Valid()
      ensures Fits(size) <==> exists i :: 0 <= i < |free| && sizes[free[i]] >= Words(size)
      ensures Room(size) <==> Top() + HEADER + Words(size) + SBGULP <= mem.Length
      ensures forall i | 0 <= i < |free| :: sizes[free[i]] >= Words(size) <==> 8 * sizes[free[i]] >= size
    {
      forall i | 0 <= i < |free|
        ensures sizes[free[i]] >= Words(size) <==> 8 * sizes[free[i]] >= size
      {
        WordsFit(size, sizes[free[i]]);
      }
    }

    /** Inside free's loop at entry k: nothing has been written, or, if up, block q has just
        absorbed entry k, its upper neighbour. */
    ghost predicate Freeing(h: Image, k: nat, q: nat, up: bool)
      reads this, mem
    {
      && mem.Length <= MEMORY_LIMIT
      && Sound(h, base, brk, live) && q in live && q + 1 < mem.Length && k <= |h.free|
      && F == h.F && sizes == h.sizes && free == h.free
      && (forall i | 0 <= i < k :: q < free[i] && free[i] != End(sizes, q))
      && (if up then k < |free| && End(sizes, q) == free[k] else k < |free| ==> End(sizes, q) != free[k])
      && mem[..] == if up then Put(h.m, q + 1, Merge(sizes, q)[q]) else h.m
    }

    /** p->len grows by block q; q keeps length 0 and the address of p; r->next = p. */
    method Absorb(q: nat, p: nat, r: nat)
      requires q + 1 < mem.Length && p + 1 < mem.Length && r < mem.Length
      modifies this`F, mem
      ensures F == if r == 0 then p else old(F)
      ensures mem[..] == Joined(old(mem[..]), q, p, r)
    {
      mem[p + 1] := mem[p + 1] + HEADER + mem[q + 1];
      mem[q + 1] := 0;
      mem[q] := p;
      SetNext(r, p);
    }

    /** The first exit of free's loop: the lower neighbour p absorbs block q. */
    method JoinLower(q: nat, p: nat, r: nat, ghost h: Image, ghost k: nat)
      requires Freeing(h, k, q, false) && r == Before(free, k)
      requires k < |free| && p == free[k] && End(sizes, p) == q
      modifies this`F, this`sizes, this`free, this`live, mem
      ensures Valid() && Released(h, old(live), Now(), live, q, p)
    {
      LoopFacts(h, base, brk, live, k, q);
      LowerReleased(h, base, brk, live, k, q);
      JoinedIsLower(h, base, brk, k, q);
      LinkCell(h, base, brk, k);
      if k > 0 {
        LinkCell(h, base, brk, k - 1);
      }
      Absorb(q, p, r);
      live := live - {q};
      sizes := FreedLower(h, k, q).sizes;
    }

    /** The same exit after the upper neighbour, entry k, has been absorbed. */
    method JoinBoth(q: nat, p: nat, r: nat, ghost h: Image, ghost k: nat)
      requires Freeing(h, k, q, true) && r == Before(free, k)
      requires k + 1 < |free| && p == free[k + 1] && End(sizes, p) == q
      modifies this`F, this`sizes, this`free, this`live, mem
      ensures Valid() && Released(h, old(live), Now(), live, q, p)
    {
      ghost var h' := BothFacts(q, p, r, h, k);
      Absorb(q, p, r);
      live, sizes, free := live - {q}, h'.sizes, h'.free;
      assert Now() == h';
    }

    lemma BothFacts(q: nat, p: nat, r: nat, h: Image, k: nat) returns (h': Image)
      requires Freeing(h, k, q, true) && r == Before(free, k)
      requires k + 1 < |free| && p == free[k + 1] && End(sizes, p) == q
      ensures r < mem.Length && p + 1 < mem.Length && q + 1 < mem.Length
      ensures h' == Image(Joined(mem[..], q, p, r), if r == 0 then p else F, h'.sizes, h'.free)
      ensures Sound(h', base, brk, live - {q}) && Released(h, live, h', live - {q}, q, p)
    {
      LoopFacts(h, base, brk, live, k, q);
      BothReleased(h, base, brk, live, k, q);
      JoinedIsBoth(h, base, brk, k, q);
      h' := FreedBoth(h, k, q);
      LinkCell(h, base, brk, k + 1);
      if k > 0 {
        LinkCell(h, base, brk, k - 1);
      }
    }

    /** r->next = q, q->next = p. */
    method Enter(q: nat, p: nat, r: nat)
      requires q < mem.Length && r < mem.Length
      modifies this`F, mem
      ensures F == if r == 0 then q else old(F)
      ensures mem[..] == Put(if r == 0 then old(mem[..]) else Put(old(mem[..]), r, q), q, p)
    {
      SetNext(r, q);
      mem[q] := p;
    }

    /** The second exit of free's loop: block q enters the list between r and p. */
    method LinkIn(q: nat, p: nat, r: nat, ghost h: Image, ghost k: nat, ghost up: bool)
      requires Freeing(h, k, q, up) && r == Before(free, k)
      requires var i := if up then k + 1 else k; p == Link(free, i) && (i < |free| ==> End(sizes, p) < q)
      modifies this`F, this`sizes, this`free, this`live, mem
      ensures Valid() && Released(h, old(live), Now(), live, q, q)
    {
      LoopFacts(h, base, brk, live, k, q);
      assert r < mem.Length && (k > 0 ==> r > 0) by {
        if k > 0 {
          LinkCell(h, base, brk, k - 1);
        }
      }
      ghost var h';
      if up {
        UpperReleased(h, base, brk, live, k, q);
        h' := FreedUpper(h, k, q);
      } else {
        AloneReleased(h, base, brk, live, k, q);
        h' := FreedAlone(h, k, q);
      }
      Enter(q, p, r);
      live, sizes, free := live - {q}, h'.sizes, h'.free;
      assert Now() == h';
    }

    /** One round of free's loop, at entry p after r; done if the block has found its place. */
    method Round(q: nat, p0: nat, r: nat, ghost k: nat) returns (done: bool, ghost g: nat)
      requires Valid() && q in live && k <= |free| && p0 == Link(free, k) && r == Before(free, k)
      requires forall i | 0 <= i < k :: q < free[i] && free[i] != End(sizes, q)
      modifies this`F, this`sizes, this`free, this`live, mem
      ensures done ==> Valid() && Released(old(Now()), old(live), Now(), live, q, g)
      ensures !done ==> Now() == old(Now()) && live == old(live)
      ensures !done ==> k < |free| && q < free[k] && free[k] != End(sizes, q)
    {
      ghost var h := Now();
      LoopFacts(h, base, brk, live, k, q);
      HeldWords(q);
      if k < |free| {
        LinkCell(h, base, brk, k);
      }
      var p, up := p0, q + HEADER + mem[q + 1] == p0;
      if up {
        mem[q + 1] := mem[q + 1] + mem[p + 1] + HEADER;
        p := mem[p];
      }
      assert Freeing(h, k, q, up);
      var pn := 0;
      if (if up then k + 1 else k) < |free| {
        LinkCell(h, base, brk, if up then k + 1 else k);
      }
      if p != 0 {
        pn := p + HEADER + mem[p + 1];
      }
      done, g := true, p;
      if pn == q {
        if up {
          JoinBoth(q, p, r, h, k);
        } else {
          JoinLower(q, p, r, h, k);
        }
      } else if pn < q {
        LinkIn(q, p, r, h, k, up);
        g := q;
      } else {
        done := false;
      }
    }

    lemma HeldWords(q: nat)
      requires Valid() && q in live
      ensures base <= q && q + 1 < mem.Length && mem[q + 1] == sizes[q] && End(sizes, q) <= brk
    {
      assert HeadAt(Now(), q) && Inside(sizes, base, brk, q);
    }

    /** free; g is the free block the payload is now part of. */
    method Free(f: nat) returns (ghost g: nat)
      requires Valid() && (f != 0 ==> f >= HEADER && f - HEADER in live)
      modifies this`F, this`sizes, this`free, this`live, mem
      ensures Valid()
      ensures if f == 0 then Now() == old(Now()) && live == old(live)
              else Released(old(Now()), old(live), Now(), live, f - HEADER, g)
    {
      g := 0;
      if f == 0 {
        return;
      }
      var q := f - HEADER;
      var p, r, done := F, 0, false;
      ghost var k := 0;
      while !done
        invariant done ==> Valid() && Released(old(Now()), old(live), Now(), live, q, g)
        invariant !done ==> Valid() && Now() == old(Now()) && live == old(live)
        invariant !done ==> k <= |free| && p == Link(free, k) && r == Before(free, k)
        invariant !done ==> forall i | 0 <= i < k :: q < free[i] && free[i] != End(sizes, q)
        decreases !done, |old(free)| - k
      {
        done, g := Round(q, p, r, k);
        if !done {
          LinkCell(Now(), base, brk, k);
          r := p;
          p := mem[p];
          k := k + 1;
        }
      }
    }

    /** memmove. */
    method Memmove(d: nat, s: nat, n: nat)
      requires d + n <= mem.Length && s + n <= mem.Length
      modifies mem
      ensures mem[..] == Blit(old(mem[..]), d, s, n)
    {
      ghost var m := mem[..];
      if d <= s {
        var i := 0;
        while i < n
          invariant 0 <= i <= n
          invariant forall x {:trigger mem[x]} | d <= x < d + i :: mem[x] == m[s + x - d]
          invariant forall x {:trigger mem[x]} | 0 <= x < d :: mem[x] == m[x]
          invariant forall x {:trigger mem[x]} | d + i <= x < mem.Length :: mem[x] == m[x]
        {
          mem[d + i] := mem[s + i];
          i := i + 1;
        }
      } else {
        var i := n;
        while i > 0
          invariant 0 <= i <= n
          invariant forall x {:trigger mem[x]} | d + i <= x < d + n :: mem[x] == m[s + x - d]
          invariant forall x {:trigger mem[x]} | 0 <= x < d + i :: mem[x] == m[x]
          invariant forall x {:trigger mem[x]} | d + n <= x < mem.Length :: mem[x] == m[x]
        {
          i := i - 1;
          mem[d + i] := mem[s + i];
        }
      }
    }

    /** memcpy: the source and the target must not overlap. */
    method Memcpy(d: nat, s: nat, n: nat)
      requires d + n <= mem.Length && s + n <= mem.Length && (d + n <= s || s + n <= d)
      modifies mem
      ensures mem[..] == Blit(old(mem[..]), d, s, n)
    {
      Memmove(d, s, n);
    }

    /** realloc's memmove: from f to the start of the free block g. */
    method Slide(f1: nat, f: nat, n: nat, ghost g: nat)
      requires Valid() && g in sizes && g !in live && g + HEADER + n <= End(sizes, g) <= mem.Length
      requires f1 == g + HEADER && f + n <= mem.Length
      modifies mem
      ensures Valid() && LiveKept(old(Now()), live, Now())
      ensures Carries(old(mem[..]), f, mem[..], f1, n)
    {
      BlitSound(Now(), base, brk, live, g, g + HEADER, f, n);
      BlitKept(Now(), base, brk, live, g, g + HEADER, f, n);
      Memmove(f1, f, n);
    }

    /** A freed block with a payload tells by its old header whether its lower neighbour took it. */
    lemma OldHeader(h: Image, oldLive: set<nat>, q: nat, g: nat)
      requires Valid() && Released(h, oldLive, Now(), live, q, g)
      ensures q + 1 < mem.Length && g !in live && g in sizes && 0 <= mem[q]
      ensures h.sizes[q] > 0 ==> (mem[q + 1] == 0 <==> g != q)
      ensures g != q ==> mem[q] == g
    {
      var i :| 0 <= i < |free| && free[i] == g;
      LinkCell(Now(), base, brk, i);
    }

    /** The part of realloc before it calls malloc: the block is freed, and its first n words are
        moved to the start of the free block g it has become part of. n is at most its old length. */
    method Vacate(f: nat, size: nat) returns (f1: nat, n: nat, ghost g: nat)
      requires Valid() && f >= HEADER && f - HEADER in live
      modifies this`F, this`sizes, this`free, this`live, mem
      ensures Valid() && live == old(live) - {f - HEADER} && LiveKept(old(Now()), live, Now())
      ensures Lost(Now(), live) == old(Lost(Now(), live))
      ensures n == Min(old(sizes)[f - HEADER], Words(size))
      ensures n > 0 ==>
                && f1 == g + HEADER && g in sizes && g !in live && f1 + n <= End(sizes, g) <= mem.Length
                && Carries(old(mem[..]), f, mem[..], f1, n)
    {
      var q := f - HEADER;
      HeldWords(q);
      ghost var h := Now();
      n := mem[q + 1];
      g := Free(f);
      ghost var h1 := Now();
      ReleasedKept(h, old(live), h1, live, q, g);
      ReleasedCarries(h, base, brk, old(live), h1, live, q, g, n);
      OldHeader(h, old(live), q, g);
      if 8 * n > size {
        n := Words(size);
      }
      f1 := f;
      if mem[q + 1] == 0 {
        f1 := mem[q] + HEADER;
        if n > 0 {  // moving no word is the same as not moving
          Slide(f1, f, n, g);
          KeptKept(h, h1, Now(), live);
        }
      }
    }

    /** realloc: the payload survives although its block is freed, merged with its neighbours,
        perhaps moved down, and only then allocated again. On failure, for want of memory, the block is gone. */
    method Realloc(f: nat, size: nat) returns (p: nat)
      requires Valid() && size <= SIZE_LIMIT && (f != 0 ==> f >= HEADER && f - HEADER in live)
      modifies this`F, this`brk, this`sizes, this`free, this`live, mem
      ensures Valid() && LiveKept(old(Now()), old(Others(f)), Now())
      ensures p == 0 ==> live == old(Others(f)) && Exhausted(size)
      ensures p != 0 ==>
                && p >= HEADER && p - HEADER !in old(Others(f)) && live == old(Others(f)) + {p - HEADER}
                && 8 * sizes[p - HEADER] >= size
                && Lost(Now(), live) == old(Lost(Now(), live))
      ensures p != 0 && f != 0 ==> Survives(old(mem[..]), f, mem[..], p, old(sizes)[f - HEADER], size)
    {
      if f == 0 {
        ghost var h := Now();
        p := Malloc(size);
        if p != 0 {
          AllocatedKept(h, old(live), Now(), live, p - HEADER, Words(size));
        }
      } else {
        p := Renew(f, size);
      }
    }

    /** No free block has size bytes, and not so many can be had with 8192 more and two headers of 16. */
    ghost predicate Exhausted(size: nat)
      reads this`brk, this`sizes, this`free, mem
    {
      && (forall i | 0 <= i < |free| :: free[i] in sizes && 8 * sizes[free[i]] < size)
      && 8 * (mem.Length - brk) < 16 + size + 8192
    }

    /** realloc of a block. */
    method Renew(f: nat, size: nat) returns (p: nat)
      requires Valid() && size <= SIZE_LIMIT && f >= HEADER && f - HEADER in live
      modifies this`F, this`brk, this`sizes, this`free, this`live, mem
      ensures Valid() && LiveKept(old(Now()), old(live) - {f - HEADER}, Now())
      ensures p == 0 ==> live == old(live) - {f - HEADER} && Exhausted(size)
      ensures p != 0 ==>
                && p >= HEADER && p - HEADER !in old(live) - {f - HEADER}
                && live == old(live) - {f - HEADER} + {p - HEADER} && 8 * sizes[p - HEADER] >= size
                && Lost(Now(), live) == old(Lost(Now(), live))
      ensures p != 0 ==> Survives(old(mem[..]), f, mem[..], p, old(sizes)[f - HEADER], size)
    {
      ghost var h := Now();
      ghost var g;
      var f1, n;
      HeldWords(f - HEADER);
      f1, n, g := Vacate(f, size);
      ghost var h1, live1 := Now(), live;
      p := Regain(size, f1, n, g);
      KeptKept(h, h1, Now(), live1);
      if p != 0 {
        if n > 0 {
          CarriesOn(h.m, f, h1.m, f1, mem[..], p, n);
        }
        WordsSurvive(h.m, f, mem[..], p, n, h.sizes[f - HEADER], size);
      }
    }

    /** The part of realloc from malloc on: the n words at f1, in the free block g, go to the new block. */
    method Regain(size: nat, f1: nat, n: nat, ghost g: nat) returns (p: nat)
      requires Valid() && size <= SIZE_LIMIT && n <= Words(size)
      requires n > 0 ==> f1 == g + HEADER && g in sizes && g !in live && f1 + n <= End(sizes, g) <= mem.Length
      modifies this`F, this`brk, this`sizes, this`free, this`live, mem
      ensures Valid() && LiveKept(old(Now()), old(live), Now())
      ensures p == 0 ==> live == old(live) && Exhausted(size)
      ensures p != 0 ==>
                && p >= HEADER && p - HEADER !in old(live) && live == old(live) + {p - HEADER}
                && 8 * sizes[p - HEADER] >= size && p + n <= mem.Length
                && Lost(Now(), live) == old(Lost(Now(), live))
      ensures p != 0 && n > 0 ==> Carries(old(mem[..]), f1, mem[..], p, n)
    {
      ghost var h1, live1, brk1 := Now(), live, brk;
      Reachable(size);
      p := Malloc(size);
      if p == 0 {
        return;
      }
      HeldWords(p - HEADER);
      ghost var h2 := Now();
      AllocatedKept(h1, live1, h2, live, p - HEADER, Words(size));
      if n > 0 {
        AllocatedCarries(h1, base, brk1, h2, brk, live1, live, p - HEADER, Words(size), g, n);
        if p != f1 {
          Deliver(p, f1, n, g);
          KeptKept(h1, h2, Now(), live1);
          CarriesOn(h1.m, f1, h2.m, f1, mem[..], p, n);
        }
      }
    }

    lemma Reachable(size: nat)
      requires Valid()
      ensures !Fits(size) && !Room(size) ==> Exhausted(size)
    {}

    /** realloc's memcpy: from the free block g to the new block. */
    method Deliver(p: nat, f1: nat, n: nat, ghost g: nat)
      requires Valid() && p >= HEADER && p - HEADER in live && n <= sizes[p - HEADER]
      requires g in sizes && f1 == g + HEADER && n <= sizes[g] && p != f1
      modifies mem
      ensures Valid() && LiveKept(old(Now()), live - {p - HEADER}, Now())
      ensures Carries(old(mem[..]), f1, mem[..], p, n)
    {
      assert Inside(sizes, base, brk, g);
      HeldWords(p - HEADER);
      assert Apart(sizes, p - HEADER, g) && Apart(sizes, g, p - HEADER);
      BlitSound(Now(), base, brk, live, p - HEADER, p, f1, n);
      BlitKept(Now(), base, brk, live - {p - HEADER}, p - HEADER, p, f1, n);
      Memcpy(p, f1, n);
    }

    /** The blocks the caller holds besides that of f. */
    ghost function Others(f: nat): set<nat>
      reads this`live
    {
      if f < HEADER then live else live - {f - HEADER}
    }
  }
}
