// Character assignment and concatenation, s_copy of libf2c/s_copy.c and s_cat of s_cat.c, in one
// memory in which target and sources may overlap. Pointers are indices into it.
module StringMoves {
  function Blanks(n: int): (s: string)
    ensures |s| == (if n < 0 then 0 else n) && forall k | 0 <= k < |s| :: s[k] == ' '
  {
    seq(if n < 0 then 0 else n, _ => ' ')
  }

  /** s cut or padded with blanks to n characters, as an assignment does. */
  function Fit(s: string, n: nat): (r: string)
    ensures |r| == n
  {
    if n <= |s| then s[..n] else s + Blanks(n - |s|)
  }

  /** m with s stored at at, and nothing else changed. */
  function Stored(m: string, at: nat, s: string): (r: string)
    requires at + |s| <= |m|
    ensures |r| == |m|
    ensures forall k | 0 <= k < |m| :: r[k] == if at <= k < at + |s| then s[k - at] else m[k]
  {
    m[..at] + s + m[at + |s|..]
  }

  lemma StoredNext(m: string, at: nat, s: string, c: char)
    requires at + |s| < |m|
    ensures Stored(m, at, s)[at + |s| := c] == Stored(m, at, s + [c])
  {}

  lemma StoredBefore(m: string, at: nat, s: string, c: char)
    requires 0 < at && at + |s| <= |m|
    ensures Stored(m, at, s)[at - 1 := c] == Stored(m, at - 1, [c] + s)
  {}

  lemma StoredNothing(m: string, at: nat)
    requires at <= |m|
    ensures Stored(m, at, "") == m
  {}

  /** The first n sources one after the other. */
  function Cat(m: string, rpp: seq<nat>, rnp: seq<nat>, n: nat): (r: string)
    requires n <= |rpp| == |rnp| && InMemory(|m|, rpp, rnp)
    ensures |r| == Len(rnp, n)
  {
    if n == 0 then "" else Cat(m, rpp, rnp, n - 1) + m[rpp[n - 1]..rpp[n - 1] + rnp[n - 1]]
  }

  function Len(rnp: seq<nat>, n: nat): nat
    requires n <= |rnp|
  {
    if n == 0 then 0 else Len(rnp, n - 1) + rnp[n - 1]
  }

  predicate InMemory(size: nat, rpp: seq<nat>, rnp: seq<nat>)
    requires |rpp| == |rnp|
  {
    forall i | 0 <= i < |rpp| :: rpp[i] + rnp[i] <= size
  }

  lemma {:induction false} CatStarts(m: string, rpp: seq<nat>, rnp: seq<nat>, k: nat, n: nat)
    requires k <= n <= |rpp| == |rnp| && InMemory(|m|, rpp, rnp)
    ensures Len(rnp, k) <= Len(rnp, n) && Cat(m, rpp, rnp, k) == Cat(m, rpp, rnp, n)[..Len(rnp, k)]
    decreases n - k
  {
    if k < n {
      CatStarts(m, rpp, rnp, k + 1, n);
      var next, all := Cat(m, rpp, rnp, k + 1), Cat(m, rpp, rnp, n);
      assert Cat(m, rpp, rnp, k) == next[..Len(rnp, k)];
      assert all[..Len(rnp, k + 1)][..Len(rnp, k)] == all[..Len(rnp, k)];
    }
  }

  /** Each of the first n sources begins at or behind the place it goes to, or ends before the target. */
  predicate Clear(lp: nat, rpp: seq<nat>, rnp: seq<nat>, n: nat)
    requires n <= |rpp| == |rnp|
  {
    forall i | 0 <= i < n :: rpp[i] >= lp + Len(rnp, i) || rpp[i] + rnp[i] <= lp
  }

  // ----- s_copy -----

  lemma UpOne(m: string, s: string, a: nat, i: nat)
    requires i < |s| && a + |s| <= |m|
    ensures Stored(m, a, s[..i])[a + i := s[i]] == Stored(m, a, s[..i + 1])
  {
    StoredNext(m, a, s[..i], s[i]);
    assert s[..i] + [s[i]] == s[..i + 1];
  }

  /** *a++ = *b++ until a is aend. */
  method CopyUp(mem: array<char>, a: nat, b: nat, n: nat)
    requires a + n <= mem.Length && b + n <= mem.Length && (a <= b || a >= b + n)
    modifies mem
    ensures mem[..] == Stored(old(mem[..]), a, old(mem[b..b + n]))
  {
    ghost var m := mem[..];
    ghost var s := m[b..b + n];
    var i := 0;
    StoredNothing(m, a);
    while i < n
      invariant 0 <= i <= n && mem[..] == Stored(m, a, s[..i])
    {
      UpOne(m, s, a, i);
      assert mem[b + i] == m[b + i];
      mem[a + i] := mem[b + i];
      i := i + 1;
    }
    assert s[..n] == s;
  }

  lemma DownOne(m: string, s: string, a: nat, i: nat)
    requires i < |s| && a + |s| <= |m|
    ensures Stored(m, a + i + 1, s[i + 1..])[a + i := s[i]] == Stored(m, a + i, s[i..])
  {
    StoredBefore(m, a + i + 1, s[i + 1..], s[i]);
    assert [s[i]] + s[i + 1..] == s[i..];
  }

  /** *--a = *--b until a is back at its start. */
  method CopyDown(mem: array<char>, a: nat, b: nat, n: nat)
    requires a + n <= mem.Length && b + n <= mem.Length && b <= a
    modifies mem
    ensures mem[..] == Stored(old(mem[..]), a, old(mem[b..b + n]))
  {
    ghost var m := mem[..];
    ghost var s := m[b..b + n];
    var i := n;
    assert s[n..] == "";
    StoredNothing(m, a + n);
    while i > 0
      invariant 0 <= i <= n && mem[..] == Stored(m, a + i, s[i..])
    {
      i := i - 1;
      DownOne(m, s, a, i);
      assert mem[b + i] == m[b + i];
      mem[a + i] := mem[b + i];
    }
    assert s[0..] == s;
  }

  /** *a++ = ' ' for n cells, behind the text s that has been stored at at. */
  method Pad(mem: array<char>, n: nat, ghost m: string, at: nat, ghost s: string, behind: nat)
    requires |m| == mem.Length && behind == at + |s| && behind + n <= mem.Length && mem[..] == Stored(m, at, s)
    modifies mem
    ensures mem[..] == Stored(m, at, s + Blanks(n))
  {
    assert s + Blanks(0) == s;
    var i := 0;
    while i < n
      invariant 0 <= i <= n && mem[..] == Stored(m, at, s + Blanks(i))
    {
      StoredNext(m, at, s + Blanks(i), ' ');
      assert s + Blanks(i) + [' '] == s + Blanks(i + 1);
      mem[behind + i] := ' ';
      i := i + 1;
    }
  }

  /** s_copy: the target gets what the source was, cut or padded, wherever they overlap. */
  method S_copy(mem: array<char>, a: nat, b: nat, la: nat, lb: nat)
    requires a + la <= mem.Length && b + lb <= mem.Length
    modifies mem
    ensures mem[..] == Stored(old(mem[..]), a, Fit(old(mem[b..b + lb]), la))
  {
    ghost var m, s := mem[..], mem[b..b + lb];
    if la <= lb {
      assert mem[b..b + la] == s[..la];
      if a <= b || a >= b + la {
        CopyUp(mem, a, b, la);
      } else {
        CopyDown(mem, a, b, la);
      }
    } else {
      if a <= b || a >= b + lb {
        CopyUp(mem, a, b, lb);
      } else {
        CopyDown(mem, a, b, lb);
      }
      Pad(mem, la - lb, m, a, s, a + lb);
    }
  }

  // ----- s_cat -----

  /** nc characters of a source go behind the text s that has been stored at at in dst, which is the memory or
      a buffer apart from it. */
  method CopyPart(mem: array<char>, dst: array<char>, ghost m: string, ghost d: string, at: nat, ghost s: string,
                  lp: nat, rp: nat, nc: nat)
    requires |d| == dst.Length && |m| == mem.Length && lp == at + |s| && lp + nc <= dst.Length && rp + nc <= mem.Length
    requires dst[..] == Stored(d, at, s)
    requires if dst == mem then m == d && (nc == 0 || rp >= lp || rp + nc <= at) else mem[..] == m
    modifies dst
    ensures dst[..] == Stored(d, at, s + m[rp..rp + nc])
  {
    ghost var part := m[rp..rp + nc];
    assert s + part[..0] == s;
    var i := 0;
    while i < nc
      invariant 0 <= i <= nc && dst[..] == Stored(d, at, s + part[..i]) && (dst != mem ==> mem[..] == m)
    {
      StoredNext(d, at, s + part[..i], part[i]);
      assert mem[..][rp + i] == part[i];
      assert s + part[..i] + [part[i]] == s + part[..i + 1];
      dst[lp + i] := mem[rp + i];
      i := i + 1;
    }
    assert part[..nc] == part;
  }

  /** s is what of the first i sources fits before the end of a target of n characters. */
  ghost predicate Catting(m: string, rpp: seq<nat>, rnp: seq<nat>, i: nat, s: string, n: nat)
    requires i <= |rpp| == |rnp| && InMemory(|m|, rpp, rnp)
  {
    && |s| <= n && |s| <= Len(rnp, i) && s == Cat(m, rpp, rnp, i)[..|s|] && (|s| == Len(rnp, i) || |s| == n)
  }

  /** The sources, and then blanks, go to dst. */
  method CatInto(mem: array<char>, dst: array<char>, lp0: nat, rpp: seq<nat>, rnp: seq<nat>, n: nat, ll0: nat)
    requires n <= |rpp| == |rnp| && InMemory(mem.Length, rpp, rnp) && lp0 + ll0 <= dst.Length
    requires dst == mem ==> Clear(lp0, rpp, rnp, n)
    modifies dst
    ensures dst[..] == Stored(old(dst[..]), lp0, Fit(Cat(old(mem[..]), rpp, rnp, n), ll0))
  {
    ghost var m, d, s := mem[..], dst[..], "";
    var lp, ll, i := lp0, ll0, 0;
    StoredNothing(d, lp0);
    while i < n
      invariant 0 <= i <= n && lp == lp0 + |s| && ll == ll0 - |s| && (dst != mem ==> mem[..] == m)
      invariant dst[..] == Stored(d, lp0, s) && Catting(m, rpp, rnp, i, s, ll0)
    {
      var nc := if rnp[i] < ll then rnp[i] else ll;
      CopyPart(mem, dst, m, d, lp0, s, lp, rpp[i], nc);
      s := NextPart(m, rpp, rnp, i, s, nc, ll0);
      ll := ll - nc;
      lp := lp + nc;
      i := i + 1;
    }
    Pad(dst, ll, d, lp0, s, lp);
    FitIs(Cat(m, rpp, rnp, n), s, ll0);
  }

  lemma FitIs(all: string, s: string, n: nat)
    requires |s| <= |all| && |s| <= n && s == all[..|s|] && (|s| == |all| || |s| == n)
    ensures s + Blanks(n - |s|) == Fit(all, n)
  {}

  lemma FitEnough(all: string, k: nat, n: nat)
    requires k <= |all| && (k == |all| || k >= n)
    ensures Fit(all[..k], n) == Fit(all, n)
  {
    if k == |all| {
      assert all[..k] == all;
    }
  }

  lemma NextPart(m: string, rpp: seq<nat>, rnp: seq<nat>, i: nat, s: string, nc: nat, n: nat) returns (s': string)
    requires i < |rpp| == |rnp| && InMemory(|m|, rpp, rnp) && Catting(m, rpp, rnp, i, s, n)
    requires nc == if rnp[i] < n - |s| then rnp[i] else n - |s|
    ensures s' == s + m[rpp[i]..rpp[i] + nc] && Catting(m, rpp, rnp, i + 1, s', n)
  {
    s' := s + m[rpp[i]..rpp[i] + nc];
    if |s| == Len(rnp, i) {
      assert Cat(m, rpp, rnp, i)[..|s|] == Cat(m, rpp, rnp, i);
    }
  }

  lemma StoredWhole(d: string, s: string)
    requires |s| == |d|
    ensures Stored(d, 0, s) == s
  {}

  /** s_cat: the target gets the sources as they were, one after the other, cut or padded, wherever they
      overlap; a source in the way sends the text through a buffer. */
  method S_cat(mem: array<char>, lp: nat, rpp: seq<nat>, rnp: seq<nat>, ll: nat)
    requires |rpp| == |rnp| && InMemory(mem.Length, rpp, rnp) && lp + ll <= mem.Length
    modifies mem
    ensures mem[..] == Stored(old(mem[..]), lp, Fit(Cat(old(mem[..]), rpp, rnp, |rpp|), ll))
  {
    var n, clear := Scan(mem, lp, rpp, rnp, ll);
    ghost var m := mem[..];
    CatStarts(m, rpp, rnp, n, |rpp|);
    FitEnough(Cat(m, rpp, rnp, |rpp|), Len(rnp, n), ll);
    if clear {
      CatInto(mem, mem, lp, rpp, rnp, n, ll);
    } else {
      var buffer := new char[ll];
      StoredWhole(buffer[..], Fit(Cat(m, rpp, rnp, n), ll));
      CatInto(mem, buffer, 0, rpp, rnp, n, ll);
      assert buffer[..] == Fit(Cat(m, rpp, rnp, n), ll) && mem[..] == m;
      Memcpy(mem, lp, buffer);
    }
  }

  lemma ClearMore(lp: nat, rpp: seq<nat>, rnp: seq<nat>, i: nat)
    requires i < |rpp| == |rnp| && Clear(lp, rpp, rnp, i)
    requires rpp[i] >= lp + Len(rnp, i) || rpp[i] + rnp[i] <= lp
    ensures Clear(lp, rpp, rnp, i + 1) && Len(rnp, i + 1) == Len(rnp, i) + rnp[i]
  {}

  /** How many of the sources are needed, and whether they are clear of the target. */
  method Scan(mem: array<char>, lp: nat, rpp: seq<nat>, rnp: seq<nat>, ll: nat) returns (n: nat, clear: bool)
    requires |rpp| == |rnp|
    ensures n <= |rpp| && (n < |rpp| ==> Len(rnp, n) >= ll) && (clear ==> Clear(lp, rpp, rnp, n))
  {
    n, clear := |rpp|, true;
    var lp1, left, i := lp, ll as int, 0;
    while i < n && clear
      invariant 0 <= i <= n <= |rpp| && (n < |rpp| ==> Len(rnp, n) >= ll && i == n)
      invariant clear ==> Clear(lp, rpp, rnp, i)
      invariant clear && i < n ==> lp1 == lp + Len(rnp, i) && left == ll - Len(rnp, i)
      decreases n - i, clear
    {
      var rp, m := rpp[i], rnp[i];
      i := i + 1;
      if rp >= lp1 || rp + m <= lp {
        ClearMore(lp, rpp, rnp, i - 1);
        left := left - m;
        if left <= 0 {
          n := i;
        } else {
          lp1 := lp1 + m;
        }
      } else {
        clear := false;
      }
    }
  }

  method Memcpy(mem: array<char>, at: nat, from: array<char>)
    requires from != mem && at + from.Length <= mem.Length
    modifies mem
    ensures mem[..] == Stored(old(mem[..]), at, from[..])
  {
    ghost var m := mem[..];
    StoredNothing(m, at);
    var i := 0;
    while i < from.Length
      invariant 0 <= i <= from.Length && mem[..] == Stored(m, at, from[..i])
    {
      StoredNext(m, at, from[..i], from[i]);
      assert from[..i] + [from[i]] == from[..i + 1];
      mem[at + i] := from[i];
      i := i + 1;
    }
    assert from[..from.Length] == from[..];
  }
}
