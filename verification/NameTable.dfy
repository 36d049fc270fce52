// mkname of src/misc.c: the closed hash table of names with linear probing, as a
// dictionary from names to entries.
module NameTable {
  import opened Options

  /** The sum of the characters of a name. */
  function Sum(s: string): nat {
    if s == "" then 0 else s[0] as nat + Sum(s[1..])
  }

  predicate HasUnderscore(s: string) { exists k :: 0 <= k < |s| && s[k] == '_' }

  predicate Lengthened(s: string, keywords: set<string>) { HasUnderscore(s) || s in keywords }

  /** The name in the C program: names with an underscore and C keywords get two more. */
  function CName(s: string, keywords: set<string>): string {
    if Lengthened(s, keywords) then s + "__" else s
  }

  lemma UnderscoreSoFar(s: string, k: nat)
    requires k < |s|
    ensures HasUnderscore(s[..k + 1]) <==> s[k] == '_' || HasUnderscore(s[..k])
  {
    if HasUnderscore(s[..k]) {
      var j :| 0 <= j < k && s[..k][j] == '_';
      assert s[..k + 1][j] == '_';
    }
    assert s[..k + 1][k] == s[k];
  }

  lemma LengthenedShows(s: string, keywords: set<string>)
    ensures HasUnderscore(CName(s, keywords)) <==> Lengthened(s, keywords)
  {
    if Lengthened(s, keywords) {
      assert (s + "__")[|s|] == '_';
    }
  }

  /** No C name is a keyword, if the keywords have no underscores. */
  lemma CNameFree(s: string, keywords: set<string>)
    requires forall w | w in keywords :: '_' !in w
    ensures CName(s, keywords) !in keywords
  {
    LengthenedShows(s, keywords);
    var c := CName(s, keywords);
    if HasUnderscore(c) {
      var k :| 0 <= k < |c| && c[k] == '_';
      assert '_' in c;
    }
  }

  /** Distinct Fortran names have distinct C names. */
  lemma CNamesDiffer(a: string, b: string, keywords: set<string>)
    ensures CName(a, keywords) == CName(b, keywords) <==> a == b
  {
    LengthenedShows(a, keywords);
    LengthenedShows(b, keywords);
    var c := CName(a, keywords);
    if c == CName(b, keywords) && Lengthened(a, keywords) {
      assert a == c[..|c| - 2] && b == c[..|c| - 2];
    }
  }

  /** The i-th slot of the probe that starts at h in a table of m slots. */
  function Slot(h: nat, i: nat, m: nat): (p: nat)
    requires h < m && i < m
    ensures p < m
  {
    if h + i < m then h + i else h + i - m
  }

  /** The probe that starts at h reaches every slot. */
  lemma ProbeReaches(h: nat, p: nat, m: nat) returns (i: nat)
    requires h < m && p < m
    ensures i < m && Slot(h, i, m) == p
  {
    i := if p >= h then p - h else p + m - h;
  }

  lemma ProbeDiffers(h: nat, i: nat, j: nat, m: nat)
    requires h < m && i < m && j < m && i != j
    ensures Slot(h, i, m) != Slot(h, j, m)
  {}

  /** A slot: the name it holds, if any, and the hash value of that name. */
  datatype Hashentry = Hashentry(varp: Option<nat>, hashval: nat)

  /** The table as values: the slots, the names (fvarname) by number, and the length of the probe that
      leads to each. */
  datatype Table = Table(slots: seq<Hashentry>, names: seq<string>, depths: seq<nat>)

  function Home(t: Table, n: nat): nat
    requires n < |t.names| && |t.slots| > 0
  {
    Sum(t.names[n]) % |t.slots|
  }

  /** Name n is found at the end of its probe, which meets no empty slot before. */
  ghost predicate Placed(t: Table, n: nat) {
    && n < |t.names| == |t.depths| && |t.slots| > 0 && t.depths[n] < |t.slots|
    && t.slots[Slot(Home(t, n), t.depths[n], |t.slots|)] == Hashentry(Some(n), Home(t, n))
    && forall j | 0 <= j < t.depths[n] :: t.slots[Slot(Home(t, n), j, |t.slots|)].varp.Some?
  }

  /** A slot that is not empty holds a name whose probe ends there. */
  ghost predicate Holds(t: Table, p: nat) {
    && p < |t.slots|
    && (t.slots[p].varp.Some? ==>
          var n := t.slots[p].varp.value;
          Placed(t, n) && Slot(Home(t, n), t.depths[n], |t.slots|) == p)
  }

  ghost predicate Good(t: Table) {
    && |t.slots| > 2 && |t.names| == |t.depths| < |t.slots| - 1
    && (forall n {:trigger Placed(t, n)} | 0 <= n < |t.names| :: Placed(t, n))
    && (forall p {:trigger Holds(t, p)} | 0 <= p < |t.slots| :: Holds(t, p))
    && (forall a, b | 0 <= a < b < |t.names| :: t.names[a] != t.names[b])
  }

  /** A good table has an empty slot. */
  lemma SomeEmpty(t: Table) returns (p: nat)
    requires Good(t)
    ensures p < |t.slots| && t.slots[p].varp.None?
  {
    p := 0;
    var held: set<nat> := {};
    NumbersCount(|t.names|);
    while p < |t.slots| && t.slots[p].varp.Some?
      invariant p <= |t.slots| && |held| == p && held <= Upto(|t.names|)
      invariant forall n | n in held :: exists q :: 0 <= q < p && t.slots[q].varp == Some(n)
    {
      var n := t.slots[p].varp.value;
      assert Holds(t, p);
      InUpto(n, |t.names|);
      forall q | 0 <= q < p
        ensures t.slots[q].varp != Some(n)
      {
        assert Holds(t, q);
      }
      held := held + {n};
      p := p + 1;
    }
    SubsetCount(held, Upto(|t.names|));
  }

  function Upto(n: nat): set<nat> { if n == 0 then {} else Upto(n - 1) + {n - 1} }

  lemma {:induction false} InUpto(i: nat, n: nat)
    ensures i in Upto(n) <==> i < n
  {
    if n != 0 {
      InUpto(i, n - 1);
    }
  }

  lemma {:induction false} NumbersCount(n: nat)
    ensures |Upto(n)| == n
  {
    if n != 0 {
      NumbersCount(n - 1);
      InUpto(n - 1, n - 1);
    }
  }

  lemma {:induction false} SubsetCount<T>(a: set<T>, b: set<T>)
    requires a <= b
    ensures |a| <= |b|
    decreases |a|
  {
    if a != {} {
      var x :| x in a;
      SubsetCount(a - {x}, b - {x});
    }
  }

  /** The probe for s has met i names, none of them s. */
  ghost predicate Missed(t: Table, s: string, i: nat) {
    && i <= |t.slots|
    && |t.slots| > 0
    && forall j {:trigger Slot(Sum(s) % |t.slots|, j, |t.slots|)} | 0 <= j < i ::
         var e := t.slots[Slot(Sum(s) % |t.slots|, j, |t.slots|)];
         e.varp.Some? && (e.varp.value < |t.names| ==> t.names[e.varp.value] != s)
  }

  /** An empty slot lies behind every name with the same hash value. */
  lemma EmptyBehind(t: Table, n: nat, i: nat)
    requires Placed(t, n) && i < |t.slots| && t.slots[Slot(Home(t, n), i, |t.slots|)].varp.None?
    ensures t.depths[n] < i
  {}

  /** If it then meets an empty slot, s is not in the table. */
  lemma NotThere(t: Table, s: string, i: nat)
    requires Good(t) && i < |t.slots| && Missed(t, s, i)
    requires t.slots[Slot(Sum(s) % |t.slots|, i, |t.slots|)].varp.None?
    ensures s !in t.names
  {
    forall n | 0 <= n < |t.names| && Home(t, n) == Sum(s) % |t.slots|
      ensures t.names[n] != s
    {
      assert Placed(t, n);
      EmptyBehind(t, n, i);
      assert t.slots[Slot(Sum(s) % |t.slots|, t.depths[n], |t.slots|)].varp == Some(n);
    }
  }

  function Entered(t: Table, s: string, i: nat): Table
    requires |t.slots| > 0 && i < |t.slots|
  {
    var h := Sum(s) % |t.slots|;
    Table(t.slots[Slot(h, i, |t.slots|) := Hashentry(Some(|t.names|), h)], t.names + [s], t.depths + [i])
  }

  /** A new name in the first empty slot of its probe keeps every probe intact. */
  lemma EnteredGood(t: Table, s: string, i: nat)
    requires Good(t) && i < |t.slots| && Missed(t, s, i) && t.slots[Slot(Sum(s) % |t.slots|, i, |t.slots|)].varp.None?
    requires |t.names| + 1 < |t.slots| - 1
    ensures Good(Entered(t, s, i))
  {
    var t', h, m := Entered(t, s, i), Sum(s) % |t.slots|, |t.slots|;
    NotThere(t, s, i);
    forall n | 0 <= n < |t'.names|
      ensures Placed(t', n)
    {
      if n < |t.names| {
        assert Placed(t, n);
        assert Home(t', n) == Home(t, n);
      } else {
        forall j | 0 <= j < i
          ensures t'.slots[Slot(h, j, m)].varp.Some?
        {
          ProbeDiffers(h, i, j, m);
        }
      }
    }
    forall p | 0 <= p < m
      ensures Holds(t', p)
    {
      assert Holds(t, p);
      if t'.slots[p].varp.Some? {
        assert Placed(t', t'.slots[p].varp.value);
      }
    }
  }

  class Names {
    const hashtab: array<Hashentry>
    var nintnames: nat
    /** The names entered, in order; a Namep is a place in this list. */
    var names: seq<string>
    ghost var depths: seq<nat>

    ghost function Now(): Table
      reads this, hashtab
    {
      Table(hashtab[..], names, depths)
    }

    ghost predicate Valid()
      reads this, hashtab
    {
      Good(Now()) && nintnames == |names|
    }

    constructor (maxhash: nat)
      requires maxhash > 2
      ensures Valid() && names == [] && fresh(hashtab) && hashtab.Length == maxhash
    {
      hashtab := new Hashentry[maxhash](_ => Hashentry(None, 0));
      nintnames, names, depths := 0, [], [];
      new;
      assert forall p | 0 <= p < maxhash :: Holds(Now(), p);
    }

    /** mkname: the entry of s, made if need be. None: the table is full, which ends the run. */
    method Mkname(s: string) returns (q: Option<nat>)
      requires Valid()
      modifies this, hashtab
      ensures q.Some? ==> Valid()
      ensures s in old(names) ==> q.Some? && names == old(names) && hashtab[..] == old(hashtab[..])
      ensures s !in old(names) ==> (q.Some? <==> |old(names)| + 1 < hashtab.Length - 1)
      ensures s !in old(names) && q.Some? ==> names == old(names) + [s]
      ensures q.Some? ==> q.value < |names| && forall n | 0 <= n < |names| :: names[n] == s <==> n == q.value
    {
      var hash := Hash(s);
      var hp := hash;
      ghost var t, i, m := Now(), 0, hashtab.Length;
      ghost var f := SomeEmpty(t);
      ghost var last := ProbeReaches(hash, f, m);
      while hashtab[hp].varp.Some?
        invariant 0 <= i <= last < m && hp == Slot(hash, i, m) && Missed(t, s, i) && Now() == t
        decreases last - i
      {
        var n := hashtab[hp].varp.value;
        assert Holds(t, hp);
        if hash == hashtab[hp].hashval && s == names[n] {
          return Some(n);
        }
        assert t.slots[hp] == Hashentry(Some(n), Home(t, n));
        hp := hp + 1;
        if hp >= hashtab.Length {
          hp := 0;
        }
        i := i + 1;
      }
      NotThere(t, s, i);
      nintnames := nintnames + 1;
      if nintnames >= hashtab.Length - 1 {
        return None;
      }
      EnteredGood(t, s, i);
      hashtab[hp] := Hashentry(Some(|names|), hash);
      q := Some(|names|);
      names, depths := names + [s], depths + [i];
      assert Now() == Entered(t, s, i);
    }

    /** The C name mkname gives to the entry of s. */
    method Cvarname(s: string, keywords: set<string>) returns (t: string)
      ensures t == CName(s, keywords)
    {
      var i, k := 0, 0;
      while k < |s|
        invariant 0 <= k <= |s| && (i == 2 <==> HasUnderscore(s[..k])) && (i == 0 || i == 2)
      {
        UnderscoreSoFar(s, k);
        if s[k] == '_' {
          i := 2;
        }
        k := k + 1;
      }
      assert s[..|s|] == s;
      if i == 0 && s in keywords {
        i := 2;
      }
      t := s;
      while i > 0
        invariant 0 <= i <= 2
        invariant t == s + (if Lengthened(s, keywords) then ["", "_", "__"][2 - i] else "")
      {
        t := t + "_";
        i := i - 1;
      }
    }

    /** The hash value of a name. */
    method Hash(s: string) returns (hash: nat)
      requires Valid()
      ensures hash == Sum(s) % hashtab.Length
    {
      hash := 0;
      var k := 0;
      while k < |s|
        invariant 0 <= k <= |s| && hash + Sum(s[k..]) == Sum(s)
      {
        assert s[k..][1..] == s[k + 1..];
        hash := hash + s[k] as nat;
        k := k + 1;
      }
      hash := hash % hashtab.Length;
    }
  }
}
