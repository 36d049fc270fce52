// How far classes and COMMON blocks reach: no further than a name or an item in them.
module EquivExtents {
  import opened Options
  import opened EquivTable
  import opened EquivFacts
  import opened EquivSteps
  import opened EquivRuns

  /** Places counted from the start of a name: where a class may begin, and where a class or a block may end. */
  datatype Marks = Marks(low: iset<(nat, int)>, high: iset<(nat, int)>)

  /** Place d of name n is at pos of class or block v. */
  ghost predicate At(names: seq<Name>, ms: iset<(nat, int)>, n: nat, d: int, stg: Stg, v: int, pos: int) {
    (n, d) in ms && n < |names| && names[n].vstg == stg && names[n].varno == v && names[n].voffset + d == pos
  }

  ghost predicate Touched(names: seq<Name>, ms: iset<(nat, int)>, stg: Stg, v: int, pos: int) {
    exists n: nat, d: int {:trigger At(names, ms, n, d, stg, v, pos)} :: At(names, ms, n, d, stg, v, pos)
  }

  /** The same for the name of link k, which is to be put so that its item comes to base. */
  ghost predicate AtLink(rest: seq<Link>, ms: iset<(nat, int)>, k: nat, d: int, base: int, pos: int) {
    k < |rest| && rest[k].np.Some? && (rest[k].np.value, d) in ms && base - rest[k].off + d == pos
  }

  ghost predicate TouchedBy(names: seq<Name>, ms: iset<(nat, int)>, stg: Stg, v: int, base: int, rest: seq<Link>,
                            pos: int) {
    || Touched(names, ms, stg, v, pos)
    || exists k: nat, d: int {:trigger AtLink(rest, ms, k, d, base, pos)} :: AtLink(rest, ms, k, d, base, pos)
  }

  ghost predicate HasName(names: seq<Name>, c: int) {
    exists n :: 0 <= n < |names| && names[n].vstg.STGEQUIV? && names[n].varno == c
  }

  /** A class that has names begins and ends at marks of its names. */
  ghost predicate Ends(t: Table, ms: Marks, c: nat) {
    c < |t.classes| &&
    if HasName(t.names, c) then
      && Touched(t.names, ms.low, STGEQUIV, c, t.classes[c].bottom)
      && Touched(t.names, ms.high, STGEQUIV, c, t.classes[c].top)
    else t.classes[c].bottom == t.classes[c].top == 0
  }

  /** Block b is as long as it was, or longer and ends at a mark of a name in it. */
  ghost predicate BlockEnds(t: Table, ms: Marks, ext0: seq<int>, b: nat) {
    && b < |t.ext| == |ext0| && t.ext[b] >= ext0[b]
    && (t.ext[b] == ext0[b] || Touched(t.names, ms.high, STGCOMMON, b, t.ext[b]))
  }

  ghost predicate Exact(t: Table, ms: Marks, ext0: seq<int>) {
    && |t.ext| == |ext0|
    && (forall c: nat {:trigger Ends(t, ms, c)} | c < |t.classes| :: Ends(t, ms, c))
    && (forall b: nat {:trigger BlockEnds(t, ms, ext0, b)} | b < |t.ext| :: BlockEnds(t, ms, ext0, b))
  }

  /** Every place an item or an end of a name of the list is among the marks. */
  ghost predicate Marked(names: seq<Name>, links: seq<Link>, ms: Marks) {
    forall k | 0 <= k < |links| && links[k].np.Some? ::
      && links[k].np.value < |names|
      && (links[k].np.value, 0) in ms.low && (links[k].np.value, names[links[k].np.value].leng) in ms.high
      && (links[k].np.value, links[k].off) in ms.low && (links[k].np.value, links[k].off) in ms.high
  }

  // ----- names that move -----

  lemma TouchedShift(names: seq<Name>, ms: iset<(nat, int)>, o: int, stg: Stg, v: int, d: int, pos: int)
    requires Touched(names, ms, STGEQUIV, o, pos)
    ensures Touched(Shift(names, o, stg, v, d), ms, stg, v, pos + d)
  {
    var n: nat, e: int :| At(names, ms, n, e, STGEQUIV, o, pos);
    assert At(Shift(names, o, stg, v, d), ms, n, e, stg, v, pos + d);
  }

  lemma TouchedStays(names: seq<Name>, ms: iset<(nat, int)>, o: int, stg: Stg, v: int, d: int, s: Stg, w: int, pos: int)
    requires Touched(names, ms, s, w, pos) && !(s.STGEQUIV? && w == o)
    ensures Touched(Shift(names, o, stg, v, d), ms, s, w, pos)
  {
    var n: nat, e: int :| At(names, ms, n, e, s, w, pos);
    assert At(Shift(names, o, stg, v, d), ms, n, e, s, w, pos);
  }

  lemma TouchedFresh(names: seq<Name>, ms: iset<(nat, int)>, m: nat, x: Name, s: Stg, w: int, pos: int)
    requires Touched(names, ms, s, w, pos) && m < |names| && names[m].vstg != s
    ensures Touched(names[m := x], ms, s, w, pos)
  {
    var n: nat, e: int :| At(names, ms, n, e, s, w, pos);
    assert At(names[m := x], ms, n, e, s, w, pos);
  }

  /** The first link is no longer ahead: it has no name, or the name is in its place. */
  lemma LinkPlaced(names: seq<Name>, ms: iset<(nat, int)>, stg: Stg, v: int, base: int, rest: seq<Link>, pos: int)
    requires TouchedBy(names, ms, stg, v, base, rest, pos) && rest != []
    requires rest[0].np.Some? ==>
               && rest[0].np.value < |names| && names[rest[0].np.value].vstg == stg
               && names[rest[0].np.value].varno == v && names[rest[0].np.value].voffset == base - rest[0].off
    ensures TouchedBy(names, ms, stg, v, base, rest[1..], pos)
  {
    if !Touched(names, ms, stg, v, pos) {
      var k: nat, d: int :| AtLink(rest, ms, k, d, base, pos);
      if k == 0 {
        assert At(names, ms, rest[0].np.value, d, stg, v, pos);
      } else {
        assert AtLink(rest[1..], ms, k - 1, d, base, pos);
      }
    }
  }

  // ----- placing -----

  /** Class i while its declaration is being placed: its ends are at marks of names that are in it or ahead. */
  ghost predicate ClassEnds(t: Table, ms: Marks, i: nat, rest: seq<Link>) {
    && i < |t.classes|
    && var c := t.classes[i];
       || (c.bottom == c.top == 0 && !HasName(t.names, i) && forall k | 0 <= k < |rest| :: rest[k].np.None?)
       || (&& TouchedBy(t.names, ms.low, STGEQUIV, i, 0, rest, c.bottom)
           && TouchedBy(t.names, ms.high, STGEQUIV, i, 0, rest, c.top))
  }

  ghost predicate MidExact(t: Table, ms: Marks, ext0: seq<int>, i: nat, rest: seq<Link>) {
    && |t.ext| == |ext0| && ClassEnds(t, ms, i, rest)
    && (forall c: nat {:trigger Ends(t, ms, c)} | c < |t.classes| && c != i :: Ends(t, ms, c))
    && (forall b: nat {:trigger BlockEnds(t, ms, ext0, b)} | b < |t.ext| :: BlockEnds(t, ms, ext0, b))
  }

  lemma StayExact(t: Table, ms: Marks, ext0: seq<int>, i: nat, rest: seq<Link>)
    requires MidExact(t, ms, ext0, i, rest) && rest != []
    requires rest[0].np.Some? ==>
               rest[0].np.value < |t.names| && ShelvedName(t.names[rest[0].np.value], i, rest[0].off)
    ensures MidExact(t, ms, ext0, i, rest[1..])
  {
    var c := t.classes[i];
    if TouchedBy(t.names, ms.low, STGEQUIV, i, 0, rest, c.bottom)
       && TouchedBy(t.names, ms.high, STGEQUIV, i, 0, rest, c.top) {
      LinkPlaced(t.names, ms.low, STGEQUIV, i, 0, rest, c.bottom);
      LinkPlaced(t.names, ms.high, STGEQUIV, i, 0, rest, c.top);
    }
  }

  lemma FreshExact(t: Table, ms: Marks, ext0: seq<int>, i: nat, rest: seq<Link>, n: nat, x: Name)
    requires MidExact(t, ms, ext0, i, rest) && rest != [] && rest[0].np == Some(n) && n < |t.names|
    requires !Placed(t.names[n]) && ShelvedName(x, i, rest[0].off)
    ensures MidExact(t.(names := t.names[n := x]), ms, ext0, i, rest[1..])
  {
    var t' := t.(names := t.names[n := x]);
    FreshTouches(t, ms.low, i, rest, n, x, t.classes[i].bottom);
    FreshTouches(t, ms.high, i, rest, n, x, t.classes[i].top);
    forall c: nat | c < |t.classes| && c != i
      ensures Ends(t', ms, c)
    {
      assert Ends(t, ms, c);
      FreshEnds(t, ms, i, n, x, c);
    }
    forall b: nat | b < |t.ext|
      ensures BlockEnds(t', ms, ext0, b)
    {
      assert BlockEnds(t, ms, ext0, b);
      if t.ext[b] != ext0[b] {
        TouchedFresh(t.names, ms.high, n, x, STGCOMMON, b, t.ext[b]);
      }
    }
  }

  lemma FreshTouches(t: Table, ms: iset<(nat, int)>, i: nat, rest: seq<Link>, n: nat, x: Name, pos: int)
    requires TouchedBy(t.names, ms, STGEQUIV, i, 0, rest, pos) && rest != [] && rest[0].np == Some(n) && n < |t.names|
    requires !Placed(t.names[n]) && ShelvedName(x, i, rest[0].off)
    ensures TouchedBy(t.names[n := x], ms, STGEQUIV, i, 0, rest[1..], pos)
  {
    if Touched(t.names, ms, STGEQUIV, i, pos) {
      TouchedFresh(t.names, ms, n, x, STGEQUIV, i, pos);
    }
    LinkPlaced(t.names[n := x], ms, STGEQUIV, i, 0, rest, pos);
  }

  lemma FreshEnds(t: Table, ms: Marks, i: nat, n: nat, x: Name, c: nat)
    requires Ends(t, ms, c) && c != i && n < |t.names| && !Placed(t.names[n])
    requires x.vstg.STGEQUIV? ==> x.varno == i
    ensures Ends(t.(names := t.names[n := x]), ms, c)
  {
    var names' := t.names[n := x];
    assert HasName(t.names, c) <==> HasName(names', c) by {
      if m :| 0 <= m < |names'| && names'[m].vstg.STGEQUIV? && names'[m].varno == c {
        assert t.names[m] == names'[m];
      }
      if m :| 0 <= m < |t.names| && t.names[m].vstg.STGEQUIV? && t.names[m].varno == c {
        assert t.names[m] == names'[m];
      }
    }
    if HasName(t.names, c) {
      TouchedFresh(t.names, ms.low, n, x, STGEQUIV, c, t.classes[c].bottom);
      TouchedFresh(t.names, ms.high, n, x, STGEQUIV, c, t.classes[c].top);
    }
  }

  /** Names and marks after class o has moved into v by d. */
  lemma ShiftEnds(t: Table, t': Table, ms: Marks, o: nat, stg: Stg, v: int, d: int, c: nat)
    requires Ends(t, ms, c) && c != o && t'.names == Shift(t.names, o, stg, v, d) && !(stg.STGEQUIV? && v == c)
    requires c < |t'.classes| && t'.classes[c] == t.classes[c]
    ensures Ends(t', ms, c)
  {
    assert HasName(t.names, c) <==> HasName(t'.names, c) by {
      if m :| 0 <= m < |t.names| && t'.names[m].vstg.STGEQUIV? && t'.names[m].varno == c {
        assert t.names[m] == t'.names[m];
      }
      if m :| 0 <= m < |t.names| && t.names[m].vstg.STGEQUIV? && t.names[m].varno == c {
        assert t.names[m] == t'.names[m];
      }
    }
    if HasName(t.names, c) {
      TouchedStays(t.names, ms.low, o, stg, v, d, STGEQUIV, c, t.classes[c].bottom);
      TouchedStays(t.names, ms.high, o, stg, v, d, STGEQUIV, c, t.classes[c].top);
    }
  }

  lemma EmptiedEnds(t: Table, ms: Marks, names: seq<Name>, o: nat, stg: Stg, v: int, d: int)
    requires t.names == Shift(names, o, stg, v, d) && !(stg.STGEQUIV? && v == o)
    requires o < |t.classes| && t.classes[o] == Class([], 0, 0)
    ensures Ends(t, ms, o)
  {
    assert !HasName(t.names, o);
  }

  /** What was touched in class i, in class o, or by a link ahead is touched after class o has joined class i. */
  lemma MergeTouches(names: seq<Name>, ms: iset<(nat, int)>, i: nat, o: nat, n: nat, rest: seq<Link>, pos: int)
    requires rest != [] && rest[0].np == Some(n) && n < |names| && names[n].vstg.STGEQUIV? && names[n].varno == o != i
    ensures var delta := rest[0].off + names[n].voffset;
            var names' := Shift(names, o, STGEQUIV, i, -delta);
            && (TouchedBy(names, ms, STGEQUIV, i, 0, rest, pos) ==>
                  TouchedBy(names', ms, STGEQUIV, i, 0, rest[1..], pos))
            && (Touched(names, ms, STGEQUIV, o, pos) ==>
                  TouchedBy(names', ms, STGEQUIV, i, 0, rest[1..], pos - delta))
  {
    var delta := rest[0].off + names[n].voffset;
    var names' := Shift(names, o, STGEQUIV, i, -delta);
    if Touched(names, ms, STGEQUIV, o, pos) {
      TouchedShift(names, ms, o, STGEQUIV, i, -delta, pos);
    }
    if TouchedBy(names, ms, STGEQUIV, i, 0, rest, pos) {
      if Touched(names, ms, STGEQUIV, i, pos) {
        TouchedStays(names, ms, o, STGEQUIV, i, -delta, STGEQUIV, i, pos);
      }
      assert names'[n].voffset == -rest[0].off;
      LinkPlaced(names', ms, STGEQUIV, i, 0, rest, pos);
    }
  }

  lemma MergeClass(t: Table, ms: Marks, i: nat, o: nat, n: nat, rest: seq<Link>, chain: seq<Link>)
    requires ClassEnds(t, ms, i, rest) && Ends(t, ms, o) && rest != [] && rest[0].np == Some(n) && n < |t.names|
    requires t.names[n].vstg.STGEQUIV? && t.names[n].varno == o != i && o < |t.classes|
    ensures ClassEnds(MergedTable(t, i, o, chain, rest[0].off + t.names[n].voffset), ms, i, rest[1..])
  {
    assert HasName(t.names, o) && rest[0].np.Some?;
    MergeTouches(t.names, ms.low, i, o, n, rest, t.classes[i].bottom);
    MergeTouches(t.names, ms.high, i, o, n, rest, t.classes[i].top);
    MergeTouches(t.names, ms.low, i, o, n, rest, t.classes[o].bottom);
    MergeTouches(t.names, ms.high, i, o, n, rest, t.classes[o].top);
  }

  lemma MergeExact(t: Table, ms: Marks, ext0: seq<int>, i: nat, o: nat, n: nat, rest: seq<Link>, chain: seq<Link>)
    requires MidExact(t, ms, ext0, i, rest) && rest != [] && rest[0].np == Some(n) && n < |t.names|
    requires t.names[n].vstg.STGEQUIV? && t.names[n].varno == o != i && o < |t.classes|
    ensures MidExact(MergedTable(t, i, o, chain, rest[0].off + t.names[n].voffset), ms, ext0, i, rest[1..])
  {
    var delta := rest[0].off + t.names[n].voffset;
    var t' := MergedTable(t, i, o, chain, delta);
    assert Ends(t, ms, o);
    MergeClass(t, ms, i, o, n, rest, chain);
    forall c: nat | c < |t'.classes| && c != i
      ensures Ends(t', ms, c)
    {
      if c == o {
        EmptiedEnds(t', ms, t.names, o, STGEQUIV, i, -delta);
      } else {
        assert Ends(t, ms, c);
        ShiftEnds(t, t', ms, o, STGEQUIV, i, -delta, c);
      }
    }
    BlocksStay(t, t', ms, ext0, o, i, -delta);
  }

  lemma BlocksStay(t: Table, t': Table, ms: Marks, ext0: seq<int>, o: nat, v: int, d: int)
    requires t'.names == Shift(t.names, o, STGEQUIV, v, d) && t'.ext == t.ext
    requires forall b: nat {:trigger BlockEnds(t, ms, ext0, b)} | b < |t.ext| :: BlockEnds(t, ms, ext0, b)
    ensures forall b: nat {:trigger BlockEnds(t', ms, ext0, b)} | b < |t'.ext| :: BlockEnds(t', ms, ext0, b)
  {
    forall b: nat | b < |t'.ext|
      ensures BlockEnds(t', ms, ext0, b)
    {
      assert BlockEnds(t, ms, ext0, b);
      if t.ext[b] != ext0[b] {
        TouchedStays(t.names, ms.high, o, STGEQUIV, v, d, STGCOMMON, b, t.ext[b]);
      }
    }
  }

  /** One item placed. */
  lemma PlaceExact(t: Table, chains: seq<seq<Link>>, i: nat, done: seq<Link>, rest: seq<Link>, ms: Marks,
                   ext0: seq<int>)
    requires Mid(t, chains, i, done, rest) && rest != [] && Place(t, i, rest[0]).nerr == t.nerr
    requires MidExact(t, ms, ext0, i, rest)
    ensures MidExact(Place(t, i, rest[0]), ms, ext0, i, rest[1..])
  {
    var l := rest[0];
    if l.np.None? || ShelvedName(t.names[l.np.value], i, l.off) {
      PlaceStays(t, i, l);
      StayExact(t, ms, ext0, i, rest);
    } else {
      var n, x := l.np.value, t.names[l.np.value];
      if x.vstg.STGEQUIV? {
        var front, chain := PlaceIsMerge(t, i, x.varno, n, l, chains[x.varno], chains[i] + rest);
        MergeExact(t, ms, ext0, i, x.varno, n, rest, chain);
      } else {
        FreshExact(t, ms, ext0, i, rest, n, x.(vstg := STGEQUIV, varno := i, voffset := -l.off));
      }
    }
  }

  lemma NoneAhead(names: seq<Name>, ms: iset<(nat, int)>, stg: Stg, v: int, base: int, pos: int)
    requires TouchedBy(names, ms, stg, v, base, [], pos)
    ensures Touched(names, ms, stg, v, pos)
  {}

  lemma EndPlacingExact(t: Table, ms: Marks, ext0: seq<int>, i: nat)
    requires MidExact(t, ms, ext0, i, [])
    ensures Exact(t, ms, ext0)
  {
    var c := t.classes[i];
    assert Ends(t, ms, i) by {
      if TouchedBy(t.names, ms.low, STGEQUIV, i, 0, [], c.bottom) {
        if TouchedBy(t.names, ms.high, STGEQUIV, i, 0, [], c.top) {
          NoneAhead(t.names, ms.low, STGEQUIV, i, 0, c.bottom);
          NoneAhead(t.names, ms.high, STGEQUIV, i, 0, c.top);
          var n: nat, d: int :| At(t.names, ms.low, n, d, STGEQUIV, i, c.bottom);
          assert t.names[n].vstg.STGEQUIV?;
        }
      }
    }
  }

  /** The class of a declaration whose items have been looked up. */
  lemma OpenedTouches(t1: Table, ms: Marks, i: nat, links: seq<Link>, stg: Stg, v: int, base: int)
    requires Opened(t1, i, links) && Marked(t1.names, links, ms)
    requires exists k :: 0 <= k < |links| && links[k].np.Some?
    ensures TouchedBy(t1.names, ms.low, stg, v, base, links, base + t1.classes[i].bottom)
    ensures TouchedBy(t1.names, ms.high, stg, v, base, links, base + t1.classes[i].top)
  {
    var c := t1.classes[i];
    var k :| 0 <= k < |links| && links[k].np.Some?;
    if c.bottom == 0 {
      assert AtLink(links, ms.low, k, links[k].off, base, base);
    } else {
      var l :| 0 <= l < |links| && links[l].np.Some? && c.bottom == -links[l].off;
      assert AtLink(links, ms.low, l, 0, base, base + c.bottom);
    }
    if c.top == 0 {
      assert AtLink(links, ms.high, k, links[k].off, base, base);
    } else {
      var l :| 0 <= l < |links| && links[l].np.Some? && c.top == t1.names[links[l].np.value].leng - links[l].off;
      assert AtLink(links, ms.high, l, t1.names[links[l].np.value].leng, base, base + c.top);
    }
  }

  lemma SameNamesEnds(t: Table, t1: Table, ms: Marks, c: nat)
    requires Ends(t, ms, c) && t1.names == t.names && c < |t1.classes| && t1.classes[c] == t.classes[c]
    ensures Ends(t1, ms, c)
  {}

  lemma StartPlacingExact(t: Table, chains: seq<seq<Link>>, i: nat, t1: Table, links: seq<Link>, ms: Marks,
                          ext0: seq<int>)
    requires Between(t, chains, i) && i < |chains| && Opened(t1, i, links) && Marked(t1.names, links, ms)
    requires t1 == t.(classes := t.classes[i := t1.classes[i]], nerr := t1.nerr)
    requires Exact(t, ms, ext0)
    ensures MidExact(t1, ms, ext0, i, links)
  {
    NoneInClass(t, chains, i);
    if exists k :: 0 <= k < |links| && links[k].np.Some? {
      OpenedTouches(t1, ms, i, links, STGEQUIV, i, 0);
    }
    forall c: nat | c < |t1.classes| && c != i
      ensures Ends(t1, ms, c)
    {
      assert Ends(t, ms, c);
    }
    forall b: nat | b < |t1.ext|
      ensures BlockEnds(t1, ms, ext0, b)
    {
      assert BlockEnds(t, ms, ext0, b);
    }
  }

  // ----- putting a declaration into a block -----

  /** Block comno while declaration i is being put into it. */
  ghost predicate GrowingEnds(t: Table, ms: Marks, ext0: seq<int>, rest: seq<Link>, comno: nat, c0: int) {
    && comno < |t.ext| == |ext0| && t.ext[comno] >= ext0[comno]
    && (t.ext[comno] == ext0[comno] || TouchedBy(t.names, ms.high, STGCOMMON, comno, c0, rest, t.ext[comno]))
  }

  ghost predicate CommitExact(t: Table, ms: Marks, ext0: seq<int>, i: nat, rest: seq<Link>, comno: nat, c0: int) {
    && |t.ext| == |ext0| && GrowingEnds(t, ms, ext0, rest, comno, c0)
    && (forall c: nat {:trigger Ends(t, ms, c)} | c < |t.classes| && c != i :: Ends(t, ms, c))
    && (forall b: nat {:trigger BlockEnds(t, ms, ext0, b)} | b < |t.ext| && b != comno :: BlockEnds(t, ms, ext0, b))
  }

  lemma StartCommittingExact(t: Table, chains: seq<seq<Link>>, i: nat, t1: Table, links: seq<Link>, comno: nat, c0: int,
                             ms: Marks, ext0: seq<int>)
    requires Between(t, chains, i) && i < |chains| && Opened(t1, i, links) && Marked(t1.names, links, ms)
    requires t1 == t.(classes := t.classes[i := t1.classes[i]], nerr := t1.nerr)
    requires Exact(t, ms, ext0) && comno < |t.ext| && exists k :: 0 <= k < |links| && links[k].np.Some?
    ensures CommitExact(Extended(t1, i, comno, c0), ms, ext0, i, links, comno, c0)
  {
    var t2 := Extended(t1, i, comno, c0);
    assert BlockEnds(t, ms, ext0, comno);
    OpenedTouches(t1, ms, i, links, STGCOMMON, comno, c0);
    forall c: nat | c < |t2.classes| && c != i
      ensures Ends(t2, ms, c)
    {
      assert Ends(t, ms, c);
    }
    forall b: nat | b < |t2.ext| && b != comno
      ensures BlockEnds(t2, ms, ext0, b)
    {
      assert BlockEnds(t, ms, ext0, b);
    }
  }

  lemma CommitStayExact(t: Table, ms: Marks, ext0: seq<int>, i: nat, rest: seq<Link>, comno: nat, c0: int)
    requires CommitExact(t, ms, ext0, i, rest, comno, c0) && rest != []
    requires rest[0].np.Some? ==>
               rest[0].np.value < |t.names| && InCommon(t.names[rest[0].np.value], comno, c0 - rest[0].off)
    ensures CommitExact(t, ms, ext0, i, rest[1..], comno, c0)
  {
    if t.ext[comno] != ext0[comno] {
      LinkPlaced(t.names, ms.high, STGCOMMON, comno, c0, rest, t.ext[comno]);
    }
  }

  lemma CommitFreshExact(t: Table, ms: Marks, ext0: seq<int>, i: nat, rest: seq<Link>, comno: nat, c0: int, n: nat,
                         x: Name)
    requires CommitExact(t, ms, ext0, i, rest, comno, c0) && rest != [] && rest[0].np == Some(n) && n < |t.names|
    requires !Placed(t.names[n]) && InCommon(x, comno, c0 - rest[0].off)
    ensures CommitExact(t.(names := t.names[n := x]), ms, ext0, i, rest[1..], comno, c0)
  {
    var t' := t.(names := t.names[n := x]);
    forall c: nat | c < |t.classes| && c != i
      ensures Ends(t', ms, c)
    {
      assert Ends(t, ms, c);
      FreshEnds(t, ms, i, n, x, c);
    }
    forall b: nat | b < |t.ext| && b != comno
      ensures BlockEnds(t', ms, ext0, b)
    {
      assert BlockEnds(t, ms, ext0, b);
      if t.ext[b] != ext0[b] {
        TouchedFresh(t.names, ms.high, n, x, STGCOMMON, b, t.ext[b]);
      }
    }
    if t.ext[comno] != ext0[comno] {
      if Touched(t.names, ms.high, STGCOMMON, comno, t.ext[comno]) {
        TouchedFresh(t.names, ms.high, n, x, STGCOMMON, comno, t.ext[comno]);
      }
      LinkPlaced(t'.names, ms.high, STGCOMMON, comno, c0, rest, t.ext[comno]);
    }
  }

  lemma DragExact(t: Table, ms: Marks, ext0: seq<int>, i: nat, o: nat, n: nat, rest: seq<Link>, comno: nat, c0: int)
    requires CommitExact(t, ms, ext0, i, rest, comno, c0) && rest != [] && rest[0].np == Some(n) && n < |t.names|
    requires t.names[n].vstg.STGEQUIV? && t.names[n].varno == o != i && o < |t.classes|
    ensures CommitExact(Dragged(t, o, comno, c0 - rest[0].off - t.names[n].voffset), ms, ext0, i, rest[1..], comno, c0)
  {
    var d := c0 - rest[0].off - t.names[n].voffset;
    var t' := Dragged(t, o, comno, d);
    assert Ends(t, ms, o) && HasName(t.names, o);
    TouchedShift(t.names, ms.high, o, STGCOMMON, comno, d, t.classes[o].top);
    if t.ext[comno] != ext0[comno] {
      if Touched(t.names, ms.high, STGCOMMON, comno, t.ext[comno]) {
        TouchedStays(t.names, ms.high, o, STGCOMMON, comno, d, STGCOMMON, comno, t.ext[comno]);
      }
      assert t'.names[n].voffset == c0 - rest[0].off;
      LinkPlaced(t'.names, ms.high, STGCOMMON, comno, c0, rest, t.ext[comno]);
    }
    forall c: nat | c < |t'.classes| && c != i
      ensures Ends(t', ms, c)
    {
      if c == o {
        EmptiedEnds(t', ms, t.names, o, STGCOMMON, comno, d);
      } else {
        assert Ends(t, ms, c);
        ShiftEnds(t, t', ms, o, STGCOMMON, comno, d, c);
      }
    }
    forall b: nat | b < |t'.ext| && b != comno
      ensures BlockEnds(t', ms, ext0, b)
    {
      assert BlockEnds(t, ms, ext0, b);
      if t.ext[b] != ext0[b] {
        TouchedStays(t.names, ms.high, o, STGCOMMON, comno, d, STGCOMMON, b, t.ext[b]);
      }
    }
  }

  /** One item put into the block. */
  lemma CommitStepExact(t: Table, chains: seq<seq<Link>>, i: nat, done: seq<Link>, rest: seq<Link>, comno: nat, c0: int,
                        ms: Marks, ext0: seq<int>)
    requires Committing(t, chains, i, done, rest, comno, c0) && rest != []
    requires CommitExact(t, ms, ext0, i, rest, comno, c0)
    requires CommonLink(t, i, rest[0], comno, c0).nerr == t.nerr
    ensures CommitExact(CommonLink(t, i, rest[0], comno, c0), ms, ext0, i, rest[1..], comno, c0)
  {
    var l := rest[0];
    if l.np.None? || t.names[l.np.value].vstg.STGCOMMON? {
      CommitStayExact(t, ms, ext0, i, rest, comno, c0);
    } else {
      var n, x := l.np.value, t.names[l.np.value];
      if x.vstg.STGEQUIV? {
        CommitDrag(t, chains, i, done, rest, comno, c0);
        DragLink(t, i, x.varno, n, l, comno, c0);
        DragExact(t, ms, ext0, i, x.varno, n, rest, comno, c0);
      } else {
        CommitFreshExact(t, ms, ext0, i, rest, comno, c0, n,
                         x.(vstg := STGCOMMON, varno := comno, voffset := c0 - l.off));
      }
    }
  }

  lemma {:induction false} CommitAllExact(t: Table, chains: seq<seq<Link>>, i: nat, done: seq<Link>, rest: seq<Link>,
                                          comno: nat, c0: int, ms: Marks, ext0: seq<int>)
    requires Committing(t, chains, i, done, rest, comno, c0) && CommitExact(t, ms, ext0, i, rest, comno, c0)
    requires CommonLinks(t, i, rest, comno, c0).nerr == t.nerr
    ensures CommitExact(CommonLinks(t, i, rest, comno, c0), ms, ext0, i, [], comno, c0)
    decreases |rest|
  {
    if rest != [] {
      var t1 := CommonLink(t, i, rest[0], comno, c0);
      assert CommonLinks(t, i, rest, comno, c0) == CommonLinks(t1, i, rest[1..], comno, c0);
      CommitStepExact(t, chains, i, done, rest, comno, c0, ms, ext0);
      var chains1 := CommitStep(t, chains, i, done, rest, comno, c0);
      CommitAllExact(t1, chains1, i, done + [rest[0]], rest[1..], comno, c0, ms, ext0);
    }
  }

  lemma EndCommittingExact(t: Table, chains: seq<seq<Link>>, i: nat, done: seq<Link>, comno: nat, c0: int, ms: Marks,
                           ext0: seq<int>)
    requires Committing(t, chains, i, done, [], comno, c0) && CommitExact(t, ms, ext0, i, [], comno, c0)
    ensures Exact(t.(classes := t.classes[i := Class([], 0, 0)]), ms, ext0)
  {
    var t' := t.(classes := t.classes[i := Class([], 0, 0)]);
    NoneLeft(t, chains, i, done, comno, c0);
    forall c: nat | c < |t'.classes|
      ensures Ends(t', ms, c)
    {
      assert c != i ==> Ends(t, ms, c);
    }
    forall b: nat | b < |t'.ext|
      ensures BlockEnds(t', ms, ext0, b)
    {
      if b == comno && t.ext[b] != ext0[b] {
        NoneAhead(t.names, ms.high, STGCOMMON, comno, c0, t.ext[comno]);
      }
      assert b != comno ==> BlockEnds(t, ms, ext0, b);
    }
  }

  /** eqvcommon on declaration i as a whole. */
  lemma CommitDeclarationExact(t: Table, chains: seq<seq<Link>>, i: nat, t1: Table, links: seq<Link>, comno: nat,
                               c0: int, ms: Marks, ext0: seq<int>)
    requires Between(t, chains, i) && i < |chains| && Opened(t1, i, links) && Marked(t1.names, links, ms)
    requires t1 == t.(classes := t.classes[i := t1.classes[i]])
    requires comno < |t.ext| && EqvCommon(t1, i, comno, c0).nerr == t1.nerr
    requires Exact(t, ms, ext0) && exists k :: 0 <= k < |links| && links[k].np.Some?
    ensures Exact(EqvCommon(t1, i, comno, c0), ms, ext0)
  {
    OpenedSpanned(t, chains, i, t1, links);
    EqvCommonIs(t1, i, links, comno, c0);
    StartCommitting(t, chains, i, t1, links, comno, c0);
    StartCommittingExact(t, chains, i, t1, links, comno, c0, ms, ext0);
    WholeCommitExact(Extended(t1, i, comno, c0), chains, i, links, comno, c0, ms, ext0);
  }

  lemma WholeCommitExact(t2: Table, chains: seq<seq<Link>>, i: nat, links: seq<Link>, comno: nat, c0: int, ms: Marks,
                         ext0: seq<int>)
    requires Committing(t2, chains, i, [], links, comno, c0) && CommitExact(t2, ms, ext0, i, links, comno, c0)
    requires CommonLinks(t2, i, links, comno, c0).nerr == t2.nerr
    ensures var t3 := CommonLinks(t2, i, links, comno, c0);
            Exact(t3.(classes := t3.classes[i := Class([], 0, 0)]), ms, ext0)
  {
    var t3 := CommonLinks(t2, i, links, comno, c0);
    var chains' := CommitAll(t2, t2, chains, i, [], links, comno, c0, t3);
    assert [] + links == links;
    CommitAllExact(t2, chains, i, [], links, comno, c0, ms, ext0);
    EndCommittingExact(t3, chains', i, links, comno, c0, ms, ext0);
  }
}
