// Why the steps of doequiv are right: every step moves whole classes rigidly, so
// items that were given one address keep one address.
module EquivFacts {
  import opened Options
  import opened EquivTable

  // ----- rigid motions -----

  predicate Placed(x: Name) { x.vstg.STGEQUIV? || x.vstg.STGCOMMON? }

  /** Two names in the same class or the same COMMON block. */
  predicate Together(x: Name, y: Name) { Placed(x) && x.vstg == y.vstg && x.varno == y.varno }

  /** b comes from a by placing new names and moving whole classes. */
  ghost predicate Rigid(a: seq<Name>, b: seq<Name>) {
    && |a| == |b|
    && (forall n | 0 <= n < |a| :: b[n].leng == a[n].leng && b[n].veqvadjust == a[n].veqvadjust)
    && (forall n | 0 <= n < |a| :: Placed(a[n]) ==> Placed(b[n]))
    && (forall n | 0 <= n < |a| :: a[n].vstg.STGCOMMON? ==> b[n] == a[n])
    && (forall n | 0 <= n < |a| :: a[n].vstg.STGOTHER? <==> b[n].vstg.STGOTHER?)
    && (forall n, m | 0 <= n < |a| && 0 <= m < |a| && Together(a[n], a[m]) ::
          Together(b[n], b[m]) && b[n].voffset - b[m].voffset == a[n].voffset - a[m].voffset)
  }

  lemma RigidTrans(a: seq<Name>, b: seq<Name>, c: seq<Name>)
    requires Rigid(a, b) && Rigid(b, c)
    ensures Rigid(a, c)
  {}

  /** All items of a list have one address in one class or block. */
  ghost predicate Agree(names: seq<Name>, links: seq<Link>) {
    && Known(|names|, links)
    && forall j, k | 0 <= j < |links| && 0 <= k < |links| && links[j].np.Some? && links[k].np.Some? ::
         var x, y := names[links[j].np.value], names[links[k].np.value];
         Together(x, y) && x.voffset + links[j].off == y.voffset + links[k].off
  }

  lemma AgreeKept(a: seq<Name>, b: seq<Name>, links: seq<Link>)
    requires Rigid(a, b) && Agree(a, links)
    ensures Agree(b, links)
  {}

  /** Class o moved by d into class or block v. */
  function Shift(names: seq<Name>, o: int, stg: Stg, v: int, d: int): (r: seq<Name>)
    ensures |r| == |names|
    ensures forall n | 0 <= n < |names| :: r[n] == ShiftName(names[n], o, stg, v, d)
  {
    seq(|names|, n requires 0 <= n < |names| => ShiftName(names[n], o, stg, v, d))
  }

  function ShiftName(x: Name, o: int, stg: Stg, v: int, d: int): Name {
    if x.vstg.STGEQUIV? && x.varno == o then x.(vstg := stg, varno := v, voffset := x.voffset + d) else x
  }

  lemma ShiftRigid(names: seq<Name>, o: int, stg: Stg, v: int, d: int)
    requires stg.STGEQUIV? || stg.STGCOMMON?
    ensures Rigid(names, Shift(names, o, stg, v, d))
  {}

  lemma FreshRigid(names: seq<Name>, n: nat, x: Name)
    requires n < |names| && (names[n].vstg.STGUNKNOWN? || names[n].vstg.STGBSS?)
    requires x.leng == names[n].leng && x.veqvadjust == names[n].veqvadjust && Placed(x)
    ensures Rigid(names, names[n := x])
  {}

  // ----- chains -----

  ghost predicate Listed(links: seq<Link>, n: nat) {
    exists k :: 0 <= k < |links| && links[k].np == Some(n)
  }

  lemma ListedCons(l: Link, rest: seq<Link>)
    ensures forall n: nat :: Listed([l] + rest, n) <==> l.np == Some(n) || Listed(rest, n)
  {
    var all := [l] + rest;
    forall n: nat
      ensures Listed(all, n) <==> l.np == Some(n) || Listed(rest, n)
    {
      if l.np == Some(n) {
        assert all[0].np == Some(n);
      }
      if Listed(rest, n) {
        var k :| 0 <= k < |rest| && rest[k].np == Some(n);
        assert all[k + 1].np == Some(n);
      }
    }
  }

  lemma ListedAppend(a: seq<Link>, b: seq<Link>)
    ensures forall n: nat :: Listed(a + b, n) <==> Listed(a, n) || Listed(b, n)
  {
    var all := a + b;
    forall n: nat
      ensures Listed(all, n) <==> Listed(a, n) || Listed(b, n)
    {
      if Listed(a, n) {
        var k :| 0 <= k < |a| && a[k].np == Some(n);
        assert all[k].np == Some(n);
      }
      if Listed(b, n) {
        var k :| 0 <= k < |b| && b[k].np == Some(n);
        assert all[|a| + k].np == Some(n);
      }
    }
  }

  /** Every name on the chain is in class c, at minus the offset of its link. */
  ghost predicate Shelved(names: seq<Name>, c: int, links: seq<Link>) {
    forall k {:trigger links[k]} | 0 <= k < |links| && links[k].np.Some? ::
      && links[k].np.value < |names|
      && ShelvedName(names[links[k].np.value], c, links[k].off)
  }

  predicate ShelvedName(x: Name, c: int, off: int) {
    x.vstg.STGEQUIV? && x.varno == c && x.voffset + off == 0
  }

  /** Every name in a class is on the chain of that class. */
  ghost predicate Complete(names: seq<Name>, chains: seq<seq<Link>>) {
    forall n | 0 <= n < |names| && names[n].vstg.STGEQUIV? ::
      0 <= names[n].varno < |chains| && Listed(chains[names[n].varno], n)
  }

  ghost predicate Filed(names: seq<Name>, chains: seq<seq<Link>>) {
    && (forall c | 0 <= c < |chains| :: Shelved(names, c, chains[c]))
    && Complete(names, chains)
  }

  /** eqveqv's loop moves exactly the listed names of class ov, and puts their links in front. */
  lemma {:induction false} MoveMoves(names: seq<Name>, chain: seq<Link>, into: seq<Link>, nv: int, ov: int, delta: int)
    requires Known(|names|, chain) && nv != ov
    requires forall k | 0 <= k < |chain| && chain[k].np.Some? ::
               names[chain[k].np.value].varno == ov ==> ShelvedName(names[chain[k].np.value], ov, chain[k].off)
    ensures var (names', chain') := Move(names, chain, into, nv, ov, delta);
            && (forall n: nat | n < |names| ::
                  names'[n] ==
                  if Listed(chain, n) && names[n].varno == ov then ShiftName(names[n], ov, STGEQUIV, nv, -delta)
                  else names[n])
            && |into| <= |chain'| && chain'[|chain'| - |into|..] == into
            && Shelved(names', nv, chain'[..|chain'| - |into|])
            && (forall n: nat | n < |names| && Listed(chain, n) && names[n].varno == ov ::
                  Listed(chain'[..|chain'| - |into|], n))
    decreases |chain|
  {
    if chain == [] {
      assert into[0..] == into;
    } else {
      var l := chain[0];
      ListedCons(l, chain[1..]);
      assert chain == [l] + chain[1..];
      if l.np.Some? && names[l.np.value].varno == ov {
        var x := names[l.np.value];
        var names1 := names[l.np.value := x.(varno := nv, voffset := x.voffset - delta)];
        var moved := l.(off := l.off + delta);
        MoveMoves(names1, chain[1..], [moved] + into, nv, ov, delta);
        var (names', chain') := Move(names1, chain[1..], [moved] + into, nv, ov, delta);
        var d := |chain'| - |into|;
        assert chain'[d - 1..] == [moved] + into;
        FrontGrows(chain', d, moved, into);
        assert names'[l.np.value] == names1[l.np.value];
      } else {
        MoveMoves(names, chain[1..], into, nv, ov, delta);
      }
    }
  }

  /** The front of a chain up to and including moved. */
  lemma FrontGrows(chain: seq<Link>, d: nat, moved: Link, into: seq<Link>)
    requires 0 < d <= |chain| && chain[d - 1..] == [moved] + into
    ensures chain[d..] == into && chain[..d] == chain[..d - 1] + [moved]
    ensures forall n: nat :: Listed(chain[..d], n) <==> Listed(chain[..d - 1], n) || moved.np == Some(n)
  {
    assert chain[d..] == chain[d - 1..][1..];
    assert chain[d - 1] == chain[d - 1..][0];
    assert chain[..d] == chain[..d - 1] + [moved];
    ListedAppend(chain[..d - 1], [moved]);
    ListedCons(moved, []);
    assert [moved] + [] == [moved];
  }

  // ----- one declaration without a COMMON item -----

  /** eqvbottom and eqvtop bound the class, extleng the block. */
  ghost predicate Spanned(t: Table) {
    && (forall c | 0 <= c < |t.classes| :: t.classes[c].bottom <= 0 <= t.classes[c].top)
    && (forall n | 0 <= n < |t.names| :: SpannedName(t, t.names[n]))
  }

  predicate SpannedName(t: Table, x: Name) {
    match x.vstg
    case STGEQUIV =>
      0 <= x.varno < |t.classes| && Spans(t.classes[x.varno], x.voffset, x.leng)
    case STGCOMMON =>
      0 <= x.varno < |t.ext| && 0 <= x.voffset && x.voffset + x.leng <= t.ext[x.varno]
    case _ => true
  }

  predicate Spans(c: Class, at: int, leng: int) { c.bottom <= at && at + leng <= c.top }

  /** The links not reached yet have bounds in the class, and names that can be placed. */
  ghost predicate Ready(t: Table, i: nat, rest: seq<Link>)
    requires i < |t.classes| && Known(|t.names|, rest)
  {
    forall k | 0 <= k < |rest| && rest[k].np.Some? ::
      var x := t.names[rest[k].np.value];
      !x.vstg.STGCOMMON? && !x.vstg.STGOTHER? && Spans(t.classes[i], -rest[k].off, x.leng)
  }

  /** In the middle of declaration i: done has been placed, rest has not. chains are the parts
      of the chains that are in force. */
  ghost predicate Mid(t: Table, chains: seq<seq<Link>>, i: nat, done: seq<Link>, rest: seq<Link>) {
    && |chains| == |t.classes| && i < |chains| && AllKnown(t)
    && Filed(t.names, chains) && Spanned(t)
    && (forall c | 0 <= c < |chains| && c != i :: t.classes[c].equivs == chains[c])
    && (forall c | i < c < |chains| :: t.classes[c] == Class([], 0, 0))
    && t.classes[i].equivs == chains[i] + rest
    && Shelved(t.names, i, done)
    && Known(|t.names|, rest) && Ready(t, i, rest)
  }

  lemma ShelvedAppend(names: seq<Name>, c: int, a: seq<Link>, l: Link)
    requires Shelved(names, c, a)
    requires l.np.Some? ==> l.np.value < |names| && ShelvedName(names[l.np.value], c, l.off)
    ensures Shelved(names, c, a + [l])
  {}

  /** A link with no name, or with a name that is in the class already. */
  lemma PlaceNothing(t: Table, chains: seq<seq<Link>>, i: nat, done: seq<Link>, rest: seq<Link>)
    returns (chains': seq<seq<Link>>)
    requires Mid(t, chains, i, done, rest) && rest != []
    requires rest[0].np.Some? ==> ShelvedName(t.names[rest[0].np.value], i, rest[0].off)
    ensures Mid(t, chains', i, done + [rest[0]], rest[1..])
  {
    chains' := chains[i := chains[i] + [rest[0]]];
    ShelvedAppend(t.names, i, chains[i], rest[0]);
    ShelvedAppend(t.names, i, done, rest[0]);
    ListedAppend(chains[i], [rest[0]]);
    assert chains[i] + rest == chains'[i] + rest[1..];
  }

  /** A name not placed before. */
  lemma PlaceFresh(t: Table, chains: seq<seq<Link>>, i: nat, done: seq<Link>, rest: seq<Link>)
    returns (chains': seq<seq<Link>>)
    requires Mid(t, chains, i, done, rest) && rest != [] && rest[0].np.Some?
    requires var x := t.names[rest[0].np.value]; x.vstg.STGUNKNOWN? || x.vstg.STGBSS?
    ensures Mid(Place(t, i, rest[0]), chains', i, done + [rest[0]], rest[1..])
    ensures Rigid(t.names, Place(t, i, rest[0]).names)
  {
    var n := rest[0].np.value;
    var names' := Place(t, i, rest[0]).names;
    FreshRigid(t.names, n, names'[n]);
    chains' := chains[i := chains[i] + [rest[0]]];
    forall c | 0 <= c < |chains|
      ensures Shelved(names', c, chains[c])
    {}
    assert Shelved(names', i, done);
    ShelvedAppend(names', i, chains[i], rest[0]);
    ShelvedAppend(names', i, done, rest[0]);
    ListedAppend(chains[i], [rest[0]]);
    assert [rest[0]][0].np == Some(n);
    assert chains[i] + rest == chains'[i] + rest[1..];
  }

  /** Merging class o into class i because of name n moves class o rigidly. */
  lemma MergeMoves(names: seq<Name>, chain: seq<Link>, into: seq<Link>, i: int, o: int, n: nat, off: int)
    requires n < |names| && names[n].vstg.STGEQUIV? && names[n].varno == o && o != i
    requires Shelved(names, o, chain) && Known(|names|, chain)
    requires forall m: nat | m < |names| && names[m].vstg.STGEQUIV? && names[m].varno == o :: Listed(chain, m)
    ensures var delta := off + names[n].voffset;
            var names1 := names[n := names[n].(varno := i, voffset := -off)];
            var (names', chain') := Move(names1, chain, into, i, o, delta);
            && names' == Shift(names, o, STGEQUIV, i, -delta)
            && |into| <= |chain'| && chain'[|chain'| - |into|..] == into
            && Shelved(names', i, chain'[..|chain'| - |into|])
            && forall m: nat | m < |names| && names[m].vstg.STGEQUIV? && names[m].varno == o && m != n ::
                 Listed(chain'[..|chain'| - |into|], m)
  {
    var delta := off + names[n].voffset;
    var names1 := names[n := names[n].(varno := i, voffset := -off)];
    MoveMoves(names1, chain, into, i, o, delta);
    var names' := Move(names1, chain, into, i, o, delta).0;
    forall m: nat | m < |names|
      ensures names'[m] == ShiftName(names[m], o, STGEQUIV, i, -delta)
    {
      if m != n && names[m].varno == o && Listed(chain, m) {
        var k :| 0 <= k < |chain| && chain[k].np == Some(m);
        assert ShelvedName(names[m], o, chain[k].off);
      }
    }
  }

  /** A name of an earlier class o: the whole class joins. */
  lemma PlaceMerge(t: Table, chains: seq<seq<Link>>, i: nat, done: seq<Link>, rest: seq<Link>)
    returns (chains': seq<seq<Link>>)
    requires Mid(t, chains, i, done, rest) && rest != [] && rest[0].np.Some?
    requires var x := t.names[rest[0].np.value]; x.vstg.STGEQUIV? && x.varno != i
    ensures Mid(Place(t, i, rest[0]), chains', i, done + [rest[0]], rest[1..])
    ensures var x := t.names[rest[0].np.value];
            Place(t, i, rest[0]).names == Shift(t.names, x.varno, STGEQUIV, i, -(rest[0].off + x.voffset))
  {
    var n := rest[0].np.value;
    var o := t.names[n].varno;
    var front, chain := PlaceIsMerge(t, i, o, n, rest[0], chains[o], chains[i] + rest);
    chains' := chains[o := []][i := front + chains[i] + [rest[0]]];
    MergeMid(t, chains, i, o, n, done, rest, front, chain, rest[0].off + t.names[n].voffset);
  }

  lemma PlaceIsMerge(t: Table, i: nat, o: nat, n: nat, l: Link, from: seq<Link>, into: seq<Link>)
    returns (front: seq<Link>, chain: seq<Link>)
    requires AllKnown(t) && i < |t.classes| && o < |t.classes| && i != o && n < |t.names| && l.np == Some(n)
    requires t.names[n].vstg.STGEQUIV? && t.names[n].varno == o
    requires t.classes[o].equivs == from && t.classes[i].equivs == into && Shelved(t.names, o, from)
    requires forall m: nat | m < |t.names| && t.names[m].vstg.STGEQUIV? && t.names[m].varno == o :: Listed(from, m)
    ensures var delta := l.off + t.names[n].voffset;
            && Place(t, i, l) == MergedTable(t, i, o, chain, delta) && chain == front + into
            && Shelved(Shift(t.names, o, STGEQUIV, i, -delta), i, front)
    ensures forall m: nat | m < |t.names| && t.names[m].vstg.STGEQUIV? && t.names[m].varno == o && m != n ::
              Listed(front, m)
  {
    var delta := l.off + t.names[n].voffset;
    MergeMoves(t.names, from, into, i, o, n, l.off);
    var names1 := t.names[n := t.names[n].(varno := i, voffset := -l.off)];
    chain := Move(names1, from, into, i, o, delta).1;
    front := chain[..|chain| - |into|];
  }

  function MergedTable(t: Table, i: nat, o: nat, chain: seq<Link>, delta: int): Table
    requires i < |t.classes| && o < |t.classes|
  {
    t.(names := Shift(t.names, o, STGEQUIV, i, -delta), classes := MergedClasses(t.classes, i, o, chain, delta))
  }

  lemma MergeMid(t: Table, chains: seq<seq<Link>>, i: nat, o: nat, n: nat, done: seq<Link>, rest: seq<Link>,
                 front: seq<Link>, chain: seq<Link>, delta: int)
    requires Mid(t, chains, i, done, rest) && rest != [] && rest[0].np == Some(n) && o < |chains| && o != i
    requires t.names[n].vstg.STGEQUIV? && t.names[n].varno == o && delta == rest[0].off + t.names[n].voffset
    requires chain == front + (chains[i] + rest) && Shelved(Shift(t.names, o, STGEQUIV, i, -delta), i, front)
    requires forall m: nat | m < |t.names| && t.names[m].vstg.STGEQUIV? && t.names[m].varno == o && m != n ::
               Listed(front, m)
    ensures Mid(MergedTable(t, i, o, chain, delta), chains[o := []][i := front + chains[i] + [rest[0]]], i,
                done + [rest[0]], rest[1..])
  {
    var l, names' := rest[0], Shift(t.names, o, STGEQUIV, i, -delta);
    assert chain == (front + chains[i] + [l]) + rest[1..];
    MergeFiled(t.names, chains, i, o, n, l, front, delta);
    MergeSpanned(t, i, o, chain, delta, rest);
    assert Shelved(names', i, done);
    ShelvedAppend(names', i, done, l);
    MergeKnown(t, i, o, chain, front, chains[i] + rest, delta);
  }

  function MergedClasses(classes: seq<Class>, i: nat, o: nat, chain: seq<Link>, delta: int): seq<Class>
    requires i < |classes| && o < |classes|
  {
    var from, to := classes[o], classes[i];
    classes[i := Class(chain, Lmin(to.bottom, from.bottom - delta), Lmax(to.top, from.top - delta))]
           [o := Class([], 0, 0)]
  }

  lemma MergeSpanned(t: Table, i: nat, o: nat, chain: seq<Link>, delta: int, rest: seq<Link>)
    requires i < |t.classes| && o < |t.classes| && i != o && Spanned(t)
    requires Known(|t.names|, rest) && Ready(t, i, rest) && rest != []
    ensures var t' := MergedTable(t, i, o, chain, delta);
            Spanned(t') && Known(|t'.names|, rest[1..]) && Ready(t', i, rest[1..])
  {
    var t' := MergedTable(t, i, o, chain, delta);
    forall m | 0 <= m < |t'.names|
      ensures SpannedName(t', t'.names[m])
    {
      assert SpannedName(t, t.names[m]);
    }
  }

  lemma MergeKnown(t: Table, i: nat, o: nat, chain: seq<Link>, front: seq<Link>, into: seq<Link>, delta: int)
    requires AllKnown(t) && i < |t.classes| && o < |t.classes| && i != o && t.classes[i].equivs == into
    requires chain == front + into && Shelved(Shift(t.names, o, STGEQUIV, i, -delta), i, front)
    ensures AllKnown(MergedTable(t, i, o, chain, delta))
  {
    assert Known(|t.names|, into);
  }

  lemma MergeFiled(names: seq<Name>, chains: seq<seq<Link>>, i: nat, o: nat, n: nat, l: Link, front: seq<Link>,
                   delta: int)
    requires Filed(names, chains) && i < |chains| && o < |chains| && i != o
    requires n < |names| && l.np == Some(n) && names[n].vstg.STGEQUIV? && names[n].varno == o
    requires delta == l.off + names[n].voffset
    requires Shelved(Shift(names, o, STGEQUIV, i, -delta), i, front)
    requires forall m: nat | m < |names| && names[m].vstg.STGEQUIV? && names[m].varno == o && m != n :: Listed(front, m)
    ensures Filed(Shift(names, o, STGEQUIV, i, -delta), chains[o := []][i := front + chains[i] + [l]])
  {
    var names' := Shift(names, o, STGEQUIV, i, -delta);
    var chains' := chains[o := []][i := front + chains[i] + [l]];
    forall c | 0 <= c < |chains|
      ensures c != o ==> Shelved(names', c, chains[c])
    {}
    forall m | 0 <= m < |names'| && names'[m].vstg.STGEQUIV?
      ensures 0 <= names'[m].varno < |chains'| && Listed(chains'[names'[m].varno], m)
    {
      ListedAppend(front + chains[i], [l]);
      ListedAppend(front, chains[i]);
      assert [l][0].np == Some(n);
    }
  }

  // ----- one declaration with a COMMON item -----

  predicate InCommon(x: Name, comno: int, at: int) {
    x.vstg.STGCOMMON? && x.varno == comno && x.voffset == at
  }

  /** The items of done stand at offset c0 of block comno. */
  ghost predicate Settled(names: seq<Name>, done: seq<Link>, comno: int, c0: int) {
    forall k {:trigger done[k]} | 0 <= k < |done| && done[k].np.Some? ::
      done[k].np.value < |names| && InCommon(names[done[k].np.value], comno, c0 - done[k].off)
  }

  /** Links of class o, each of a name still in the class or already in its place in the block. */
  ghost predicate Draggable(names: seq<Name>, o: int, links: seq<Link>, comno: int, c0: int) {
    && Known(|names|, links)
    && forall k {:trigger links[k]} | 0 <= k < |links| && links[k].np.Some? ::
         || ShelvedName(names[links[k].np.value], o, links[k].off)
         || InCommon(names[links[k].np.value], comno, c0 - links[k].off)
  }

  /** eqvcommon's loop on a class that was placed before: every name still in it moves by c0. */
  lemma {:induction false} DragLinks(t: Table, o: nat, links: seq<Link>, comno: int, c0: int)
    requires o < |t.classes| && 0 <= comno < |t.ext| && AllKnown(t)
    requires Draggable(t.names, o, links, comno, c0)
    ensures var t' := CommonLinks(t, o, links, comno, c0);
            && t' == t.(names := t'.names)
            && forall m: nat | m < |t.names| ::
                 t'.names[m] == if Listed(links, m) then ShiftName(t.names[m], o, STGCOMMON, comno, c0) else t.names[m]
    decreases |links|
  {
    if links != [] {
      var l := links[0];
      ListedCons(l, links[1..]);
      assert links == [l] + links[1..];
      var t1 := CommonLink(t, o, l, comno, c0);
      assert l.np.Some? ==> t1.names[l.np.value] == ShiftName(t.names[l.np.value], o, STGCOMMON, comno, c0);
      assert t1 == t.(names := t1.names);
      DragLinks(t1, o, links[1..], comno, c0);
    }
  }

  /** Class o is dragged into the block because of its name n, which has just been put there. */
  lemma DragMoves(t: Table, o: nat, n: nat, comno: int, c0: int)
    requires o < |t.classes| && 0 <= comno < |t.ext| && AllKnown(t) && n < |t.names|
    requires t.names[n].vstg.STGEQUIV? && t.names[n].varno == o
    requires Shelved(t.names, o, t.classes[o].equivs)
    requires forall m: nat | m < |t.names| && t.names[m].vstg.STGEQUIV? && t.names[m].varno == o ::
               Listed(t.classes[o].equivs, m)
    ensures var x := t.names[n];
            var t1 := t.(names := t.names[n := x.(vstg := STGCOMMON, varno := comno, voffset := x.voffset + c0)]);
            EqvCommon(t1, o, comno, c0) ==
              if c0 + t.classes[o].bottom < 0 then
                t1.(classes := t.classes[o := t.classes[o].(equivs := [])], nerr := t.nerr + 1)
              else
                Dragged(t, o, comno, c0)
  {
    var x := t.names[n];
    var links := t.classes[o].equivs;
    if c0 + t.classes[o].bottom >= 0 {
      var t2 := t.(names := t.names[n := x.(vstg := STGCOMMON, varno := comno, voffset := x.voffset + c0)],
                   ext := Extend(t.ext, comno, c0 + t.classes[o].top));
      DragLinks(t2, o, links, comno, c0);
      var names' := CommonLinks(t2, o, links, comno, c0).names;
      forall m: nat | m < |t.names|
        ensures names'[m] == ShiftName(t.names[m], o, STGCOMMON, comno, c0)
      {}
      assert names' == Shift(t.names, o, STGCOMMON, comno, c0);
    }
  }

  /** Declaration i is being put at offset c0 of block comno; the chains of the other classes are
      in force, its own is not. */
  ghost predicate Committing(t: Table, chains: seq<seq<Link>>, i: nat, done: seq<Link>, rest: seq<Link>, comno: int,
                             c0: int) {
    && |chains| == |t.classes| && i < |chains| && AllKnown(t) && 0 <= comno < |t.ext|
    && Filed(t.names, chains) && Spanned(t) && chains[i] == []
    && (forall c | 0 <= c < |chains| && c != i :: t.classes[c].equivs == chains[c])
    && (forall c | i < c < |chains| :: t.classes[c] == Class([], 0, 0))
    && Settled(t.names, done, comno, c0)
    && Known(|t.names|, rest)
    && c0 + t.classes[i].bottom >= 0 && c0 + t.classes[i].top <= t.ext[comno]
    && forall k | 0 <= k < |rest| && rest[k].np.Some? ::
         var x := t.names[rest[k].np.value];
         !x.vstg.STGOTHER? && Spans(t.classes[i], -rest[k].off, x.leng)
  }

  lemma SettledAppend(names: seq<Name>, done: seq<Link>, l: Link, comno: int, c0: int)
    requires Settled(names, done, comno, c0)
    requires l.np.Some? ==> l.np.value < |names| && InCommon(names[l.np.value], comno, c0 - l.off)
    ensures Settled(names, done + [l], comno, c0)
  {}

  lemma SettledKept(a: seq<Name>, b: seq<Name>, done: seq<Link>, comno: int, c0: int)
    requires Settled(a, done, comno, c0) && Rigid(a, b)
    ensures Settled(b, done, comno, c0)
  {}

  /** No name, or a name that already stands in its place in the block. */
  lemma CommitNothing(t: Table, chains: seq<seq<Link>>, i: nat, done: seq<Link>, rest: seq<Link>, comno: int, c0: int)
    requires Committing(t, chains, i, done, rest, comno, c0) && rest != []
    requires rest[0].np.Some? ==> InCommon(t.names[rest[0].np.value], comno, c0 - rest[0].off)
    ensures Committing(t, chains, i, done + [rest[0]], rest[1..], comno, c0)
  {
    SettledAppend(t.names, done, rest[0], comno, c0);
  }

  lemma CommitFresh(t: Table, chains: seq<seq<Link>>, i: nat, done: seq<Link>, rest: seq<Link>, comno: int, c0: int)
    requires Committing(t, chains, i, done, rest, comno, c0) && rest != [] && rest[0].np.Some?
    requires var x := t.names[rest[0].np.value]; x.vstg.STGUNKNOWN? || x.vstg.STGBSS?
    ensures var t' := CommonLink(t, i, rest[0], comno, c0);
            Committing(t', chains, i, done + [rest[0]], rest[1..], comno, c0) && Rigid(t.names, t'.names)
  {
    var n := rest[0].np.value;
    var t' := CommonLink(t, i, rest[0], comno, c0);
    FreshRigid(t.names, n, t'.names[n]);
    SettledKept(t.names, t'.names, done, comno, c0);
    SettledAppend(t'.names, done, rest[0], comno, c0);
    forall c | 0 <= c < |chains|
      ensures Shelved(t'.names, c, chains[c])
    {}
    forall m | 0 <= m < |t'.names|
      ensures SpannedName(t', t'.names[m])
    {
      assert SpannedName(t, t.names[m]);
    }
  }

  /** A name of an earlier class o: the whole class is dragged along. */
  lemma CommitDrag(t: Table, chains: seq<seq<Link>>, i: nat, done: seq<Link>, rest: seq<Link>, comno: int, c0: int)
    requires Committing(t, chains, i, done, rest, comno, c0) && rest != [] && rest[0].np.Some?
    requires t.names[rest[0].np.value].vstg.STGEQUIV?
    ensures var x := t.names[rest[0].np.value];
            var t' := CommonLink(t, i, rest[0], comno, c0);
            && 0 <= x.varno < |chains| && x.varno != i
            && (t'.nerr == t.nerr <==> c0 - rest[0].off - x.voffset + t.classes[x.varno].bottom >= 0)
            && (t'.nerr == t.nerr ==>
                  && Committing(t', chains[x.varno := []], i, done + [rest[0]], rest[1..], comno, c0)
                  && t'.classes == t.classes[x.varno := Class([], 0, 0)]
                  && t'.names == Shift(t.names, x.varno, STGCOMMON, comno, c0 - rest[0].off - x.voffset))
  {
    var n := rest[0].np.value;
    var o := t.names[n].varno;
    var d := c0 - rest[0].off - t.names[n].voffset;
    assert o != i by {
      assert !Listed([], n);
    }
    DragLink(t, i, o, n, rest[0], comno, c0);
    if d + t.classes[o].bottom >= 0 {
      CommitDragged(t, chains, i, o, n, done, rest, comno, c0);
    }
  }

  /** eqvcommon on a link of another class. */
  lemma DragLink(t: Table, i: nat, o: nat, n: nat, l: Link, comno: int, c0: int)
    requires AllKnown(t) && i < |t.classes| && o < |t.classes| && o != i && 0 <= comno < |t.ext|
    requires n < |t.names| && l.np == Some(n) && t.names[n].vstg.STGEQUIV? && t.names[n].varno == o
    requires Shelved(t.names, o, t.classes[o].equivs)
    requires forall m: nat | m < |t.names| && t.names[m].vstg.STGEQUIV? && t.names[m].varno == o ::
               Listed(t.classes[o].equivs, m)
    ensures var d, t' := c0 - l.off - t.names[n].voffset, CommonLink(t, i, l, comno, c0);
            if d + t.classes[o].bottom >= 0 then t' == Dragged(t, o, comno, d) else t'.nerr == t.nerr + 1
  {
    DragMoves(t, o, n, comno, c0 - l.off - t.names[n].voffset);
  }

  /** The table after class o has been dragged into block comno. */
  function Dragged(t: Table, o: nat, comno: int, d: int): Table
    requires o < |t.classes|
  {
    t.(names := Shift(t.names, o, STGCOMMON, comno, d),
       ext := Extend(t.ext, comno, d + t.classes[o].top),
       classes := t.classes[o := Class([], 0, 0)])
  }

  lemma CommitDragged(t: Table, chains: seq<seq<Link>>, i: nat, o: nat, n: nat, done: seq<Link>, rest: seq<Link>,
                      comno: int, c0: int)
    requires Committing(t, chains, i, done, rest, comno, c0) && rest != [] && rest[0].np == Some(n)
    requires t.names[n].vstg.STGEQUIV? && t.names[n].varno == o && o != i && o < |chains|
    requires c0 - rest[0].off - t.names[n].voffset + t.classes[o].bottom >= 0
    ensures Committing(Dragged(t, o, comno, c0 - rest[0].off - t.names[n].voffset), chains[o := []], i,
                       done + [rest[0]], rest[1..], comno, c0)
  {
    var d := c0 - rest[0].off - t.names[n].voffset;
    var names' := Shift(t.names, o, STGCOMMON, comno, d);
    ShiftRigid(t.names, o, STGCOMMON, comno, d);
    SettledKept(t.names, names', done, comno, c0);
    SettledAppend(names', done, rest[0], comno, c0);
    DraggedFiled(t.names, chains, o, comno, d);
    DraggedSpanned(t, o, comno, d);
  }

  lemma DraggedFiled(names: seq<Name>, chains: seq<seq<Link>>, o: nat, comno: int, d: int)
    requires Filed(names, chains) && o < |chains|
    ensures Filed(Shift(names, o, STGCOMMON, comno, d), chains[o := []])
  {
    var names', chains' := Shift(names, o, STGCOMMON, comno, d), chains[o := []];
    forall c | 0 <= c < |chains'|
      ensures Shelved(names', c, chains'[c])
    {}
  }

  lemma DraggedSpanned(t: Table, o: nat, comno: int, d: int)
    requires Spanned(t) && o < |t.classes| && 0 <= comno < |t.ext| && d + t.classes[o].bottom >= 0
    ensures Spanned(Dragged(t, o, comno, d))
  {
    var t' := Dragged(t, o, comno, d);
    forall m | 0 <= m < |t'.names|
      ensures SpannedName(t', t'.names[m])
    {
      assert SpannedName(t, t.names[m]);
    }
  }
}
