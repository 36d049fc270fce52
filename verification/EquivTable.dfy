// The tables doequiv of src/equiv.c works on, its steps as functions of those
// tables, and what each step does to the addresses of the names.
module EquivTable {
  import opened Options

  datatype Stg = STGUNKNOWN | STGBSS | STGEQUIV | STGCOMMON | STGOTHER

  /** vstg, vardesc.varno, voffset and veqvadjust of a name, and its length in bytes
      (iarrlen; negative if adjustable). */
  datatype Name = Name(vstg: Stg, varno: int, voffset: int, leng: int, veqvadjust: bool)

  /** An entry of a class's chain: eqvname (None for NULL) and eqvoffset. */
  datatype Link = Link(np: Option<nat>, off: int)

  /** An Equivblock: its chain, eqvbottom and eqvtop. */
  datatype Class = Class(equivs: seq<Link>, bottom: int, top: int)

  /** The names, the equivalence classes, extleng of the COMMON blocks, and the errors reported. */
  datatype Table = Table(names: seq<Name>, classes: seq<Class>, ext: seq<int>, nerr: nat)

  function Lmin(a: int, b: int): int { if a < b then a else b }

  function Lmax(a: int, b: int): int { if a > b then a else b }

  /** A link whose name, if it has one, is in the table. */
  predicate Known(count: nat, links: seq<Link>) {
    forall k | 0 <= k < |links| :: links[k].np.Some? ==> links[k].np.value < count
  }

  /** Links lead to names, and names to classes, that exist. */
  predicate AllKnown(t: Table) {
    && (forall c | 0 <= c < |t.classes| :: Known(|t.names|, t.classes[c].equivs))
    && (forall n | 0 <= n < |t.names| && t.names[n].vstg.STGEQUIV? :: 0 <= t.names[n].varno < |t.classes|)
  }

  // ----- the steps -----

  /** eqveqv's loop: the links of the old chain whose names are still in class ov move to the
      front of the new chain. */
  function Move(names: seq<Name>, chain: seq<Link>, into: seq<Link>, nv: int, ov: int, delta: int)
    : (r: (seq<Name>, seq<Link>))
    requires Known(|names|, chain)
    ensures |r.0| == |names|
    decreases |chain|
  {
    if chain == [] then (names, into)
    else
      var l := chain[0];
      if l.np.Some? && names[l.np.value].varno == ov then
        var x := names[l.np.value];
        Move(names[l.np.value := x.(varno := nv, voffset := x.voffset - delta)], chain[1..],
             [l.(off := l.off + delta)] + into, nv, ov, delta)
      else Move(names, chain[1..], into, nv, ov, delta)
  }

  lemma {:induction false} MoveKnown(names: seq<Name>, chain: seq<Link>, into: seq<Link>, nv: int, ov: int, delta: int)
    requires Known(|names|, chain) && Known(|names|, into)
    ensures var r := Move(names, chain, into, nv, ov, delta);
            && Known(|names|, r.1)
            && forall n | 0 <= n < |names| ::
                 r.0[n].vstg == names[n].vstg && (r.0[n].varno == names[n].varno || r.0[n].varno == nv)
    decreases |chain|
  {
    if chain != [] {
      var l := chain[0];
      if l.np.Some? && names[l.np.value].varno == ov {
        var x := names[l.np.value];
        MoveKnown(names[l.np.value := x.(varno := nv, voffset := x.voffset - delta)], chain[1..],
                  [l.(off := l.off + delta)] + into, nv, ov, delta);
      } else {
        MoveKnown(names, chain[1..], into, nv, ov, delta);
      }
    }
  }

  /** eqveqv: class ov becomes part of class nv. */
  function EqvEqv(t: Table, nv: nat, ov: nat, delta: int): (t': Table)
    requires nv < |t.classes| && ov < |t.classes| && AllKnown(t)
    ensures |t'.names| == |t.names| && |t'.classes| == |t.classes| && t'.nerr == t.nerr && t'.ext == t.ext
    ensures AllKnown(t')
  {
    var from, to := t.classes[ov], t.classes[nv];
    var (names, chain) := Move(t.names, from.equivs, to.equivs, nv, ov, delta);
    MoveKnown(t.names, from.equivs, to.equivs, nv, ov, delta);
    var merged := Class(chain, Lmin(to.bottom, from.bottom - delta), Lmax(to.top, from.top - delta));
    t.(names := names, classes := t.classes[nv := merged][ov := Class([], 0, 0)])
  }

  /** doequiv's second loop on one link of declaration i, when no item is in COMMON. */
  function Place(t: Table, i: nat, l: Link): (t': Table)
    requires i < |t.classes| && (l.np.Some? ==> l.np.value < |t.names|)
    requires AllKnown(t)
    ensures |t'.names| == |t.names| && |t'.classes| == |t.classes| && t'.nerr >= t.nerr && t'.ext == t.ext
    ensures AllKnown(t')
  {
    if l.np.None? then t
    else
      var x := t.names[l.np.value];
      var clash := x.vstg.STGEQUIV? && x.varno == i && x.voffset + l.off != 0;
      var t1 := t.(names := t.names[l.np.value := x.(vstg := STGEQUIV, varno := i, voffset := -l.off)],
                   nerr := t.nerr + if clash then 1 else 0);
      if x.vstg.STGEQUIV? && x.varno != i then EqvEqv(t1, i, x.varno, l.off + x.voffset) else t1
  }

  /** How many names are in classes: what bounds the recursion of eqvcommon. */
  function EquivCount(names: seq<Name>): nat {
    |set n | 0 <= n < |names| && names[n].vstg.STGEQUIV?|
  }

  lemma CountDrops(names: seq<Name>, n: nat, x: Name)
    requires n < |names| && !x.vstg.STGEQUIV?
    ensures EquivCount(names[n := x]) <= EquivCount(names)
    ensures names[n].vstg.STGEQUIV? ==> EquivCount(names[n := x]) < EquivCount(names)
  {
    var before := set m | 0 <= m < |names| && names[m].vstg.STGEQUIV?;
    var names' := names[n := x];
    var after := set m | 0 <= m < |names'| && names'[m].vstg.STGEQUIV?;
    assert after == before - {n};
  }

  /** What every part of eqvcommon leaves alone, or only lowers. */
  predicate Later(t: Table, t': Table) {
    && |t'.names| == |t.names| && |t'.classes| == |t.classes| && |t'.ext| == |t.ext|
    && t'.nerr >= t.nerr && AllKnown(t') && EquivCount(t'.names) <= EquivCount(t.names)
  }

  /** eqvcommon's loop over the links of class p. */
  function CommonLinks(t: Table, p: nat, links: seq<Link>, comno: int, c0: int): (t': Table)
    requires p < |t.classes| && Known(|t.names|, links) && AllKnown(t)
    ensures Later(t, t')
    decreases EquivCount(t.names), |links|
  {
    if links == [] then t
    else CommonLinks(CommonLink(t, p, links[0], comno, c0), p, links[1..], comno, c0)
  }

  function CommonLink(t: Table, p: nat, l: Link, comno: int, c0: int): (t': Table)
    requires p < |t.classes| && (l.np.Some? ==> l.np.value < |t.names|) && AllKnown(t)
    ensures Later(t, t')
    decreases EquivCount(t.names), 0
  {
    if l.np.None? then t
    else
      var n, x := l.np.value, t.names[l.np.value];
      match x.vstg
      case STGCOMMON =>
        t.(nerr := t.nerr + if x.varno != comno || c0 != x.voffset + l.off then 1 else 0)
      case STGEQUIV =>
        var offq := c0 - l.off - x.voffset;
        var x' := x.(vstg := STGCOMMON, varno := comno, voffset := x.voffset + offq);
        CountDrops(t.names, n, x');
        var t1 := t.(names := t.names[n := x']);
        if x.varno != p then EqvCommon(t1, x.varno, comno, offq) else t1
      case STGOTHER => t
      case _ =>
        var x' := x.(vstg := STGCOMMON, varno := comno, voffset := c0 - l.off);
        CountDrops(t.names, n, x');
        t.(names := t.names[n := x'])
  }

  /** extleng of block comno becomes at least k. */
  function Extend(ext: seq<int>, comno: int, k: int): (r: seq<int>)
    ensures |r| == |ext|
  {
    if 0 <= comno < |ext| && k > ext[comno] then ext[comno := k] else ext
  }

  /** eqvcommon: class p is put at offset c0 of COMMON block comno. */
  function EqvCommon(t: Table, p: nat, comno: int, c0: int): (t': Table)
    requires p < |t.classes| && AllKnown(t)
    ensures Later(t, t')
    decreases EquivCount(t.names), |t.classes[p].equivs| + 1
  {
    var cls := t.classes[p];
    if c0 + cls.bottom < 0 then
      t.(classes := t.classes[p := cls.(equivs := [])], nerr := t.nerr + 1)
    else
      var t1 := t.(ext := Extend(t.ext, comno, c0 + cls.top));
      var t2 := CommonLinks(t1, p, cls.equivs, comno, c0);
      t2.(classes := t2.classes[p := Class([], 0, 0)])
  }
}
