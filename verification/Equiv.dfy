// doequiv of src/equiv.c: after the declarations of a procedure, every item of
// each EQUIVALENCE list gets the same storage.
module Equiv {
  import opened Options
  import opened EquivTable
  import opened EquivFacts
  import opened EquivSolve
  import opened EquivSteps
  import opened EquivRuns
  import opened EquivExtents

  /** An item of an EQUIVALENCE list: missing (an error was reported when it was parsed), or a
      name with the byte offset of its subscripts and substring, if that is constant. */
  datatype Ref = NoPrim | Ref(np: nat, offset: Option<int>)

  /** Items that doequiv reports: a subscript that is not constant, an adjustable array, a
      storage class that cannot be equivalenced. */
  predicate Faulty(names: seq<Name>, r: Ref)
    requires r.Ref? ==> r.np < |names|
  {
    r.Ref? && (r.offset.None? || names[r.np].leng < 0 || names[r.np].vstg.STGOTHER?)
  }

  predicate RefsKnown(count: nat, refs: seq<Ref>) {
    forall k | 0 <= k < |refs| :: refs[k].Ref? ==> refs[k].np < count
  }

  /** The chain of a list once its items are looked up. */
  function LinkOf(names: seq<Name>, r: Ref): (l: Link)
    requires r.Ref? ==> r.np < |names|
    ensures l.np.Some? ==> l.np.value < |names|
  {
    if r.NoPrim? || Faulty(names, r) then Link(None, 0) else Link(Some(r.np), r.offset.value)
  }

  function Links(names: seq<Name>, refs: seq<Ref>): (links: seq<Link>)
    requires RefsKnown(|names|, refs)
    ensures |links| == |refs| && forall k | 0 <= k < |refs| :: links[k] == LinkOf(names, refs[k])
  {
    seq(|refs|, k requires 0 <= k < |refs| => LinkOf(names, refs[k]))
  }

  predicate Faultless(names: seq<Name>, refs: seq<Ref>)
    requires RefsKnown(|names|, refs)
  {
    forall k | 0 <= k < |refs| :: !Faulty(names, refs[k])
  }

  /** The declarations ask for something possible: no item is faulty, and the names can be put
      somewhere so that COMMON names are where they are, items of one list share a byte, and
      nothing that ends up in a block lies before its start. */
  ghost predicate Satisfiable(names: seq<Name>, decls: seq<seq<Ref>>)
    requires DeclsKnown(|names|, decls)
  {
    && (forall j | 0 <= j < |decls| :: Faultless(names, decls[j]))
    && exists sol: seq<Spot> :: Solves(names, decls, sol)
  }

  predicate DeclsKnown(count: nat, decls: seq<seq<Ref>>) {
    forall j | 0 <= j < |decls| :: RefsKnown(count, decls[j])
  }

  ghost predicate Solves(names: seq<Name>, decls: seq<seq<Ref>>, sol: seq<Spot>)
    requires DeclsKnown(|names|, decls)
  {
    && |sol| == |names|
    && (forall n | 0 <= n < |names| && names[n].vstg.STGCOMMON? ::
          sol[n] == Spot(Block(names[n].varno), names[n].voffset))
    && (forall j | 0 <= j < |decls| :: Solvable(names, decls[j], sol))
  }

  ghost predicate Solvable(names: seq<Name>, refs: seq<Ref>, sol: seq<Spot>)
    requires RefsKnown(|names|, refs)
  {
    exists at: Spot :: SolvesOne(sol, Links(names, refs), at)
  }

  /** Looking an item up later gives the same link. */
  lemma LinksStay(a: seq<Name>, b: seq<Name>, refs: seq<Ref>)
    requires Rigid(a, b) && RefsKnown(|a|, refs)
    ensures Links(a, refs) == Links(b, refs) && (Faultless(a, refs) <==> Faultless(b, refs))
  {
    forall k | 0 <= k < |refs|
      ensures LinkOf(a, refs[k]) == LinkOf(b, refs[k]) && (Faulty(a, refs[k]) <==> Faulty(b, refs[k]))
    {}
  }

  predicate CommonLinkAt(names: seq<Name>, l: Link, comno: int, comoffset: int) {
    && l.np.Some? && l.np.value < |names| && names[l.np.value].vstg.STGCOMMON?
    && comno == names[l.np.value].varno && comoffset == names[l.np.value].voffset + l.off
  }

  /** comno and comoffset come from the last item in COMMON; None if there is no such item. */
  ghost predicate FoundCommon(names: seq<Name>, links: seq<Link>, common: Option<(int, int)>) {
    match common
    case None =>
      forall k | 0 <= k < |links| :: NotInCommon(names, links[k])
    case Some((comno, comoffset)) =>
      exists k ::
        && 0 <= k < |links| && CommonLinkAt(names, links[k], comno, comoffset)
        && forall j | k < j < |links| :: NotInCommon(names, links[j])
  }

  predicate NotInCommon(names: seq<Name>, l: Link) {
    l.np.Some? && l.np.value < |names| ==> !names[l.np.value].vstg.STGCOMMON?
  }

  lemma FoundGrows(names: seq<Name>, links: seq<Link>, common: Option<(int, int)>, l: Link)
    requires FoundCommon(names, links, common) && (l.np.Some? ==> l.np.value < |names|)
    ensures FoundCommon(names, links + [l],
                        if l.np.Some? && names[l.np.value].vstg.STGCOMMON? then
                          Some((names[l.np.value].varno, names[l.np.value].voffset + l.off))
                        else common)
  {
    var links' := links + [l];
    if l.np.Some? && names[l.np.value].vstg.STGCOMMON? {
      assert CommonLinkAt(names, links'[|links|], names[l.np.value].varno, names[l.np.value].voffset + l.off);
    } else if common.Some? {
      var k :| 0 <= k < |links| && CommonLinkAt(names, links[k], common.value.0, common.value.1)
               && forall j | k < j < |links| :: NotInCommon(names, links[j]);
      assert links'[k] == links[k];
    }
  }

  /** eqvbottom and eqvtop are the least and greatest bounds of the items, and of 0. */
  ghost predicate Bounds(names: seq<Name>, c: Class) {
    && Known(|names|, c.equivs) && c.bottom <= 0 <= c.top
    && (forall k | 0 <= k < |c.equivs| && c.equivs[k].np.Some? ::
          Spans(c, -c.equivs[k].off, names[c.equivs[k].np.value].leng))
    && (c.bottom == 0 || exists k :: 0 <= k < |c.equivs| && c.equivs[k].np.Some? && c.bottom == -c.equivs[k].off)
    && (c.top == 0 || exists k ::
          0 <= k < |c.equivs| && c.equivs[k].np.Some? && c.top == names[c.equivs[k].np.value].leng - c.equivs[k].off)
  }

  lemma BoundsGrow(names: seq<Name>, c: Class, l: Link)
    requires Bounds(names, c) && (l.np.Some? ==> l.np.value < |names|)
    ensures Bounds(names, if l.np.None? then c.(equivs := c.equivs + [l])
                          else Class(c.equivs + [l], Lmin(c.bottom, -l.off),
                                     Lmax(c.top, names[l.np.value].leng - l.off)))
  {
    var links := c.equivs + [l];
    assert links[|c.equivs|] == l;
    if c.bottom != 0 {
      var k :| 0 <= k < |c.equivs| && c.equivs[k].np.Some? && c.bottom == -c.equivs[k].off;
      assert links[k] == c.equivs[k];
    }
    if c.top != 0 {
      var k :| && 0 <= k < |c.equivs| && c.equivs[k].np.Some?
               && c.top == names[c.equivs[k].np.value].leng - c.equivs[k].off;
      assert links[k] == c.equivs[k];
    }
  }

  // ----- how far classes and blocks reach -----

  /** Item k of declaration j is at place d of name n. */
  ghost predicate ItemAt(names: seq<Name>, decls: seq<seq<Ref>>, j: nat, k: nat, n: nat, d: int)
    requires DeclsKnown(|names|, decls)
  {
    j < |decls| && k < |decls[j]| && LinkOf(names, decls[j][k]) == Link(Some(n), d)
  }

  ghost predicate Shared(names: seq<Name>, decls: seq<seq<Ref>>, n: nat, d: int)
    requires DeclsKnown(|names|, decls)
  {
    exists j: nat, k: nat {:trigger ItemAt(names, decls, j, k, n, d)} :: ItemAt(names, decls, j, k, n, d)
  }

  /** The starts of names, their ends, and the bytes that declarations make shared. */
  ghost function MarksOf(names: seq<Name>, decls: seq<seq<Ref>>): Marks
    requires DeclsKnown(|names|, decls)
  {
    Marks(iset m: (nat, int) | m.0 < |names| && (m.1 == 0 || Shared(names, decls, m.0, m.1)),
          iset m: (nat, int) | m.0 < |names| && (m.1 == names[m.0].leng || Shared(names, decls, m.0, m.1)))
  }

  lemma AllMarked(names: seq<Name>, now: seq<Name>, decls: seq<seq<Ref>>, i: nat)
    requires DeclsKnown(|names|, decls) && i < |decls| && Rigid(names, now)
    ensures Marked(now, Links(names, decls[i]), MarksOf(names, decls))
  {
    var links := Links(names, decls[i]);
    forall k | 0 <= k < |links| && links[k].np.Some?
      ensures Shared(names, decls, links[k].np.value, links[k].off)
    {
      assert ItemAt(names, decls, i, k, links[k].np.value, links[k].off);
    }
  }

  /** A class with names begins at the start of one of them or at a shared byte, and ends at the end of one of
      them or at a shared byte; one without names is empty. A block is as long as it was, or ends so. */
  ghost predicate Extents(t': Table, t0: Table, decls: seq<seq<Ref>>)
    requires DeclsKnown(|t0.names|, decls)
  {
    var ms := MarksOf(t0.names, decls);
    && |t'.ext| == |t0.ext|
    && (forall c: nat {:trigger ClassExtent(t', ms, c)} | c < |t'.classes| :: ClassExtent(t', ms, c))
    && (forall b: nat {:trigger BlockEnds(t', ms, t0.ext, b)} | b < |t'.ext| :: BlockEnds(t', ms, t0.ext, b))
  }

  /** Names of the class are counted from its bottom. */
  ghost predicate ClassExtent(t': Table, ms: Marks, c: nat) {
    c < |t'.classes| &&
    if HasName(t'.names, c) then
      && Touched(t'.names, ms.low, STGEQUIV, c, 0)
      && Touched(t'.names, ms.high, STGEQUIV, c, t'.classes[c].top - t'.classes[c].bottom)
    else t'.classes[c].bottom == t'.classes[c].top == 0
  }

  lemma AdjustedTouched(t: Table, names': seq<Name>, ms: iset<(nat, int)>, c: nat, pos: int)
    requires c < |t.classes| && |names'| == |t.names| && Touched(t.names, ms, STGEQUIV, c, pos)
    requires forall n | 0 <= n < |names'| :: names'[n] == Adjusted(t.names[n], t.classes, |t.classes|)
    ensures Touched(names', ms, STGEQUIV, c, pos - t.classes[c].bottom)
  {
    var n: nat, d: int :| At(t.names, ms, n, d, STGEQUIV, c, pos);
    assert At(names', ms, n, d, STGEQUIV, c, pos - t.classes[c].bottom);
  }

  lemma AdjustedBlock(t: Table, names': seq<Name>, ms: iset<(nat, int)>, b: nat, pos: int)
    requires |names'| == |t.names| && Touched(t.names, ms, STGCOMMON, b, pos)
    requires forall n | 0 <= n < |names'| :: names'[n] == Adjusted(t.names[n], t.classes, |t.classes|)
    ensures Touched(names', ms, STGCOMMON, b, pos)
  {
    var n: nat, d: int :| At(t.names, ms, n, d, STGCOMMON, b, pos);
    assert At(names', ms, n, d, STGCOMMON, b, pos);
  }

  lemma AdjustedExtents(t: Table, t0: Table, decls: seq<seq<Ref>>, t': Table)
    requires DeclsKnown(|t0.names|, decls) && Exact(t, MarksOf(t0.names, decls), t0.ext)
    requires |t'.names| == |t.names| && Unchained(t, t')
    requires forall n | 0 <= n < |t'.names| :: t'.names[n] == Adjusted(t.names[n], t.classes, |t.classes|)
    ensures Extents(t', t0, decls)
  {
    var ms := MarksOf(t0.names, decls);
    forall c: nat | c < |t'.classes|
      ensures ClassExtent(t', ms, c)
    {
      assert Ends(t, ms, c);
      AdjustedHas(t, t'.names, c);
      if HasName(t.names, c) {
        AdjustedTouched(t, t'.names, ms.low, c, t.classes[c].bottom);
        AdjustedTouched(t, t'.names, ms.high, c, t.classes[c].top);
      }
    }
    forall b: nat | b < |t'.ext|
      ensures BlockEnds(t', ms, t0.ext, b)
    {
      assert BlockEnds(t, ms, t0.ext, b);
      if t.ext[b] != t0.ext[b] {
        AdjustedBlock(t, t'.names, ms.high, b, t.ext[b]);
      }
    }
  }

  lemma AdjustedHas(t: Table, names': seq<Name>, c: nat)
    requires |names'| == |t.names|
    requires forall n | 0 <= n < |names'| :: names'[n] == Adjusted(t.names[n], t.classes, |t.classes|)
    ensures HasName(t.names, c) <==> HasName(names', c)
  {
    if n :| 0 <= n < |names'| && names'[n].vstg.STGEQUIV? && names'[n].varno == c {
      assert t.names[n].varno == c;
    }
    if n :| 0 <= n < |t.names| && t.names[n].vstg.STGEQUIV? && t.names[n].varno == c {
      assert names'[n].varno == c;
    }
  }

  // ----- a run over the declarations -----

  /** Declarations before i are met in the tables t, reached from t0 without a report. */
  ghost predicate MetBefore(t: Table, t0: Table, decls: seq<seq<Ref>>, i: nat)
    requires DeclsKnown(|t0.names|, decls)
  {
    && i <= |decls| && Rigid(t0.names, t.names)
    && forall j | 0 <= j < i :: Faultless(t0.names, decls[j]) && Met(t, Links(t0.names, decls[j]))
  }

  /** The tables before declaration i: everything before it is met, unless something has been
      reported; and with a solution in hand nothing has been. */
  ghost predicate Running(t: Table, t0: Table, decls: seq<seq<Ref>>, i: nat, chains: seq<seq<Link>>,
                          sol: Option<seq<Spot>>)
    requires DeclsKnown(|t0.names|, decls)
  {
    && |t.names| == |t0.names| && |t.classes| == |decls| && AllKnown(t) && t.nerr >= t0.nerr
    && (t.nerr == t0.nerr ==>
          Between(t, chains, i) && MetBefore(t, t0, decls, i) && Exact(t, MarksOf(t0.names, decls), t0.ext))
    && (sol.Some? ==> t.nerr == t0.nerr && Follows(t.names, sol.value) && Roomy(t, sol.value))
  }

  /** A solution, if there is one, with the proof that it is one. */
  ghost predicate Given(names: seq<Name>, decls: seq<seq<Ref>>, sol: Option<seq<Spot>>)
    requires DeclsKnown(|names|, decls)
  {
    sol.Some? ==> Solves(names, decls, sol.value) && forall j | 0 <= j < |decls| :: Faultless(names, decls[j])
  }

  /** The items of declaration i have been looked up in t, which gave t1. */
  ghost predicate Looked(t: Table, t1: Table, t0: Table, decls: seq<seq<Ref>>, i: nat, chains: seq<seq<Link>>,
                         links: seq<Link>, sol: Option<seq<Spot>>, at: Spot)
    requires DeclsKnown(|t0.names|, decls)
  {
    && i < |decls| && |t.names| == |t0.names| && |decls| == |t.classes| && |t1.classes| == |t.classes| && AllKnown(t1)
    && Known(|t.names|, links) && t1.classes[i].equivs == links
    && t1 == t.(classes := t.classes[i := t1.classes[i]], nerr := t1.nerr) && t1.nerr >= t.nerr >= t0.nerr
    && (t1.nerr == t0.nerr ==>
          && Between(t, chains, i) && Opened(t1, i, links) && MetBefore(t, t0, decls, i)
          && Exact(t, MarksOf(t0.names, decls), t0.ext)
          && Faultless(t0.names, decls[i]) && links == Links(t0.names, decls[i]))
    && (sol.Some? ==>
          t1.nerr == t0.nerr && Follows(t.names, sol.value) && Roomy(t, sol.value) && SolvesOne(sol.value, links, at))
  }

  /** Declarations met before declaration i was processed are met after it. */
  lemma MetOn(t: Table, t': Table, t0: Table, decls: seq<seq<Ref>>, i: nat)
    requires DeclsKnown(|t0.names|, decls) && i < |decls| && MetBefore(t, t0, decls, i)
    requires Moves(t, t') && Faultless(t0.names, decls[i]) && Met(t', Links(t0.names, decls[i]))
    ensures MetBefore(t', t0, decls, i + 1)
  {
    RigidTrans(t0.names, t.names, t'.names);
    forall j | 0 <= j < i
      ensures Met(t', Links(t0.names, decls[j]))
    {
      MetKept(t, t', Links(t0.names, decls[j]));
    }
  }

  lemma PlainStarts(t: Table, t1: Table, t0: Table, decls: seq<seq<Ref>>, i: nat, chains: seq<seq<Link>>,
                    links: seq<Link>, sol: Option<seq<Spot>>, at: Spot)
    returns (sol1: Option<(seq<Spot>, Spot)>)
    requires DeclsKnown(|t0.names|, decls) && Looked(t, t1, t0, decls, i, chains, links, sol, at)
    requires FoundCommon(t1.names, links, None)
    ensures t1.nerr == t0.nerr ==>
              Mid(t1, chains, i, [], links) && MidExact(t1, MarksOf(t0.names, decls), t0.ext, i, links)
    ensures sol1.Some? <==> sol.Some?
    ensures sol1.Some? ==> t1.nerr == t0.nerr && sol1.value.0 == sol.value && MidFollows(t1, sol.value, i, sol1.value.1)
    ensures sol1.Some? ==> Anchored(sol.value, links, sol1.value.1)
  {
    sol1 := None;
    if t1.nerr == t0.nerr {
      assert forall k | 0 <= k < |links| :: NotInCommon(t1.names, links[k]);
      StartPlacing(t, chains, i, t1, links);
      AllMarked(t0.names, t1.names, decls, i);
      StartPlacingExact(t, chains, i, t1, links, MarksOf(t0.names, decls), t0.ext);
      if sol.Some? {
        var at1 := OpenedFollows(t, chains, i, t1, links, sol.value, at);
        sol1 := Some((sol.value, at1));
      }
    }
  }

  lemma PlainRuns(t: Table, t1: Table, t': Table, t0: Table, decls: seq<seq<Ref>>, i: nat, chains: seq<seq<Link>>,
                  chains': seq<seq<Link>>, links: seq<Link>, sol: Option<seq<Spot>>, at: Spot,
                  sol1: Option<(seq<Spot>, Spot)>)
    requires DeclsKnown(|t0.names|, decls) && Looked(t, t1, t0, decls, i, chains, links, sol, at)
    requires AllKnown(t') && |t'.names| == |t1.names| && |t'.classes| == |t1.classes| && t'.nerr >= t1.nerr
    requires t'.nerr == t0.nerr ==>
               && Mid(t', chains', i, links, []) && Moves(t1, t')
               && MidExact(t', MarksOf(t0.names, decls), t0.ext, i, [])
    requires sol.Some? ==> sol1.Some? && t'.nerr == t0.nerr && MidFollows(t', sol.value, i, sol1.value.1)
    ensures Running(t', t0, decls, i + 1, chains', sol)
  {
    if t'.nerr == t0.nerr {
      PlainEnds(t, t1, t', t0, decls, i, chains, chains', links, sol, at);
      EndPlacingExact(t', MarksOf(t0.names, decls), t0.ext, i);
    }
  }

  lemma PlainEnds(t: Table, t1: Table, t': Table, t0: Table, decls: seq<seq<Ref>>, i: nat, chains: seq<seq<Link>>,
                  chains': seq<seq<Link>>, links: seq<Link>, sol: Option<seq<Spot>>, at: Spot)
    requires DeclsKnown(|t0.names|, decls) && Looked(t, t1, t0, decls, i, chains, links, sol, at) && t1.nerr == t0.nerr
    requires Mid(t', chains', i, links, []) && Moves(t1, t')
    ensures Between(t', chains', i + 1) && MetBefore(t', t0, decls, i + 1)
  {
    EndPlacing(t', chains', i, links);
    OpenedMoves(t, chains, i, t1);
    MovesTrans(t, t1, t');
    MetOn(t, t', t0, decls, i);
  }

  /** Tables as the declarations leave them: nothing equivalenced yet, COMMON names inside their blocks. */
  ghost predicate Initial(t: Table, decls: seq<seq<Ref>>) {
    && DeclsKnown(|t.names|, decls) && |t.classes| == |decls|
    && (forall c | 0 <= c < |t.classes| :: t.classes[c] == Class([], 0, 0))
    && (forall n | 0 <= n < |t.names| ::
          !t.names[n].vstg.STGEQUIV? && !t.names[n].veqvadjust && SpannedName(t, t.names[n]))
  }

  lemma InitialRunning(t: Table, decls: seq<seq<Ref>>, sol: Option<seq<Spot>>)
    requires Initial(t, decls) && Given(t.names, decls, sol)
    ensures Running(t, t, decls, 0, seq(|decls|, _ => []), sol)
  {
    var chains: seq<seq<Link>> := seq(|decls|, _ => []);
    assert Between(t, chains, 0);
    assert forall c: nat | c < |t.classes| :: Ends(t, MarksOf(t.names, decls), c);
  }

  /** A solution, if there is one. */
  ghost function Chosen(names: seq<Name>, decls: seq<seq<Ref>>): (sol: Option<seq<Spot>>)
    requires DeclsKnown(|names|, decls)
    ensures Given(names, decls, sol) && (sol.Some? <==> Satisfiable(names, decls))
  {
    if Satisfiable(names, decls) then
      var s :| Solves(names, decls, s);
      Some(s)
    else None
  }

  /** If nothing was reported, the tables themselves are a solution. */
  lemma MetSatisfiable(t: Table, t0: Table, decls: seq<seq<Ref>>)
    requires DeclsKnown(|t0.names|, decls) && MetBefore(t, t0, decls, |decls|) && Spanned(t)
    ensures Satisfiable(t0.names, decls)
  {
    var sol := Described(t.names);
    forall j | 0 <= j < |decls|
      ensures Solvable(t0.names, decls[j], sol)
    {
      var at := MetSolves(t, Links(t0.names, decls[j]));
    }
    assert Solves(t0.names, decls, sol);
  }

  /** Inside its class, counted from the bottom, or its COMMON block. */
  predicate FinalName(t: Table, x: Name) {
    match x.vstg
    case STGEQUIV =>
      0 <= x.varno < |t.classes| && 0 <= x.voffset
      && x.voffset + x.leng <= t.classes[x.varno].top - t.classes[x.varno].bottom
    case STGCOMMON => 0 <= x.varno < |t.ext| && 0 <= x.voffset && x.voffset + x.leng <= t.ext[x.varno]
    case _ => true
  }

  /** t' is t with its chains cut. */
  predicate Unchained(t: Table, t': Table) {
    && t'.ext == t.ext && t'.nerr == t.nerr && |t'.classes| == |t.classes|
    && forall c | 0 <= c < |t.classes| :: t'.classes[c] == t.classes[c].(equivs := [])
  }

  lemma AdjustedFinal(t: Table, t0: Table, decls: seq<seq<Ref>>, chains: seq<seq<Link>>, t': Table)
    requires DeclsKnown(|t0.names|, decls) && MetBefore(t, t0, decls, |decls|) && Between(t, chains, |t.classes|)
    requires Exact(t, MarksOf(t0.names, decls), t0.ext)
    requires |t'.names| == |t.names| && Unchained(t, t')
    requires forall n | 0 <= n < |t'.names| :: t'.names[n] == Adjusted(t.names[n], t.classes, |t.classes|)
    ensures Finished(t', t0, decls)
  {
    var names := t'.names;
    AdjustedExtents(t, t0, decls, t');
    AdjustedNames(t, t0, decls, chains, names);
    forall n | 0 <= n < |names|
      ensures FinalName(t', names[n])
    {
      assert FinalName(t, names[n]);
    }
  }

  /** The items of each list have one address in one class or block, COMMON names have not moved, every
      name lies inside its class or block, and those reach no further than their names and items. */
  ghost predicate Finished(t': Table, t0: Table, decls: seq<seq<Ref>>)
    requires DeclsKnown(|t0.names|, decls)
  {
    && |t'.names| == |t0.names|
    && (forall j | 0 <= j < |decls| :: Faultless(t0.names, decls[j]) && Agree(t'.names, Links(t0.names, decls[j])))
    && (forall n | 0 <= n < |t'.names| && t0.names[n].vstg.STGCOMMON? :: t'.names[n] == t0.names[n])
    && (forall n | 0 <= n < |t'.names| :: t'.names[n].leng == t0.names[n].leng && FinalName(t', t'.names[n]))
    && Extents(t', t0, decls)
  }

  lemma AdjustedNames(t: Table, t0: Table, decls: seq<seq<Ref>>, chains: seq<seq<Link>>, names: seq<Name>)
    requires DeclsKnown(|t0.names|, decls) && MetBefore(t, t0, decls, |decls|) && Between(t, chains, |t.classes|)
    requires |names| == |t.names| && forall n | 0 <= n < |names| ::
               names[n] == Adjusted(t.names[n], t.classes, |t.classes|)
    ensures forall j | 0 <= j < |decls| :: Faultless(t0.names, decls[j]) && Agree(names, Links(t0.names, decls[j]))
    ensures forall n | 0 <= n < |names| && t0.names[n].vstg.STGCOMMON? :: names[n] == t0.names[n]
    ensures forall n | 0 <= n < |names| :: names[n].leng == t0.names[n].leng && FinalName(t, names[n])
  {
    forall j | 0 <= j < |decls|
      ensures Agree(names, Links(t0.names, decls[j]))
    {
      AdjustedAgree(t.names, names, t.classes, Links(t0.names, decls[j]));
    }
    forall n | 0 <= n < |names|
      ensures FinalName(t, names[n])
    {
      assert SpannedName(t, t.names[n]);
    }
  }

  /** t is the state before the last loop; classes before i have been adjusted. */
  ghost predicate Adjusting(t: Table, chains: seq<seq<Link>>, i: nat, names: seq<Name>) {
    && Between(t, chains, |t.classes|) && |names| == |t.names|
    && (forall n | 0 <= n < |t.names| :: !t.names[n].veqvadjust && names[n] == Adjusted(t.names[n], t.classes, i))
  }

  /** So have the names on the links done of class i. */
  ghost predicate AdjustingListed(t: Table, chains: seq<seq<Link>>, i: nat, done: seq<Link>, names: seq<Name>) {
    && Between(t, chains, |t.classes|) && |names| == |t.names|
    && (forall n: nat | n < |t.names| ::
          !t.names[n].veqvadjust && names[n] == Adjusted(t.names[n], t.classes, if Listed(done, n) then i + 1 else i))
  }

  lemma AdjustingStarts(t: Table, chains: seq<seq<Link>>, i: nat, names: seq<Name>)
    requires Adjusting(t, chains, i, names)
    ensures AdjustingListed(t, chains, i, [], names)
  {}

  lemma AdjustingEnds(t: Table, chains: seq<seq<Link>>, i: nat, names: seq<Name>)
    requires i < |t.classes|
    requires if t.classes[i].bottom == 0 && t.classes[i].top == 0 then Adjusting(t, chains, i, names)
             else AdjustingListed(t, chains, i, t.classes[i].equivs, names)
    ensures Adjusting(t, chains, i + 1, names)
  {}

  /** The first j items have been looked up, with this class, COMMON item and number of errors. */
  ghost predicate LookedTo(names: seq<Name>, refs: seq<Ref>, j: nat, c: Class, common: Option<(int, int)>, faults: int)
    requires RefsKnown(|names|, refs) && j <= |refs|
  {
    && c.equivs == Links(names, refs)[..j] && Bounds(names, c) && FoundCommon(names, c.equivs, common)
    && faults >= 0 && (faults == 0 <==> forall k | 0 <= k < j :: !Faulty(names, refs[k]))
  }

  lemma LookedOn(names: seq<Name>, refs: seq<Ref>, j: nat, c: Class, common: Option<(int, int)>, faults: int)
    requires RefsKnown(|names|, refs) && j < |refs| && LookedTo(names, refs, j, c, common, faults)
    ensures var l := LinkOf(names, refs[j]);
            var c' := if l.np.None? then c.(equivs := c.equivs + [l])
                      else Class(c.equivs + [l], Lmin(c.bottom, -l.off), Lmax(c.top, names[l.np.value].leng - l.off));
            var common' := if l.np.Some? && names[l.np.value].vstg.STGCOMMON? then
                             Some((names[l.np.value].varno, names[l.np.value].voffset + l.off))
                           else common;
            LookedTo(names, refs, j + 1, c', common', faults + if Faulty(names, refs[j]) then 1 else 0)
  {
    FoundGrows(names, c.equivs, common, LinkOf(names, refs[j]));
    BoundsGrow(names, c, LinkOf(names, refs[j]));
    assert Links(names, refs)[..j + 1] == Links(names, refs)[..j] + [LinkOf(names, refs[j])];
  }


  class Equivalence {
    var names: seq<Name>
    var eqvclass: seq<Class>
    var extleng: seq<int>
    var nerr: nat

    constructor (names: seq<Name>, nequiv: nat, extleng: seq<int>)
      ensures Now() == Table(names, seq(nequiv, _ => Class([], 0, 0)), extleng, 0)
    {
      this.names, this.extleng, nerr := names, extleng, 0;
      eqvclass := seq(nequiv, _ => Class([], 0, 0));
    }

    function Now(): Table
      reads this
    {
      Table(names, eqvclass, extleng, nerr)
    }

    /** eqveqv. */
    method Eqveqv(nvarno: nat, ovarno: nat, delta: int)
      requires AllKnown(Now()) && nvarno < |eqvclass| && ovarno < |eqvclass| && nvarno != ovarno
      modifies this
      ensures Now() == EqvEqv(old(Now()), nvarno, ovarno, delta)
    {
      var neweqv, oldeqv := eqvclass[nvarno], eqvclass[ovarno];
      var bottom := Lmin(neweqv.bottom, oldeqv.bottom - delta);
      var top := Lmax(neweqv.top, oldeqv.top - delta);
      var chain := neweqv.equivs;
      var q := oldeqv.equivs;
      ghost var t := Now();
      while q != []
        invariant Now() == t.(names := names) && Known(|names|, q)
        invariant Move(names, q, chain, nvarno, ovarno, delta) ==
                    Move(t.names, oldeqv.equivs, neweqv.equivs, nvarno, ovarno, delta)
      {
        var l := q[0];
        q := q[1..];
        if l.np.Some? && names[l.np.value].varno == ovarno {
          var x := names[l.np.value];
          chain := [l.(off := l.off + delta)] + chain;
          names := names[l.np.value := x.(varno := nvarno, voffset := x.voffset - delta)];
        }
      }
      eqvclass := eqvclass[nvarno := Class(chain, bottom, top)][ovarno := Class([], 0, 0)];
    }

    /** eqvcommon. */
    method Eqvcommon(p: nat, comno: int, comoffset: int)
      requires AllKnown(Now()) && p < |eqvclass|
      modifies this
      ensures Now() == EqvCommon(old(Now()), p, comno, comoffset) && AllKnown(Now())
      decreases EquivCount(names), |eqvclass[p].equivs| + 1
    {
      ghost var t := Now();
      if comoffset + eqvclass[p].bottom < 0 {
        nerr := nerr + 1;
        eqvclass := eqvclass[p := eqvclass[p].(equivs := [])];
        return;
      }
      var k := comoffset + eqvclass[p].top;
      if 0 <= comno < |extleng| && k > extleng[comno] {
        extleng := extleng[comno := k];
      }
      var q := eqvclass[p].equivs;
      ghost var goal := CommonLinks(Now(), p, q, comno, comoffset);
      while q != []
        invariant AllKnown(Now()) && Known(|names|, q) && p < |eqvclass|
        invariant CommonLinks(Now(), p, q, comno, comoffset) == goal
        invariant EquivCount(names) <= EquivCount(t.names)
      {
        CommonOne(p, q[0], comno, comoffset);
        q := q[1..];
      }
      eqvclass := eqvclass[p := Class([], 0, 0)];
    }

    /** The switch in eqvcommon's loop. */
    method CommonOne(p: nat, q: Link, comno: int, comoffset: int)
      requires AllKnown(Now()) && p < |eqvclass| && (q.np.Some? ==> q.np.value < |names|)
      modifies this
      ensures Now() == CommonLink(old(Now()), p, q, comno, comoffset) && AllKnown(Now())
      decreases EquivCount(names), 0
    {
      if q.np.None? {
        return;
      }
      var np := q.np.value;
      var x := names[np];
      match x.vstg {
        case STGCOMMON =>
          if comno != x.varno || comoffset != x.voffset + q.off {
            nerr := nerr + 1;
          }
        case STGEQUIV =>
          var ovarno := x.varno;
          var offq := comoffset - q.off - x.voffset;
          var x' := x.(vstg := STGCOMMON, varno := comno, voffset := x.voffset + offq);
          CountDrops(names, np, x');
          names := names[np := x'];
          if ovarno != p {
            Eqvcommon(ovarno, comno, offq);
          }
        case STGOTHER =>
        case _ =>
          names := names[np := x.(vstg := STGCOMMON, varno := comno, voffset := comoffset - q.off)];
      }
    }

    /** doequiv's second loop on one item. */
    method PlaceOne(i: nat, q: Link)
      requires AllKnown(Now()) && i < |eqvclass| && (q.np.Some? ==> q.np.value < |names|)
      modifies this
      ensures Now() == Place(old(Now()), i, q) && AllKnown(Now())
    {
      if q.np.None? {
        return;
      }
      var np := q.np.value;
      var x := names[np];
      var inequiv := false;
      if x.vstg.STGEQUIV? {
        if x.varno == i {
          if x.voffset + q.off != 0 {
            nerr := nerr + 1;
          }
        } else {
          inequiv := true;
        }
      }
      names := names[np := x.(vstg := STGEQUIV, varno := i, voffset := -q.off)];
      if inequiv {
        Eqveqv(i, x.varno, q.off + x.voffset);
      }
    }

    /** doequiv's first loop on one declaration: look the items up, find the extent of the class,
        and the COMMON block of the last item that is in one. */
    method Lookup(i: nat, refs: seq<Ref>) returns (common: Option<(int, int)>)
      requires RefsKnown(|names|, refs) && i < |eqvclass|
      modifies this`eqvclass, this`nerr
      ensures |eqvclass| == |old(eqvclass)| && eqvclass == old(eqvclass)[i := eqvclass[i]]
      ensures eqvclass[i].equivs == Links(names, refs)
      ensures nerr >= old(nerr) && (nerr == old(nerr) <==> Faultless(names, refs))
      ensures Bounds(names, eqvclass[i])
      ensures FoundCommon(names, eqvclass[i].equivs, common)
    {
      var bottom, top := 0, 0;
      var links: seq<Link> := [];
      common := None;
      var j := 0;
      while j < |refs|
        invariant 0 <= j <= |refs| && eqvclass == old(eqvclass) && nerr >= old(nerr)
        invariant LookedTo(names, refs, j, Class(links, bottom, top), common, nerr - old(nerr))
      {
        var l;
        ghost var c := Class(links, bottom, top);
        ghost var found, faults := common, nerr - old(nerr);
        l, bottom, top, common := LookAt(refs[j], bottom, top, common);
        links := links + [l];
        LookedOn(names, refs, j, c, found, faults);
        j := j + 1;
      }
      eqvclass := eqvclass[i := Class(links, bottom, top)];
    }

    /** One item of a declaration. */
    method LookAt(r: Ref, bottom0: int, top0: int, common0: Option<(int, int)>)
      returns (l: Link, bottom: int, top: int, common: Option<(int, int)>)
      requires r.Ref? ==> r.np < |names|
      modifies this`nerr
      ensures l == LinkOf(names, r) && nerr == old(nerr) + if Faulty(names, r) then 1 else 0
      ensures bottom == if l.np.None? then bottom0 else Lmin(bottom0, -l.off)
      ensures top == if l.np.None? then top0 else Lmax(top0, names[l.np.value].leng - l.off)
      ensures common == if l.np.Some? && names[l.np.value].vstg.STGCOMMON? then
                          Some((names[l.np.value].varno, names[l.np.value].voffset + l.off))
                        else common0
    {
      l, bottom, top, common := Link(None, 0), bottom0, top0, common0;
      if r.Ref? {
        var x := names[r.np];
        if r.offset.None? || x.leng < 0 || x.vstg.STGOTHER? {
          nerr := nerr + 1;
        } else {
          var offset := r.offset.value;
          if x.vstg.STGCOMMON? {
            common := Some((x.varno, x.voffset + offset));
          }
          l := Link(Some(r.np), offset);
          bottom := Lmin(bottom, -offset);
          top := Lmax(top, x.leng - offset);
        }
      }
    }

    /** One declaration whose items are not in COMMON. */
    method PlaceAll(ghost t0: Table, i: nat, ghost links: seq<Link>, ghost chains: seq<seq<Link>>,
                    ghost sol: Option<(seq<Spot>, Spot)>, ghost ms: Marks)
      returns (ghost chains': seq<seq<Link>>)
      requires AllKnown(Now()) && i < |eqvclass| && Known(|names|, links) && eqvclass[i].equivs == links
      requires nerr == t0.nerr ==> Mid(Now(), chains, i, [], links) && MidExact(Now(), ms, t0.ext, i, links)
      requires sol.Some? ==>
                 nerr == t0.nerr && MidFollows(Now(), sol.value.0, i, sol.value.1)
                   && Anchored(sol.value.0, links, sol.value.1)
      requires nerr >= t0.nerr
      modifies this
      ensures AllKnown(Now()) && |names| == |old(names)| && |eqvclass| == |old(eqvclass)| && nerr >= old(nerr)
      ensures nerr == t0.nerr ==>
                && Mid(Now(), chains', i, links, []) && Moves(old(Now()), Now())
                && MidExact(Now(), ms, t0.ext, i, [])
      ensures sol.Some? ==> nerr == t0.nerr && MidFollows(Now(), sol.value.0, i, sol.value.1)
    {
      var q := eqvclass[i].equivs;
      ghost var done: seq<Link> := [];
      chains' := chains;
      assert [] + q == links;
      while q != []
        invariant AllKnown(Now()) && |names| == |old(names)| && |eqvclass| == |old(eqvclass)|
                  && nerr >= old(nerr) >= t0.nerr
        invariant Known(|names|, q) && done + q == links
        invariant nerr == t0.nerr ==>
                    && Mid(Now(), chains', i, done, q) && Moves(old(Now()), Now())
                    && MidExact(Now(), ms, t0.ext, i, q)
        invariant sol.Some? ==> nerr == t0.nerr && MidFollows(Now(), sol.value.0, i, sol.value.1)
      {
        ghost var t := Now();
        assert (done + [q[0]]) + q[1..] == links;
        if sol.Some? {
          assert q[0] == links[|done|];
          PlaceStepFollows(t, chains', i, done, q, sol.value.0, sol.value.1);
        }
        PlaceOne(i, q[0]);
        if nerr == t0.nerr {
          PlaceExact(t, chains', i, done, q, ms, t0.ext);
          chains' := PlaceStepSince(old(Now()), t, chains', i, done, q);
        }
        done := done + [q[0]];
        q := q[1..];
      }
    }

    /** doequiv's first loop on declaration i. */
    method Declare(i: nat, refs: seq<Ref>, ghost t0: Table, ghost decls: seq<seq<Ref>>, ghost chains: seq<seq<Link>>,
                   ghost sol: Option<seq<Spot>>)
      returns (ghost chains': seq<seq<Link>>)
      requires DeclsKnown(|t0.names|, decls) && i < |decls| && refs == decls[i]
      requires Given(t0.names, decls, sol) && Running(Now(), t0, decls, i, chains, sol)
      modifies this
      ensures Running(Now(), t0, decls, i + 1, chains', sol)
    {
      ghost var t := Now();
      ghost var at := Spot(Alone(0), 0);
      if nerr == t0.nerr {
        LinksStay(t0.names, names, refs);
      }
      var common := Lookup(i, refs);
      ghost var links := eqvclass[i].equivs;
      if sol.Some? {
        assert Solvable(t0.names, decls[i], sol.value);
        at :| SolvesOne(sol.value, links, at);
      }
      if nerr == t0.nerr {
        OpenedHere(i, refs, t);
      }
      match common {
        case Some((comno, comoffset)) =>
          chains' := DeclareCommon(i, comno, comoffset, t, t0, decls, chains, links, sol, at);
        case None =>
          chains' := DeclarePlain(i, t, t0, decls, chains, links, sol, at);
      }
    }

    method DeclareCommon(i: nat, comno: int, comoffset: int, ghost t: Table, ghost t0: Table,
                         ghost decls: seq<seq<Ref>>,
                         ghost chains: seq<seq<Link>>, ghost links: seq<Link>, ghost sol: Option<seq<Spot>>,
                         ghost at: Spot)
      returns (ghost chains': seq<seq<Link>>)
      requires DeclsKnown(|t0.names|, decls) && Looked(t, Now(), t0, decls, i, chains, links, sol, at)
      requires FoundCommon(names, links, Some((comno, comoffset)))
      modifies this
      ensures Running(Now(), t0, decls, i + 1, chains', sol)
    {
      ghost var t1 := Now();
      ghost var k :| 0 <= k < |links| && CommonLinkAt(names, links[k], comno, comoffset);
      if sol.Some? {
        CommitDeclarationFollows(t, chains, i, t1, links, comno, comoffset, sol.value, at, k);
      }
      Eqvcommon(i, comno, comoffset);
      chains' := chains;
      if nerr == t0.nerr {
        assert SpannedName(t, t.names[links[k].np.value]);
        AllMarked(t0.names, t1.names, decls, i);
        CommitDeclarationExact(t, chains, i, t1, links, comno, comoffset, MarksOf(t0.names, decls), t0.ext);
        chains' := CommitDeclaration(t, chains, i, t1, links, comno, comoffset);
        MetOn(t, Now(), t0, decls, i);
      }
    }

    method DeclarePlain(i: nat, ghost t: Table, ghost t0: Table, ghost decls: seq<seq<Ref>>,
                        ghost chains: seq<seq<Link>>, ghost links: seq<Link>, ghost sol: Option<seq<Spot>>,
                        ghost at: Spot)
      returns (ghost chains': seq<seq<Link>>)
      requires DeclsKnown(|t0.names|, decls) && Looked(t, Now(), t0, decls, i, chains, links, sol, at)
      requires FoundCommon(names, links, None)
      modifies this
      ensures Running(Now(), t0, decls, i + 1, chains', sol)
    {
      ghost var t1 := Now();
      ghost var sol1 := PlainStarts(t, t1, t0, decls, i, chains, links, sol, at);
      chains' := PlaceAll(t0, i, links, chains, sol1, MarksOf(t0.names, decls));
      PlainRuns(t, t1, Now(), t0, decls, i, chains, chains', links, sol, at, sol1);
    }

    lemma OpenedHere(i: nat, refs: seq<Ref>, t: Table)
      requires i < |eqvclass| && |eqvclass| == |t.classes| && RefsKnown(|names|, refs)
      requires eqvclass[i].equivs == Links(names, refs) && Bounds(names, eqvclass[i])
      requires names == t.names
      ensures Opened(Now(), i, eqvclass[i].equivs)
    {
    }

    /** doequiv's last loop on one link of class i. */
    method AdjustOne(l: Link, bottom: int, ghost i: nat, ghost t: Table, ghost chains: seq<seq<Link>>,
                     ghost done: seq<Link>,
                     ghost fine: bool)
      requires AllKnown(Now()) && (l.np.Some? ==> l.np.value < |names|)
      requires fine ==>
                 && i < |t.classes| && AdjustingListed(t, chains, i, done, names) && bottom == t.classes[i].bottom
                 && (bottom != 0 || t.classes[i].top != 0) && |done| < |chains[i]| && l == chains[i][|done|]
      modifies this`names
      ensures AllKnown(Now()) && |names| == |old(names)|
      ensures fine ==> AdjustingListed(t, chains, i, done + [l], names)
    {
      if fine {
        ListedAppend(done, [l]);
        assert [l][0] == l;
        assert l.np.Some? ==> ShelvedName(t.names[l.np.value], i, l.off);
      }
      if l.np.Some? && !names[l.np.value].veqvadjust {
        var x := names[l.np.value];
        names := names[l.np.value := x.(veqvadjust := true, voffset := x.voffset - bottom)];
      }
    }

    /** doequiv's last loop on class i: offsets are counted from the bottom of the class. */
    method Adjust(i: nat, ghost t: Table, ghost chains: seq<seq<Link>>, ghost fine: bool)
      requires AllKnown(Now()) && i < |eqvclass|
      requires fine ==> i < |t.classes| && Adjusting(t, chains, i, names) && eqvclass[i] == t.classes[i]
      modifies this`names, this`eqvclass
      ensures AllKnown(Now()) && |names| == |old(names)|
              && eqvclass == old(eqvclass)[i := old(eqvclass)[i].(equivs := [])]
      ensures fine ==> Adjusting(t, chains, i + 1, names)
    {
      var equivdecl := eqvclass[i];
      if equivdecl.bottom != 0 || equivdecl.top != 0 {
        var q := equivdecl.equivs;
        ghost var done: seq<Link> := [];
        if fine {
          AdjustingStarts(t, chains, i, names);
        }
        while q != []
          invariant AllKnown(Now()) && |names| == |old(names)| && Known(|names|, q) && eqvclass == old(eqvclass)
          invariant done + q == equivdecl.equivs
          invariant fine ==> AdjustingListed(t, chains, i, done, names)
        {
          assert (done + [q[0]]) + q[1..] == equivdecl.equivs && q[0] == equivdecl.equivs[|done|];
          AdjustOne(q[0], equivdecl.bottom, i, t, chains, done, fine);
          done := done + [q[0]];
          q := q[1..];
        }
        assert done == equivdecl.equivs;
      }
      if fine {
        AdjustingEnds(t, chains, i, names);
      }
      eqvclass := eqvclass[i := equivdecl.(equivs := [])];
    }

    /** doequiv's last loop. */
    method AdjustAll(ghost chains: seq<seq<Link>>, ghost fine: bool)
      requires AllKnown(Now()) && (fine ==> Adjusting(Now(), chains, 0, names))
      modifies this`names, this`eqvclass
      ensures AllKnown(Now()) && Unchained(old(Now()), Now())
      ensures fine ==> Adjusting(old(Now()), chains, |eqvclass|, names)
    {
      ghost var t := Now();
      var i := 0;
      while i < |eqvclass|
        invariant i <= |eqvclass| == |t.classes| && AllKnown(Now()) && (fine ==> Adjusting(t, chains, i, names))
        invariant forall c | 0 <= c < |eqvclass| ::
                    eqvclass[c] == if c < i then t.classes[c].(equivs := []) else t.classes[c]
      {
        Adjust(i, t, chains, fine);
        i := i + 1;
      }
    }

    /** doequiv. An inconsistency is reported exactly if the declarations cannot be met. If none
        is, the tables are Finished. */
    method Doequiv(decls: seq<seq<Ref>>)
      requires Initial(Now(), decls)
      modifies this
      ensures nerr == old(nerr) <==> Satisfiable(old(names), decls)
      ensures nerr == old(nerr) ==> |eqvclass| == |decls| && Finished(Now(), old(Now()), decls)
    {
      ghost var t0 := Now();
      ghost var sol := Chosen(names, decls);
      InitialRunning(t0, decls, sol);
      ghost var chains: seq<seq<Link>> := seq(|decls|, _ => []);
      var i := 0;
      while i < |decls|
        invariant i <= |decls| && Running(Now(), t0, decls, i, chains, sol)
      {
        chains := Declare(i, decls[i], t0, decls, chains, sol);
        i := i + 1;
      }
      ghost var t, fine := Now(), nerr == t0.nerr;
      if fine {
        MetSatisfiable(t, t0, decls);
      }
      AdjustAll(chains, fine);
      if fine {
        AdjustedFinal(t, t0, decls, chains, Now());
      }
    }
  }
}
