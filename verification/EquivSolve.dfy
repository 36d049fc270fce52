// Declarations that can be met at all: an assignment of places to the names, and
// the proof that no step of doequiv reports an inconsistency when there is one.
module EquivSolve {
  import opened Options
  import opened EquivTable
  import opened EquivFacts

  /** Storage of its own, or a COMMON block. */
  datatype Space = Alone(id: int) | Block(b: int)

  /** Where the first byte of a name is. */
  datatype Spot = Spot(space: Space, pos: int)

  /** The item of a link shares the byte at pos in space. */
  predicate Sits(sol: seq<Spot>, l: Link, at: Spot) {
    l.np.Some? ==> l.np.value < |sol| && sol[l.np.value] == Spot(at.space, at.pos - l.off)
  }

  /** All items of a list share the byte at pos in space. */
  ghost predicate Anchored(sol: seq<Spot>, links: seq<Link>, at: Spot) {
    forall k | 0 <= k < |links| :: Sits(sol, links[k], at)
  }

  /** The table agrees with the assignment: COMMON names stand where it puts them, names of one
      class at one distance from it. */
  ghost predicate Follows(names: seq<Name>, sol: seq<Spot>) {
    && |sol| == |names|
    && (forall n | 0 <= n < |names| && names[n].vstg.STGCOMMON? ::
          sol[n] == Spot(Block(names[n].varno), names[n].voffset))
    && (forall n, m | 0 <= n < |names| && 0 <= m < |names| && names[n].vstg.STGEQUIV? && Together(names[n], names[m]) ::
          sol[n].space == sol[m].space && sol[n].pos - names[n].voffset == sol[m].pos - names[m].voffset)
  }

  /** Where the assignment puts the origin of the class of a name. */
  function Origin(x: Name, s: Spot): Spot { Spot(s.space, s.pos - x.voffset) }

  /** No class that belongs in a block reaches back beyond its start. */
  ghost predicate Roomy(t: Table, sol: seq<Spot>) {
    |sol| == |t.names| &&
    forall n | 0 <= n < |t.names| && t.names[n].vstg.STGEQUIV? && sol[n].space.Block? ::
      && 0 <= t.names[n].varno < |t.classes|
      && t.classes[t.names[n].varno].bottom + Origin(t.names[n], sol[n]).pos >= 0
  }

  /** Declaration i, whose items share the spot at, is being placed. */
  ghost predicate MidFollows(t: Table, sol: seq<Spot>, i: nat, at: Spot) {
    && Follows(t.names, sol) && Roomy(t, sol) && i < |t.classes|
    && (forall n | 0 <= n < |t.names| && t.names[n].vstg.STGEQUIV? && t.names[n].varno == i ::
          Origin(t.names[n], sol[n]) == at)
    && (at.space.Block? ==> t.classes[i].bottom + at.pos >= 0)
  }

  /** A name of the class already: it is where its item says. */
  lemma FollowsSame(t: Table, sol: seq<Spot>, i: nat, at: Spot, l: Link)
    requires MidFollows(t, sol, i, at) && l.np.Some? && l.np.value < |t.names| && Sits(sol, l, at)
    requires t.names[l.np.value].vstg.STGEQUIV? && t.names[l.np.value].varno == i
    ensures ShelvedName(t.names[l.np.value], i, l.off)
  {
  }

  lemma FollowsFresh(t: Table, sol: seq<Spot>, i: nat, at: Spot, l: Link)
    requires MidFollows(t, sol, i, at) && l.np.Some? && l.np.value < |t.names| && Sits(sol, l, at) && AllKnown(t)
    requires t.names[l.np.value].vstg.STGUNKNOWN? || t.names[l.np.value].vstg.STGBSS?
    ensures MidFollows(Place(t, i, l), sol, i, at)
  {
  }

  lemma FollowsMerge(t: Table, sol: seq<Spot>, i: nat, at: Spot, l: Link)
    requires MidFollows(t, sol, i, at) && l.np.Some? && l.np.value < |t.names| && Sits(sol, l, at) && AllKnown(t)
    requires t.names[l.np.value].vstg.STGEQUIV? && t.names[l.np.value].varno != i
    requires var x := t.names[l.np.value];
             Place(t, i, l).names == Shift(t.names, x.varno, STGEQUIV, i, -(l.off + x.voffset))
    ensures MidFollows(Place(t, i, l), sol, i, at) && Place(t, i, l).nerr == t.nerr
  {
    var n := l.np.value;
    forall m | 0 <= m < |t.names| && t.names[m].vstg.STGEQUIV? && t.names[m].varno == t.names[n].varno
      ensures Origin(t.names[m], sol[m]) == Origin(t.names[n], sol[n])
    {
      assert Together(t.names[m], t.names[n]);
    }
  }

  // ----- with a COMMON item -----

  lemma FollowsInCommon(t: Table, sol: seq<Spot>, comno: int, c0: int, l: Link)
    requires Follows(t.names, sol) && l.np.Some? && l.np.value < |t.names| && Sits(sol, l, Spot(Block(comno), c0))
    requires t.names[l.np.value].vstg.STGCOMMON?
    ensures InCommon(t.names[l.np.value], comno, c0 - l.off)
  {
  }

  lemma FollowsCommitFresh(t: Table, sol: seq<Spot>, i: nat, comno: int, c0: int, l: Link)
    requires Follows(t.names, sol) && Roomy(t, sol) && l.np.Some? && l.np.value < |t.names|
             && Sits(sol, l, Spot(Block(comno), c0))
    requires t.names[l.np.value].vstg.STGUNKNOWN? || t.names[l.np.value].vstg.STGBSS?
    requires AllKnown(t) && i < |t.classes|
    ensures var t' := CommonLink(t, i, l, comno, c0); Follows(t'.names, sol) && Roomy(t', sol)
  {
  }

  /** The class dragged into the block fits there, and stands where the assignment puts it. */
  lemma FollowsDrag(t: Table, sol: seq<Spot>, comno: int, c0: int, l: Link, t': Table)
    requires Follows(t.names, sol) && Roomy(t, sol) && l.np.Some? && l.np.value < |t.names|
             && Sits(sol, l, Spot(Block(comno), c0))
    requires t.names[l.np.value].vstg.STGEQUIV?
    ensures var x := t.names[l.np.value];
            && 0 <= x.varno < |t.classes|
            && c0 - l.off - x.voffset + t.classes[x.varno].bottom >= 0
    ensures var x := t.names[l.np.value];
            t'.names == Shift(t.names, x.varno, STGCOMMON, comno, c0 - l.off - x.voffset) &&
            |t'.classes| == |t.classes| &&
            (forall c | 0 <= c < |t.classes| && c != x.varno :: t'.classes[c] == t.classes[c]) ==>
              Follows(t'.names, sol) && Roomy(t', sol)
  {
    var n := l.np.value;
    forall m | 0 <= m < |t.names| && t.names[m].vstg.STGEQUIV? && t.names[m].varno == t.names[n].varno
      ensures Origin(t.names[m], sol[m]) == Origin(t.names[n], sol[n])
    {
      assert Together(t.names[m], t.names[n]);
    }
  }

  /** The assignment puts the items of one list at one byte, and none of them, nor that byte,
      before the start of a block. */
  ghost predicate SolvesOne(sol: seq<Spot>, links: seq<Link>, at: Spot) {
    && Anchored(sol, links, at)
    && (at.space.Block? ==> forall k | 0 <= k < |links| && links[k].np.Some? ::
          at.pos >= 0 && at.pos - links[k].off >= 0)
  }
}
