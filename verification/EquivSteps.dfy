// One link, then one whole declaration, of doequiv: what is kept when no
// inconsistency is reported, and that none is reported if there is a solution.
module EquivSteps {
  import opened Options
  import opened Seqs
  import opened EquivTable
  import opened EquivFacts
  import opened EquivSolve

  /** How far a name's first byte lies before the lowest byte its class or block has: the least
      offset of an item of that name. */
  function Slack(t: Table, x: Name): int {
    (if x.vstg.STGEQUIV? && 0 <= x.varno < |t.classes| then t.classes[x.varno].bottom else 0) - x.voffset
  }

  /** Classes have moved rigidly, and have kept all the room they had below. */
  ghost predicate Moves(t: Table, t': Table) {
    && Rigid(t.names, t'.names)
    && forall n | 0 <= n < |t.names| && Placed(t.names[n]) :: Slack(t', t'.names[n]) <= Slack(t, t.names[n])
  }

  lemma MovesTrans(a: Table, b: Table, c: Table)
    requires Moves(a, b) && Moves(b, c)
    ensures Moves(a, c)
  {
    RigidTrans(a.names, b.names, c.names);
  }

  /** The items of a declaration share one byte, and it lies within their class or block. */
  ghost predicate Met(t: Table, links: seq<Link>) {
    && Agree(t.names, links)
    && forall k | 0 <= k < |links| && links[k].np.Some? :: Slack(t, t.names[links[k].np.value]) <= links[k].off
  }

  lemma MetKept(t: Table, t': Table, links: seq<Link>)
    requires Met(t, links) && Moves(t, t')
    ensures Met(t', links)
  {
    AgreeKept(t.names, t'.names, links);
    forall k | 0 <= k < |links| && links[k].np.Some?
      ensures Slack(t', t'.names[links[k].np.value]) <= links[k].off
    {
      assert Together(t.names[links[k].np.value], t.names[links[k].np.value]);
    }
  }

  // ----- placing -----

  lemma PlaceStep(t: Table, chains: seq<seq<Link>>, i: nat, done: seq<Link>, rest: seq<Link>)
    returns (chains': seq<seq<Link>>)
    requires Mid(t, chains, i, done, rest) && rest != [] && Place(t, i, rest[0]).nerr == t.nerr
    ensures Mid(Place(t, i, rest[0]), chains', i, done + [rest[0]], rest[1..])
    ensures Moves(t, Place(t, i, rest[0]))
  {
    var l := rest[0];
    if l.np.None? || ShelvedName(t.names[l.np.value], i, l.off) {
      PlaceStays(t, i, l);
      chains' := PlaceNothing(t, chains, i, done, rest);
    } else {
      var n, x := l.np.value, t.names[l.np.value];
      if x.vstg.STGEQUIV? {
        chains' := PlaceMerge(t, chains, i, done, rest);
        MergeMovesTable(t, i, l);
      } else {
        chains' := PlaceFresh(t, chains, i, done, rest);
        FreshMovesTable(t, Place(t, i, l), n);
      }
    }
  }

  lemma PlaceStays(t: Table, i: nat, l: Link)
    requires AllKnown(t) && i < |t.classes|
    requires l.np.Some? ==> l.np.value < |t.names| && ShelvedName(t.names[l.np.value], i, l.off)
    ensures Place(t, i, l) == t && Moves(t, t)
  {
    if l.np.Some? {
      var n, x := l.np.value, t.names[l.np.value];
      assert t.names == t.names[n := x.(vstg := STGEQUIV, varno := i, voffset := -l.off)];
    }
  }

  lemma FreshMovesTable(t: Table, t': Table, n: nat)
    requires n < |t.names| && !Placed(t.names[n]) && Rigid(t.names, t'.names) && t'.classes == t.classes
    requires t'.names == t.names[n := t'.names[n]]
    ensures Moves(t, t')
  {}

  lemma MergeMovesTable(t: Table, i: nat, l: Link)
    requires AllKnown(t) && i < |t.classes| && l.np.Some? && l.np.value < |t.names|
    requires var x := t.names[l.np.value];
             && x.vstg.STGEQUIV? && x.varno != i
             && Place(t, i, l).names == Shift(t.names, x.varno, STGEQUIV, i, -(l.off + x.voffset))
    ensures Moves(t, Place(t, i, l))
  {
    var x := t.names[l.np.value];
    ShiftRigid(t.names, x.varno, STGEQUIV, i, -(l.off + x.voffset));
  }

  lemma PlaceStepFollows(t: Table, chains: seq<seq<Link>>, i: nat, done: seq<Link>, rest: seq<Link>, sol: seq<Spot>,
                         at: Spot)
    requires Mid(t, chains, i, done, rest) && rest != []
    requires MidFollows(t, sol, i, at) && Sits(sol, rest[0], at)
    ensures Place(t, i, rest[0]).nerr == t.nerr && MidFollows(Place(t, i, rest[0]), sol, i, at)
  {
    var l := rest[0];
    if l.np.Some? {
      var n, x := l.np.value, t.names[l.np.value];
      if !x.vstg.STGEQUIV? {
        FollowsFresh(t, sol, i, at, l);
      } else if x.varno == i {
        FollowsSame(t, sol, i, at, l);
        assert t.names == t.names[n := x.(vstg := STGEQUIV, varno := i, voffset := -l.off)];
      } else {
        var _ := PlaceMerge(t, chains, i, done, rest);
        FollowsMerge(t, sol, i, at, l);
      }
    }
  }

  /** All items placed: they meet in the origin of class i. */
  lemma PlacedMet(t: Table, chains: seq<seq<Link>>, i: nat, done: seq<Link>)
    requires Mid(t, chains, i, done, [])
    ensures Met(t, done)
  {}

  // ----- committing to a COMMON block -----

  lemma CommitStep(t: Table, chains: seq<seq<Link>>, i: nat, done: seq<Link>, rest: seq<Link>, comno: int, c0: int)
    returns (chains': seq<seq<Link>>)
    requires Committing(t, chains, i, done, rest, comno, c0) && rest != []
    requires CommonLink(t, i, rest[0], comno, c0).nerr == t.nerr
    ensures Committing(CommonLink(t, i, rest[0], comno, c0), chains', i, done + [rest[0]], rest[1..], comno, c0)
    ensures Moves(t, CommonLink(t, i, rest[0], comno, c0))
  {
    var l := rest[0];
    chains' := chains;
    if l.np.None? {
      CommitNothing(t, chains, i, done, rest, comno, c0);
    } else {
      var x := t.names[l.np.value];
      if x.vstg.STGEQUIV? {
        CommitDrag(t, chains, i, done, rest, comno, c0);
        chains' := chains[x.varno := []];
        DragMovesTable(t, CommonLink(t, i, l, comno, c0), x.varno, comno, c0 - l.off - x.voffset);
      } else if x.vstg.STGCOMMON? {
        CommitNothing(t, chains, i, done, rest, comno, c0);
      } else {
        CommitFresh(t, chains, i, done, rest, comno, c0);
        FreshMovesTable(t, CommonLink(t, i, l, comno, c0), l.np.value);
      }
    }
  }

  lemma DragMovesTable(t: Table, t': Table, o: int, comno: int, d: int)
    requires 0 <= o < |t.classes| && d + t.classes[o].bottom >= 0
    requires t'.names == Shift(t.names, o, STGCOMMON, comno, d) && |t'.classes| == |t.classes|
    requires forall c | 0 <= c < |t.classes| && c != o :: t'.classes[c].bottom == t.classes[c].bottom
    ensures Moves(t, t')
  {
    ShiftRigid(t.names, o, STGCOMMON, comno, d);
  }

  lemma CommitStepFollows(t: Table, chains: seq<seq<Link>>, i: nat, done: seq<Link>, rest: seq<Link>, comno: int,
                          c0: int,
                          sol: seq<Spot>)
    requires Committing(t, chains, i, done, rest, comno, c0) && rest != []
    requires Follows(t.names, sol) && Roomy(t, sol) && Sits(sol, rest[0], Spot(Block(comno), c0))
    ensures var t' := CommonLink(t, i, rest[0], comno, c0);
            t'.nerr == t.nerr && Follows(t'.names, sol) && Roomy(t', sol)
  {
    var l := rest[0];
    if l.np.Some? {
      var x := t.names[l.np.value];
      match x.vstg
      case STGEQUIV =>
        DragFollows(t, chains, i, done, rest, comno, c0, sol);
      case STGCOMMON =>
        FollowsInCommon(t, sol, comno, c0, l);
      case _ =>
        FollowsCommitFresh(t, sol, i, comno, c0, l);
    }
  }

  lemma DragFollows(t: Table, chains: seq<seq<Link>>, i: nat, done: seq<Link>, rest: seq<Link>, comno: int, c0: int,
                    sol: seq<Spot>)
    requires Committing(t, chains, i, done, rest, comno, c0) && rest != []
    requires Follows(t.names, sol) && Roomy(t, sol) && Sits(sol, rest[0], Spot(Block(comno), c0))
    requires rest[0].np.Some? && t.names[rest[0].np.value].vstg.STGEQUIV?
    ensures var t' := CommonLink(t, i, rest[0], comno, c0);
            t'.nerr == t.nerr && Follows(t'.names, sol) && Roomy(t', sol)
  {
    CommitDrag(t, chains, i, done, rest, comno, c0);
    FollowsDrag(t, sol, comno, c0, rest[0], CommonLink(t, i, rest[0], comno, c0));
  }

  /** PlaceStep, counting the moves from an earlier table. */
  lemma PlaceStepSince(t0: Table, t: Table, chains: seq<seq<Link>>, i: nat, done: seq<Link>, rest: seq<Link>)
    returns (chains': seq<seq<Link>>)
    requires Mid(t, chains, i, done, rest) && rest != [] && Place(t, i, rest[0]).nerr == t.nerr && Moves(t0, t)
    ensures Mid(Place(t, i, rest[0]), chains', i, done + [rest[0]], rest[1..])
    ensures Moves(t0, Place(t, i, rest[0]))
  {
    chains' := PlaceStep(t, chains, i, done, rest);
    MovesTrans(t0, t, Place(t, i, rest[0]));
  }

  lemma CommitStepSince(t0: Table, t: Table, chains: seq<seq<Link>>, i: nat, done: seq<Link>, rest: seq<Link>,
                        comno: int, c0: int)
    returns (chains': seq<seq<Link>>)
    requires Committing(t, chains, i, done, rest, comno, c0) && rest != [] && Moves(t0, t)
    requires CommonLink(t, i, rest[0], comno, c0).nerr == t.nerr
    ensures Committing(CommonLink(t, i, rest[0], comno, c0), chains', i, done + [rest[0]], rest[1..], comno, c0)
    ensures Moves(t0, CommonLink(t, i, rest[0], comno, c0))
  {
    chains' := CommitStep(t, chains, i, done, rest, comno, c0);
    MovesTrans(t0, t, CommonLink(t, i, rest[0], comno, c0));
  }

  /** eqvcommon's whole loop, which ends in t', counting the moves from an earlier table. */
  lemma {:induction false} CommitAll(t0: Table, t: Table, chains: seq<seq<Link>>, i: nat, done: seq<Link>,
                                     rest: seq<Link>, comno: int, c0: int, t': Table)
    returns (chains': seq<seq<Link>>)
    requires Committing(t, chains, i, done, rest, comno, c0) && Moves(t0, t)
    requires t' == CommonLinks(t, i, rest, comno, c0) && t'.nerr == t.nerr
    ensures Committing(t', chains', i, done + rest, [], comno, c0) && Moves(t0, t')
    decreases |rest|
  {
    if rest == [] {
      chains' := chains;
      assert done + rest == done;
    } else {
      var t1 := CommonLink(t, i, rest[0], comno, c0);
      assert t' == CommonLinks(t1, i, rest[1..], comno, c0);
      chains' := CommitStepSince(t0, t, chains, i, done, rest, comno, c0);
      AppendAssoc(done, [rest[0]], rest[1..]);
      assert [rest[0]] + rest[1..] == rest;
      chains' := CommitAll(t0, t1, chains', i, done + [rest[0]], rest[1..], comno, c0, t');
    }
  }

  lemma {:induction false} CommitAllFollows(t: Table, chains: seq<seq<Link>>, i: nat, done: seq<Link>, rest: seq<Link>,
                                            comno: int, c0: int, sol: seq<Spot>)
    requires Committing(t, chains, i, done, rest, comno, c0)
    requires Follows(t.names, sol) && Roomy(t, sol) && Anchored(sol, rest, Spot(Block(comno), c0))
    ensures var t' := CommonLinks(t, i, rest, comno, c0);
            t'.nerr == t.nerr && Follows(t'.names, sol) && Roomy(t', sol)
    decreases |rest|
  {
    if rest != [] {
      CommitStepFollows(t, chains, i, done, rest, comno, c0, sol);
      var chains1 := CommitStep(t, chains, i, done, rest, comno, c0);
      CommitAllFollows(CommonLink(t, i, rest[0], comno, c0), chains1, i, done + [rest[0]], rest[1..], comno, c0, sol);
    }
  }

  lemma SettledMet(t: Table, links: seq<Link>, comno: int, c0: int)
    requires Settled(t.names, links, comno, c0) && Known(|t.names|, links) && c0 >= 0
    ensures Met(t, links)
  {}
}
