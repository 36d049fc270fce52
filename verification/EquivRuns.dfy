// Between two declarations of doequiv: what holds of the tables, and how one
// declaration, with or without a COMMON item, leads to the next.
module EquivRuns {
  import opened Options
  import opened EquivTable
  import opened EquivFacts
  import opened EquivSolve
  import opened EquivSteps

  /** Declarations before i have been processed without an error; the chains are all in force. */
  ghost predicate Between(t: Table, chains: seq<seq<Link>>, i: nat) {
    && |chains| == |t.classes| && i <= |chains| && AllKnown(t)
    && Filed(t.names, chains) && Spanned(t)
    && (forall c | 0 <= c < |chains| :: t.classes[c].equivs == chains[c])
    && (forall c | i <= c < |chains| :: t.classes[c] == Class([], 0, 0))
  }

  /** The items of declaration i have been looked up: their chain and its bounds. */
  ghost predicate Opened(t: Table, i: nat, links: seq<Link>) {
    && i < |t.classes| && Known(|t.names|, links)
    && t.classes[i].equivs == links && t.classes[i].bottom <= 0 <= t.classes[i].top
    && (t.classes[i].bottom == 0 || exists k ::
          0 <= k < |links| && links[k].np.Some? && t.classes[i].bottom == -links[k].off)
    && (t.classes[i].top == 0 || exists k ::
          && 0 <= k < |links| && links[k].np.Some?
          && t.classes[i].top == t.names[links[k].np.value].leng - links[k].off)
    && forall k | 0 <= k < |links| && links[k].np.Some? ::
         var x := t.names[links[k].np.value];
         !x.vstg.STGOTHER? && Spans(t.classes[i], -links[k].off, x.leng)
  }

  lemma NoneInClass(t: Table, chains: seq<seq<Link>>, i: nat)
    requires Between(t, chains, i) && i < |chains|
    ensures forall n | 0 <= n < |t.names| && t.names[n].vstg.STGEQUIV? :: t.names[n].varno != i
  {
    forall n | 0 <= n < |t.names| && t.names[n].vstg.STGEQUIV?
      ensures t.names[n].varno != i
    {
      assert Listed(chains[t.names[n].varno], n);
    }
  }

  /** What opening a declaration leaves alone. */
  lemma OpenedSpanned(t: Table, chains: seq<seq<Link>>, i: nat, t1: Table, links: seq<Link>)
    requires Between(t, chains, i) && i < |chains| && Opened(t1, i, links)
    requires t1 == t.(classes := t.classes[i := t1.classes[i]], nerr := t1.nerr)
    ensures AllKnown(t1) && Spanned(t1) && chains[i] == []
    ensures forall c | 0 <= c < |chains| && c != i :: t1.classes[c].equivs == chains[c]
  {
    NoneInClass(t, chains, i);
    forall n | 0 <= n < |t1.names|
      ensures SpannedName(t1, t1.names[n])
    {
      assert SpannedName(t, t.names[n]);
    }
    assert t.classes[i].equivs == chains[i];
  }

  lemma StartPlacing(t: Table, chains: seq<seq<Link>>, i: nat, t1: Table, links: seq<Link>)
    requires Between(t, chains, i) && i < |chains| && Opened(t1, i, links)
    requires t1 == t.(classes := t.classes[i := t1.classes[i]], nerr := t1.nerr)
    requires forall k | 0 <= k < |links| && links[k].np.Some? :: !t.names[links[k].np.value].vstg.STGCOMMON?
    ensures Mid(t1, chains, i, [], links)
  {
    OpenedSpanned(t, chains, i, t1, links);
  }

  lemma EndPlacing(t: Table, chains: seq<seq<Link>>, i: nat, done: seq<Link>)
    requires Mid(t, chains, i, done, [])
    ensures Between(t, chains, i + 1) && Met(t, done)
  {
    PlacedMet(t, chains, i, done);
    assert chains[i] + [] == chains[i];
  }

  /** The table eqvcommon starts its loop with. */
  function Extended(t1: Table, i: nat, comno: int, c0: int): Table
    requires i < |t1.classes|
  {
    t1.(ext := Extend(t1.ext, comno, c0 + t1.classes[i].top))
  }

  lemma StartCommitting(t: Table, chains: seq<seq<Link>>, i: nat, t1: Table, links: seq<Link>, comno: int, c0: int)
    requires Between(t, chains, i) && i < |chains| && Opened(t1, i, links)
    requires t1 == t.(classes := t.classes[i := t1.classes[i]], nerr := t1.nerr)
    requires 0 <= comno < |t.ext| && c0 + t1.classes[i].bottom >= 0
    ensures Committing(Extended(t1, i, comno, c0), chains, i, [], links, comno, c0)
  {
    OpenedSpanned(t, chains, i, t1, links);
    var t2 := Extended(t1, i, comno, c0);
    forall n | 0 <= n < |t2.names|
      ensures SpannedName(t2, t2.names[n])
    {
      assert SpannedName(t1, t1.names[n]);
    }
  }

  lemma EndCommitting(t: Table, chains: seq<seq<Link>>, i: nat, done: seq<Link>, comno: int, c0: int)
    requires Committing(t, chains, i, done, [], comno, c0) && Known(|t.names|, done)
    ensures var t' := t.(classes := t.classes[i := Class([], 0, 0)]);
            Between(t', chains, i + 1) && Met(t', done) && Moves(t, t')
  {
    var t' := t.(classes := t.classes[i := Class([], 0, 0)]);
    NoneLeft(t, chains, i, done, comno, c0);
    SettledMet(t', done, comno, c0);
    forall n | 0 <= n < |t'.names|
      ensures SpannedName(t', t'.names[n])
    {
      assert SpannedName(t, t.names[n]);
    }
  }

  lemma NoneLeft(t: Table, chains: seq<seq<Link>>, i: nat, done: seq<Link>, comno: int, c0: int)
    requires Committing(t, chains, i, done, [], comno, c0)
    ensures forall n | 0 <= n < |t.names| && t.names[n].vstg.STGEQUIV? :: t.names[n].varno != i
  {
    forall n | 0 <= n < |t.names| && t.names[n].vstg.STGEQUIV?
      ensures t.names[n].varno != i
    {
      assert Listed(chains[t.names[n].varno], n);
    }
  }

  lemma EqvCommonIs(t1: Table, i: nat, links: seq<Link>, comno: int, c0: int)
    requires AllKnown(t1) && i < |t1.classes| && t1.classes[i].equivs == links && Known(|t1.names|, links)
    ensures c0 + t1.classes[i].bottom < 0 ==> EqvCommon(t1, i, comno, c0).nerr == t1.nerr + 1
    ensures c0 + t1.classes[i].bottom >= 0 ==>
              var t3 := CommonLinks(Extended(t1, i, comno, c0), i, links, comno, c0);
              EqvCommon(t1, i, comno, c0) == t3.(classes := t3.classes[i := Class([], 0, 0)])
  {}

  /** eqvcommon on declaration i as a whole: if it reports nothing, the declaration is met. */
  lemma CommitDeclaration(t: Table, chains: seq<seq<Link>>, i: nat, t1: Table, links: seq<Link>, comno: int, c0: int)
    returns (chains': seq<seq<Link>>)
    requires Between(t, chains, i) && i < |chains| && Opened(t1, i, links)
    requires t1 == t.(classes := t.classes[i := t1.classes[i]])
    requires 0 <= comno < |t.ext| && EqvCommon(t1, i, comno, c0).nerr == t1.nerr
    ensures var t' := EqvCommon(t1, i, comno, c0);
            Between(t', chains', i + 1) && Met(t', links) && Moves(t, t')
  {
    OpenedSpanned(t, chains, i, t1, links);
    EqvCommonIs(t1, i, links, comno, c0);
    StartCommitting(t, chains, i, t1, links, comno, c0);
    var t2 := Extended(t1, i, comno, c0);
    var t3 := CommonLinks(t2, i, links, comno, c0);
    assert [] + links == links;
    chains' := CommitAll(t2, t2, chains, i, [], links, comno, c0, t3);
    EndCommitting(t3, chains', i, links, comno, c0);
    OpenedMoves(t, chains, i, t2);
    MovesTrans(t, t2, t3);
    MovesTrans(t, t3, EqvCommon(t1, i, comno, c0));
  }

  lemma OpenedMoves(t: Table, chains: seq<seq<Link>>, i: nat, t2: Table)
    requires Between(t, chains, i) && i < |chains|
    requires t2.names == t.names && |t2.classes| == |t.classes|
    requires forall c | 0 <= c < |chains| && c != i :: t2.classes[c] == t.classes[c]
    ensures Moves(t, t2)
  {
    NoneInClass(t, chains, i);
  }

  // ----- with a solution in hand -----

  lemma OpenedFollows(t: Table, chains: seq<seq<Link>>, i: nat, t1: Table, links: seq<Link>, sol: seq<Spot>, at: Spot)
    returns (at': Spot)
    requires Between(t, chains, i) && i < |chains| && Opened(t1, i, links)
    requires t1 == t.(classes := t.classes[i := t1.classes[i]], nerr := t1.nerr)
    requires Follows(t.names, sol) && Roomy(t, sol) && SolvesOne(sol, links, at)
    ensures MidFollows(t1, sol, i, at') && Anchored(sol, links, at')
    ensures forall k | 0 <= k < |links| && links[k].np.Some? :: at' == at
  {
    NoneInClass(t, chains, i);
    if exists k :: 0 <= k < |links| && links[k].np.Some? {
      at' := at;
    } else {
      at' := Spot(Alone(0), 0);
    }
  }

  lemma CommitDeclarationFollows(t: Table, chains: seq<seq<Link>>, i: nat, t1: Table, links: seq<Link>, comno: int,
                                 c0: int,
                                 sol: seq<Spot>, at: Spot, k: nat)
    requires Between(t, chains, i) && i < |chains| && Opened(t1, i, links)
    requires t1 == t.(classes := t.classes[i := t1.classes[i]])
    requires Follows(t.names, sol) && Roomy(t, sol) && SolvesOne(sol, links, at)
    requires k < |links| && links[k].np.Some?
    requires var x := t.names[links[k].np.value];
             x.vstg.STGCOMMON? && x.varno == comno && x.voffset + links[k].off == c0
    ensures 0 <= comno < |t.ext|
    ensures var t' := EqvCommon(t1, i, comno, c0);
            t'.nerr == t1.nerr && Follows(t'.names, sol) && Roomy(t', sol)
  {
    AnchoredInBlock(t, links, comno, c0, sol, at, k);
    var at' := OpenedFollows(t, chains, i, t1, links, sol, at);
    OpenedSpanned(t, chains, i, t1, links);
    EqvCommonIs(t1, i, links, comno, c0);
    StartCommitting(t, chains, i, t1, links, comno, c0);
    var t2 := Extended(t1, i, comno, c0);
    var t3 := CommonLinks(t2, i, links, comno, c0);
    LinksFollow(t2, chains, i, links, comno, c0, sol);
  }

  /** A COMMON item says where the declaration stands. */
  lemma AnchoredInBlock(t: Table, links: seq<Link>, comno: int, c0: int, sol: seq<Spot>, at: Spot, k: nat)
    requires Spanned(t) && Follows(t.names, sol) && SolvesOne(sol, links, at)
    requires k < |links| && links[k].np.Some? && links[k].np.value < |t.names|
    requires var x := t.names[links[k].np.value];
             x.vstg.STGCOMMON? && x.varno == comno && x.voffset + links[k].off == c0
    ensures 0 <= comno < |t.ext| && at == Spot(Block(comno), c0)
  {
    assert SpannedName(t, t.names[links[k].np.value]);
    assert Sits(sol, links[k], at);
  }

  lemma LinksFollow(t2: Table, chains: seq<seq<Link>>, i: nat, links: seq<Link>, comno: int, c0: int, sol: seq<Spot>)
    requires Committing(t2, chains, i, [], links, comno, c0)
    requires Follows(t2.names, sol) && Roomy(t2, sol) && Anchored(sol, links, Spot(Block(comno), c0))
    ensures var t3 := CommonLinks(t2, i, links, comno, c0);
            t3.nerr == t2.nerr && Follows(t3.names, sol) && Roomy(t3.(classes := t3.classes[i := Class([], 0, 0)]), sol)
  {
    CommitAllFollows(t2, chains, i, [], links, comno, c0, sol);
    var t3 := CommonLinks(t2, i, links, comno, c0);
    var chains' := CommitAll(t2, t2, chains, i, [], links, comno, c0, t3);
    NoneLeft(t3, chains', i, [] + links, comno, c0);
  }

  // ----- what the final tables say -----

  /** The assignment the tables describe. */
  function Described(names: seq<Name>): (sol: seq<Spot>)
    ensures |sol| == |names|
    ensures forall n | 0 <= n < |names| :: sol[n] == DescribedName(names[n])
  {
    seq(|names|, n requires 0 <= n < |names| => DescribedName(names[n]))
  }

  function DescribedName(x: Name): Spot {
    Spot(if x.vstg.STGCOMMON? then Block(x.varno) else Alone(x.varno), x.voffset)
  }

  /** A declaration that has been met is solved by the assignment the tables describe. */
  lemma MetSolves(t: Table, links: seq<Link>) returns (at: Spot)
    requires Met(t, links) && Spanned(t)
    ensures SolvesOne(Described(t.names), links, at)
  {
    if k :| 0 <= k < |links| && links[k].np.Some? {
      var x := t.names[links[k].np.value];
      at := Spot(DescribedName(x).space, x.voffset + links[k].off);
      forall j | 0 <= j < |links| && links[j].np.Some?
        ensures Sits(Described(t.names), links[j], at)
        ensures at.space.Block? ==> at.pos >= 0 && at.pos - links[j].off >= 0
      {
        var y := t.names[links[j].np.value];
        assert Together(x, y);
        assert SpannedName(t, y) && SpannedName(t, x);
      }
    } else {
      at := Spot(Alone(0), 0);
    }
  }

  // ----- doequiv's last loop -----

  /** A name of a live class, counted from the bottom of the class. */
  function Adjusted(x: Name, classes: seq<Class>, i: int): Name {
    if x.vstg.STGEQUIV? && 0 <= x.varno < |classes| && x.varno < i
       && (classes[x.varno].bottom != 0 || classes[x.varno].top != 0) then
      x.(veqvadjust := true, voffset := x.voffset - classes[x.varno].bottom)
    else x
  }

  /** Counting from the bottom keeps items together. */
  lemma AdjustedAgree(names: seq<Name>, names': seq<Name>, classes: seq<Class>, links: seq<Link>)
    requires Agree(names, links) && |names'| == |names|
    requires forall n | 0 <= n < |names| :: names'[n] == Adjusted(names[n], classes, |classes|)
    ensures Agree(names', links)
  {}
}
