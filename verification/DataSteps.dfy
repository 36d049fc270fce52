// One turn of nextdata's loop in src/data.c: where it stands in the nested list, and
// that the flags, bounds and pointers it keeps say the same.
module DataSteps {
  import opened Options
  import opened DataVisits
  import opened Seqs

  /** An implied DO being walked: its chain entry, its list, the items after it, and its variable. */
  datatype Ctx = Ctx(node: nat, ip: Impldo, datalist: seq<Item>, after: seq<Item>, val: int, lim: int, diff: int)

  /** A place in the list: the items still to come in the innermost list, which start at chain
      entry at, the elements done of the first one, and the implied DOs around them. */
  datatype Place = Place(items: seq<Item>, at: nat, elt: nat, ctx: seq<Ctx>)

  function EnvOf(ctx: seq<Ctx>): Env {
    if ctx == [] then [] else [(ctx[0].ip.varnp, ctx[0].val)] + EnvOf(ctx[1..])
  }

  /** What is left to visit when the innermost list is done. */
  function Up(ctx: seq<Ctx>): seq<Visit>
    decreases |ctx|
  {
    if ctx == [] then []
    else
      var c, env := ctx[0], EnvOf(ctx[1..]);
      [Turn] + Loop(c.ip.varnp, c.datalist, c.lim, c.diff, c.val + c.diff, env)
      + Visits(c.after, 0, env) + Up(ctx[1..])
  }

  /** What is left to visit. */
  function Rest(z: Place): seq<Visit> { Visits(z.items, z.elt, EnvOf(z.ctx)) + Up(z.ctx) }

  // ----- one turn -----

  /** The place after one turn, and the visits that turn makes. */
  function Turned(z: Place): (r: (Place, seq<Visit>))
    requires z.items != [] || z.ctx != []
  {
    var env := EnvOf(z.ctx);
    if z.items == [] then
      var c, outer := z.ctx[0], z.ctx[1..];
      var val := c.val + c.diff;
      (if Runs(val, c.lim, c.diff) then Place(c.datalist, c.node + 1, 0, [c.(val := val)] + outer)
       else Place(c.after, c.node + 1 + Count(c.datalist), 0, outer), [Turn])
    else
      match z.items[0]
      case Var(p) =>
        (if More(p, z.elt) then z.(elt := z.elt + 1) else Place(z.items[1..], z.at + 1, 0, z.ctx),
         VisitPrimary(p, z.elt, env))
      case Do(ip, datalist) =>
        var a := Activate(ip, env);
        var next := Place(z.items[1..], z.at + 1 + Count(datalist), 0, z.ctx);
        if a.None? then (next, [Complain(NonconstantDo)])
        else if Runs(a.value.lb, a.value.lim, a.value.diff) then
          (Place(datalist, z.at + 1, 0,
                 [Ctx(z.at, ip, datalist, z.items[1..], a.value.lb, a.value.lim, a.value.diff)] + z.ctx), [Turn])
        else (next, [Turn])
  }

  /** A turn makes the next visits there are. */
  lemma TurnedRest(z: Place)
    requires (z.items != [] || z.ctx != []) && (z.items == [] || z.items[0].Do? ==> z.elt == 0)
    ensures Rest(z) == Turned(z).1 + Rest(Turned(z).0)
  {
    if z.items == [] {
      assert Rest(z) == Up(z.ctx);
      UpTurned(z.ctx);
    } else if z.items[0].Do? {
      DoTurned(z);
    } else {
      VarTurned(z);
    }
  }

  lemma VarTurned(z: Place)
    requires z.items != [] && z.items[0].Var?
    ensures Rest(z) == Turned(z).1 + Rest(Turned(z).0)
  {
    var env, p := EnvOf(z.ctx), z.items[0].p;
    var more := if More(p, z.elt) then Visits(z.items, z.elt + 1, env) else Visits(z.items[1..], 0, env);
    assert Visits(z.items, z.elt, env) == VisitPrimary(p, z.elt, env) + more;
    AppendAssoc(VisitPrimary(p, z.elt, env), more, Up(z.ctx));
  }

  lemma Regroup(t: seq<Visit>, body: seq<Visit>, more: seq<Visit>, rest: seq<Visit>, up: seq<Visit>)
    ensures t + (body + t + more) + rest + up == t + (body + (t + more + rest + up))
  {}

  lemma RegroupNone(t: seq<Visit>, rest: seq<Visit>, up: seq<Visit>)
    ensures t + [] + rest + up == t + (rest + up) == t + rest + up
  {}

  lemma LoopRuns(v: nat, datalist: seq<Item>, lim: int, diff: int, val: int, env: Env)
    requires Runs(val, lim, diff)
    ensures Loop(v, datalist, lim, diff, val, env)
            == Visits(datalist, 0, [(v, val)] + env) + [Turn] + Loop(v, datalist, lim, diff, val + diff, env)
  {}

  /** The innermost implied DO is turned once more. */
  lemma UpRuns(c: Ctx, outer: seq<Ctx>)
    requires Runs(c.val + c.diff, c.lim, c.diff)
    ensures var inner := [c.(val := c.val + c.diff)] + outer;
            Up([c] + outer) == [Turn] + (Visits(c.datalist, 0, EnvOf(inner)) + Up(inner))
  {
    var val, env, v := c.val + c.diff, EnvOf(outer), c.ip.varnp;
    var loop := Loop(v, c.datalist, c.lim, c.diff, val, env);
    var body, more := Visits(c.datalist, 0, [(v, val)] + env), Loop(v, c.datalist, c.lim, c.diff, val + c.diff, env);
    var rest, up := Visits(c.after, 0, env), Up(outer);
    InnerRest(c, outer);
    InnerRest(c.(val := val), outer);
    assert loop == body + [Turn] + more by { LoopRuns(v, c.datalist, c.lim, c.diff, val, env); }
    Regroup([Turn], body, more, rest, up);
  }

  lemma UpEnds(c: Ctx, outer: seq<Ctx>)
    requires !Runs(c.val + c.diff, c.lim, c.diff)
    ensures Up([c] + outer) == [Turn] + (Visits(c.after, 0, EnvOf(outer)) + Up(outer))
  {
    InnerRest(c, outer);
    RegroupNone([Turn], Visits(c.after, 0, EnvOf(outer)), Up(outer));
  }

  lemma {:induction false} UpTurned(ctx: seq<Ctx>)
    requires ctx != []
    ensures Up(ctx) == [Turn] + Rest(Turned(Place([], 0, 0, ctx)).0)
  {
    var c, outer := ctx[0], ctx[1..];
    assert ctx == [c] + outer;
    if Runs(c.val + c.diff, c.lim, c.diff) {
      UpRuns(c, outer);
    } else {
      UpEnds(c, outer);
    }
  }

  lemma DoTurned(z: Place)
    requires z.items != [] && z.items[0].Do? && z.elt == 0
    ensures Rest(z) == Turned(z).1 + Rest(Turned(z).0)
  {
    var ip, datalist := z.items[0].ip, z.items[0].datalist;
    var env := EnvOf(z.ctx);
    var a, v := Activate(ip, env), ip.varnp;
    var rest, up := Visits(z.items[1..], 0, env), Up(z.ctx);
    if a.None? {
      assert Rest(z) == [Complain(NonconstantDo)] + rest + up;
      RegroupNone([Complain(NonconstantDo)], rest, up);
    } else {
      var lb, lim, diff := a.value.lb, a.value.lim, a.value.diff;
      if Runs(lb, lim, diff) {
        InnerRest(Ctx(z.at, ip, datalist, z.items[1..], lb, lim, diff), z.ctx);
        var body, more := Visits(datalist, 0, [(v, lb)] + env), Loop(v, datalist, lim, diff, lb + diff, env);
        var loop := Loop(v, datalist, lim, diff, lb, env);
        assert loop == body + [Turn] + more && Rest(z) == [Turn] + loop + rest + up;
        Regroup([Turn], body, more, rest, up);
      } else {
        var loop := Loop(v, datalist, lim, diff, lb, env);
        assert loop == [] && Rest(z) == [Turn] + loop + rest + up;
        RegroupNone([Turn], rest, up);
      }
    }
  }

  lemma InnerRest(c: Ctx, outer: seq<Ctx>)
    ensures EnvOf([c] + outer) == [(c.ip.varnp, c.val)] + EnvOf(outer)
    ensures Up([c] + outer) == [Turn] + Loop(c.ip.varnp, c.datalist, c.lim, c.diff, c.val + c.diff, EnvOf(outer))
                               + Visits(c.after, 0, EnvOf(outer)) + Up(outer)
  {
    assert ([c] + outer)[1..] == outer;
  }

  // ----- the variables of nextdata -----

  /** isactive, varvp, implim and impdiff of an implied DO. */
  datatype Active = Active(isactive: bool, varvp: int, implim: int, impdiff: int)

  /** curdtp, curdtelt, the implied DOs (by chain entry) and rpllist (entries, innermost first). */
  datatype State = State(curdtp: Option<nat>, curdtelt: nat, dos: seq<Active>, rpllist: seq<nat>)

  /** Where the list inside these implied DOs ends. */
  function End(ctx: seq<Ctx>): Option<nat> { if ctx == [] then None else Some(ctx[0].node) }

  /** The entries of the active implied DOs, each inside the next. */
  ghost predicate Nested(nodes: seq<Node>, dos: seq<Active>, rpllist: seq<nat>, ctx: seq<Ctx>)
    decreases |ctx|
  {
    if ctx == [] then rpllist == []
    else
      var c, n := ctx[0], ctx[0].node;
      && n < |nodes| && n < |dos| && rpllist != [] && rpllist[0] == n
      && dos[n] == Active(true, c.val, c.lim, c.diff)
      && Woven(nodes, n, [Do(c.ip, c.datalist)] + c.after, End(ctx[1..]))
      && (|ctx| > 1 ==> ctx[1].node < n)
      && Nested(nodes, dos, rpllist[1..], ctx[1..])
  }

  /** The variables stand for the place z. */
  ghost predicate Stands(nodes: seq<Node>, s: State, z: Place) {
    && |s.dos| == |nodes| && s.curdtelt == z.elt
    && s.curdtp == Head(z.items, z.at, End(z.ctx)) && Woven(nodes, z.at, z.items, End(z.ctx))
    && (z.items == [] || z.items[0].Do? ==> z.elt == 0)
    && (z.ctx != [] ==> z.ctx[0].node < z.at)
    && Nested(nodes, s.dos, s.rpllist, z.ctx)
    && (forall n | 0 <= n < |s.dos| :: s.dos[n].isactive <==> n in s.rpllist)
  }

  /** The entries of rpllist are implied DOs. */
  predicate Listed(nodes: seq<Node>, dos: seq<Active>, rpllist: seq<nat>) {
    forall k | 0 <= k < |rpllist| :: rpllist[k] < |nodes| && rpllist[k] < |dos| && nodes[rpllist[k]].datap.TIMPLDO?
  }

  /** What replaces implied-DO variables: the entries of rpllist. */
  function Replacements(nodes: seq<Node>, dos: seq<Active>, rpllist: seq<nat>): Env
    requires Listed(nodes, dos, rpllist)
  {
    if rpllist == [] then []
    else
      var n := rpllist[0];
      assert Listed(nodes, dos, rpllist[1..]);
      [(nodes[n].datap.ip.varnp, dos[n].varvp)] + Replacements(nodes, dos, rpllist[1..])
  }

  lemma {:induction false} NestedReplaces(nodes: seq<Node>, dos: seq<Active>, rpllist: seq<nat>, ctx: seq<Ctx>)
    requires Nested(nodes, dos, rpllist, ctx)
    ensures Listed(nodes, dos, rpllist) && Replacements(nodes, dos, rpllist) == EnvOf(ctx)
    ensures ctx != [] ==> forall k | 0 <= k < |rpllist| :: rpllist[k] <= ctx[0].node
    ensures forall k | 1 <= k < |rpllist| :: rpllist[k] < rpllist[0]
    decreases |ctx|
  {
    if ctx != [] {
      NestedReplaces(nodes, dos, rpllist[1..], ctx[1..]);
      assert forall k | 1 <= k < |rpllist| :: rpllist[k] == rpllist[1..][k - 1];
    }
  }

  /** Only the entries of active implied DOs count. */
  lemma {:induction false} NestedStays(nodes: seq<Node>, dos: seq<Active>, dos': seq<Active>, rpllist: seq<nat>,
                                       ctx: seq<Ctx>)
    requires Nested(nodes, dos, rpllist, ctx) && |dos'| == |dos|
    requires forall k | 0 <= k < |rpllist| :: rpllist[k] < |dos| ==> dos'[rpllist[k]] == dos[rpllist[k]]
    ensures Nested(nodes, dos', rpllist, ctx)
    decreases |ctx|
  {
    if ctx != [] {
      NestedStays(nodes, dos, dos', rpllist[1..], ctx[1..]);
    }
  }

  // ----- the turns keep step -----

  /** An implied DO is entered. */
  lemma EnterStands(nodes: seq<Node>, s: State, z: Place, a: Activation)
    requires Stands(nodes, s, z) && z.items != [] && z.items[0].Do?
    requires Activate(z.items[0].ip, EnvOf(z.ctx)) == Some(a) && Runs(a.lb, a.lim, a.diff)
    ensures z.at < |nodes| && nodes[z.at].datap.TIMPLDO? && s.curdtp == Some(z.at)
    ensures Stands(nodes, State(Some(nodes[z.at].datap.datalist), 0, s.dos[z.at := Active(true, a.lb, a.lim, a.diff)],
                                [z.at] + s.rpllist), Turned(z).0)
  {
    var item, z' := z.items[0], Turned(z).0;
    var dos, rpllist := s.dos[z.at := Active(true, a.lb, a.lim, a.diff)], [z.at] + s.rpllist;
    NestedReplaces(nodes, s.dos, s.rpllist, z.ctx);
    NestedStays(nodes, s.dos, dos, s.rpllist, z.ctx);
    assert rpllist[1..] == s.rpllist && z'.ctx[1..] == z.ctx;
    assert z.items == [Do(item.ip, item.datalist)] + z.items[1..];
    assert Nested(nodes, dos, rpllist, z'.ctx);
  }

  /** An implied DO that does not run, or whose bounds are not constant, is passed. */
  lemma PassStands(nodes: seq<Node>, s: State, z: Place, v: Active)
    requires Stands(nodes, s, z) && z.items != [] && z.items[0].Do? && !v.isactive
    requires var a := Activate(z.items[0].ip, EnvOf(z.ctx)); a.None? || !Runs(a.value.lb, a.value.lim, a.value.diff)
    ensures z.at < |nodes| && s.curdtp == Some(z.at)
    ensures Stands(nodes, State(nodes[z.at].nextp, 0, s.dos[z.at := v], s.rpllist), Turned(z).0)
  {
    NestedReplaces(nodes, s.dos, s.rpllist, z.ctx);
    NestedStays(nodes, s.dos, s.dos[z.at := v], s.rpllist, z.ctx);
  }

  /** An active implied DO runs once more. */
  lemma AgainStands(nodes: seq<Node>, s: State, z: Place, n: nat)
    requires Stands(nodes, s, z) && z.items == [] && s.curdtp == Some(n)
    requires var c := z.ctx[0]; Runs(c.val + c.diff, c.lim, c.diff)
    ensures n < |nodes| && nodes[n].datap.TIMPLDO?
    ensures Stands(nodes, State(Some(nodes[n].datap.datalist), 0,
                                s.dos[n := s.dos[n].(varvp := s.dos[n].varvp + s.dos[n].impdiff)], s.rpllist),
                                  Turned(z).0)
  {
    var c, outer := z.ctx[0], z.ctx[1..];
    var dos := s.dos[n := s.dos[n].(varvp := s.dos[n].varvp + s.dos[n].impdiff)];
    var z' := Turned(z).0;
    assert n == c.node && z'.ctx[1..] == outer && z'.ctx[0] == c.(val := c.val + c.diff);
    var list := [Do(c.ip, c.datalist)] + c.after;
    assert list[0] == Do(c.ip, c.datalist);
    NestedReplaces(nodes, s.dos, s.rpllist, z.ctx);
    NestedStays(nodes, s.dos, dos, s.rpllist[1..], outer);
    assert Nested(nodes, dos, s.rpllist, z'.ctx);
  }

  /** An active implied DO is left. */
  lemma LeaveStands(nodes: seq<Node>, s: State, z: Place, n: nat, v: Active)
    requires Stands(nodes, s, z) && z.items == [] && s.curdtp == Some(n) && !v.isactive
    requires var c := z.ctx[0]; !Runs(c.val + c.diff, c.lim, c.diff)
    ensures n < |nodes| && s.rpllist != [] && s.rpllist[0] == n
    ensures Stands(nodes, State(nodes[n].nextp, 0, s.dos[n := v], s.rpllist[1..]), Turned(z).0)
  {
    var c, outer := z.ctx[0], z.ctx[1..];
    var list := [Do(c.ip, c.datalist)] + c.after;
    assert list[0] == Do(c.ip, c.datalist) && list[1..] == c.after;
    NestedReplaces(nodes, s.dos, s.rpllist, z.ctx);
    NestedStays(nodes, s.dos, s.dos[n := v], s.rpllist[1..], outer);
  }

  /** A primary is visited. */
  lemma PrimaryStands(nodes: seq<Node>, s: State, z: Place)
    requires Stands(nodes, s, z) && z.items != [] && z.items[0].Var?
    ensures z.at < |nodes| && s.curdtp == Some(z.at) && nodes[z.at].datap == TPRIM(z.items[0].p)
    ensures Stands(nodes, if More(z.items[0].p, z.elt) then s.(curdtelt := s.curdtelt + 1)
                          else s.(curdtp := nodes[z.at].nextp, curdtelt := 0), Turned(z).0)
  {}

  /** Where curdtp leads. */
  lemma Located(nodes: seq<Node>, s: State, z: Place, n: nat)
    requires Stands(nodes, s, z) && s.curdtp == Some(n)
    ensures n < |nodes| && (z.items != [] || z.ctx != [])
    ensures z.items != [] ==> (z.items[0].Do? <==> nodes[n].datap.TIMPLDO?)
    ensures z.items == [] ==> nodes[n].datap.TIMPLDO? && z.elt == 0
  {
    if z.items == [] {
      var list := [Do(z.ctx[0].ip, z.ctx[0].datalist)] + z.ctx[0].after;
      assert list[0].Do?;
    }
  }

  /** An implied DO is active exactly when its list has just been done. */
  lemma ActiveHere(nodes: seq<Node>, s: State, z: Place, n: nat)
    requires Stands(nodes, s, z) && s.curdtp == Some(n) && (z.items != [] ==> z.items[0].Do?)
    ensures n < |s.dos| && (s.dos[n].isactive <==> z.items == [])
    ensures z.items != [] ==> n == z.at && nodes[n].datap.TIMPLDO? && nodes[n].datap.ip == z.items[0].ip
    ensures z.items == [] ==> s.dos[n] == Active(true, z.ctx[0].val, z.ctx[0].lim, z.ctx[0].diff) && n == z.ctx[0].node
  {
    NestedReplaces(nodes, s.dos, s.rpllist, z.ctx);
  }

  lemma AtEnd(nodes: seq<Node>, s: State, z: Place)
    requires Stands(nodes, s, z) && s.curdtp.None?
    ensures Rest(z) == []
  {}
}
