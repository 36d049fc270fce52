// nextdata and dataval of src/data.c: the targets of a DATA statement one by one,
// and the constants paired with them.
module DataIter {
  import opened Options
  import opened DataVisits
  import opened DataSteps
  import opened Seqs

  /** The errors reported up to the next target, that target, and the visits after it. */
  function Take(vs: seq<Visit>): (r: (seq<Complaint>, Option<Target>, seq<Visit>)) {
    if vs == [] then ([], None, [])
    else
      match vs[0]
      case Give(t) => ([], Some(t), vs[1..])
      case Complain(c) => var r := Take(vs[1..]); ([c] + r.0, r.1, r.2)
      case Turn => Take(vs[1..])
  }

  /** Taking gives the first target, if there is one, and leaves the others. */
  lemma {:induction false} TakeTargets(vs: seq<Visit>)
    ensures Take(vs).1.None? <==> Targets(vs) == []
    ensures Take(vs).1.Some? ==> Targets(vs) == [Take(vs).1.value] + Targets(Take(vs).2)
    ensures Take(vs).1.None? ==> Take(vs).2 == []
  {
    if vs != [] && !vs[0].Give? {
      TakeTargets(vs[1..]);
    }
  }

  lemma {:induction false} TakeAppend(a: seq<Visit>, b: seq<Visit>)
    ensures var t, r := Take(a), Take(b);
            Take(a + b) == if t.1.Some? then (t.0, t.1, t.2 + b) else (t.0 + r.0, r.1, r.2)
  {
    if a == [] {
      assert a + b == b && [] + Take(b).0 == Take(b).0;
    } else {
      TakeAppend(a[1..], b);
      assert (a + b)[1..] == a[1..] + b;
      if a[0].Complain? {
        var t, r, c := Take(a[1..]), Take(b), a[0].c;
        assert [c] + (t.0 + r.0) == ([c] + t.0) + r.0;
      }
    }
  }

  lemma TakeSingles()
    ensures Take([Turn]) == ([], None, [])
    ensures Take([Complain(NonconstantDo)]) == ([NonconstantDo], None, [])
  {
    assert [Turn][1..] == [] && [Complain(NonconstantDo)][1..] == [];
    assert [NonconstantDo] + [] == [NonconstantDo];
  }

  lemma TakeTurned(z: Place)
    requires (z.items != [] || z.ctx != []) && (z.items == [] || z.items[0].Do? ==> z.elt == 0)
    ensures var t, r := Take(Turned(z).1), Take(Rest(Turned(z).0));
            Take(Rest(z)) == if t.1.Some? then (t.0, t.1, t.2 + Rest(Turned(z).0)) else (t.0 + r.0, r.1, r.2)
    ensures |Rest(Turned(z).0)| < |Rest(z)|
  {
    TurnedRest(z);
    TakeAppend(Turned(z).1, Rest(Turned(z).0));
  }

  /** A constant of the value list: its repetition count, if one is written (None within if it is
      not an integer constant), and its value, if it is a constant. */
  datatype Value<V> = Value(repp: Option<Option<int>>, valp: Option<V>)

  predicate BadCount<V>(v: Value<V>) {
    v.repp.Some? && (v.repp.value.None? || v.repp.value.value < 0)
  }

  function Nrep<V>(v: Value<V>): int
    requires !BadCount(v)
  {
    if v.repp.None? then 1 else v.repp.value.value
  }

  function Copies<V>(x: V, n: int): seq<V> { if n <= 0 then [] else [x] + Copies(x, n - 1) }

  lemma {:induction false} CopiesLength<V>(x: V, n: int)
    ensures |Copies(x, n)| == if n <= 0 then 0 else n
  {
    if n > 0 {
      CopiesLength(x, n - 1);
    }
  }

  /** The constants an entry of a value list stands for: one, or as many as the count says; none if the
      entry is in error. */
  function ConstantsOf<V>(v: Value<V>): seq<V> {
    match v
    case Value(None, Some(x)) => [x]
    case Value(Some(Some(n)), Some(x)) => if n < 0 then [] else Copies(x, n)
    case _ => []
  }

  /** What dataval reports. */
  datatype Mistake = InvalidCount | NotConstant

  /** The count is looked at first; it may be zero. */
  function MistakesOf<V>(v: Value<V>): seq<Mistake> {
    match v
    case Value(Some(None), _) => [InvalidCount]
    case Value(Some(Some(n)), valp) => if n < 0 then [InvalidCount] else if valp.None? then [NotConstant] else []
    case Value(None, valp) => if valp.None? then [NotConstant] else []
  }

  function Mistakes<V>(vals: seq<Value<V>>): seq<Mistake> {
    if vals == [] then [] else Mistakes(vals[..|vals| - 1]) + MistakesOf(vals[|vals| - 1])
  }

  /** What dataval gives for it. */
  lemma CopiesGiven<V>(v: Value<V>)
    ensures ConstantsOf(v) == if BadCount(v) || v.valp.None? then [] else Copies(v.valp.value, Nrep(v))
  {
    if v.repp.None? && v.valp.Some? {
      var x := v.valp.value;
      assert Copies(x, 1) == [x] + Copies(x, 0);
    }
  }

  function Constants<V>(vals: seq<Value<V>>): seq<V> {
    if vals == [] then [] else ConstantsOf(vals[0]) + Constants(vals[1..])
  }

  lemma ConstantsNext<V>(vals: seq<Value<V>>, i: nat, given: seq<V>)
    requires i < |vals|
    ensures given + Constants(vals[i..]) == (given + ConstantsOf(vals[i])) + Constants(vals[i + 1..])
  {
    assert vals[i..][1..] == vals[i + 1..];
  }

  lemma MistakesNext<V>(vals: seq<Value<V>>, i: nat)
    requires i < |vals|
    ensures Mistakes(vals[..i + 1]) == Mistakes(vals[..i]) + MistakesOf(vals[i])
  {
    assert vals[..i + 1][..i] == vals[..i];
  }

  /** Targets with constants, as far as both go. */
  function Pairs<V>(ts: seq<Target>, cs: seq<V>): seq<(Target, V)> {
    if ts == [] || cs == [] then [] else [(ts[0], cs[0])] + Pairs(ts[1..], cs[1..])
  }

  /** The k-th constant goes to the k-th target. */
  lemma {:induction false} PairsAt<V>(ts: seq<Target>, cs: seq<V>, k: nat)
    requires k < |ts| && k < |cs|
    ensures k < |Pairs(ts, cs)| && Pairs(ts, cs)[k] == (ts[k], cs[k])
    ensures |Pairs(ts, cs)| == if |ts| < |cs| then |ts| else |cs|
  {
    if k == 0 {
      PairsLength(ts, cs);
    } else {
      PairsAt(ts[1..], cs[1..], k - 1);
    }
  }

  lemma {:induction false} PairsLength<V>(ts: seq<Target>, cs: seq<V>)
    ensures |Pairs(ts, cs)| == if |ts| < |cs| then |ts| else |cs|
  {
    if ts != [] && cs != [] {
      PairsLength(ts[1..], cs[1..]);
    }
  }

  lemma {:induction false} PairsAppend<V>(ts: seq<Target>, a: seq<V>, b: seq<V>)
    ensures |a| <= |ts| ==> Pairs(ts, a + b) == Pairs(ts, a) + Pairs(ts[|a|..], b)
    ensures |a| > |ts| ==> Pairs(ts, a + b) == Pairs(ts, a)
  {
    if a == [] {
      assert a + b == b && ts[|a|..] == ts;
    } else if ts != [] {
      PairsAppend(ts[1..], a[1..], b);
      assert (a + b)[1..] == a[1..] + b;
      if |a| <= |ts| {
        assert ts[|a|..] == ts[1..][|a| - 1..];
        var first := [(ts[0], a[0])];
        assert first + (Pairs(ts[1..], a[1..]) + Pairs(ts[|a|..], b)) ==
                 (first + Pairs(ts[1..], a[1..])) + Pairs(ts[|a|..], b);
      }
    }
  }

  /** The pairs made, toomanyinit, and the targets still to come. */
  datatype Feed<V> = Feed(pairs: seq<(Target, V)>, toomanyinit: bool, left: seq<Target>)

  /** The constants cs have been paired with the targets of f. */
  ghost predicate Gave<V>(f: Feed<V>, cs: seq<V>, f': Feed<V>) {
    if f.toomanyinit then f' == f
    else
      && f'.pairs == f.pairs + Pairs(f.left, cs) && (f'.toomanyinit <==> |f.left| < |cs|)
      && f'.left == if f'.toomanyinit then [] else f.left[|cs|..]
  }

  /** i of n copies of a constant have been paired. */
  ghost predicate Giving<V>(f0: Feed<V>, valp: V, n: int, i: int, f: Feed<V>) {
    && 0 <= i <= n && i <= |f0.left| && !f0.toomanyinit && !f.toomanyinit && f.left == f0.left[i..]
    && f.pairs + Pairs(f.left, Copies(valp, n - i)) == f0.pairs + Pairs(f0.left, Copies(valp, n))
  }

  lemma GivingStep<V>(f0: Feed<V>, valp: V, n: int, i: int, f: Feed<V>, t: Target)
    requires Giving(f0, valp, n, i, f) && i < n && f.left != [] && f.left[0] == t
    ensures Giving(f0, valp, n, i + 1, Feed(f.pairs + [(t, valp)], false, f.left[1..]))
  {
    var cs, rest := Copies(valp, n - i), Copies(valp, n - i - 1);
    assert cs[1..] == rest && f.left[1..] == f0.left[i + 1..];
    assert Pairs(f.left, cs) == [(t, valp)] + Pairs(f.left[1..], rest);
    AppendAssoc(f.pairs, [(t, valp)], Pairs(f.left[1..], rest));
  }

  lemma GivingEnds<V>(f0: Feed<V>, valp: V, n: int, f: Feed<V>)
    requires Giving(f0, valp, n, n, f)
    ensures Gave(f0, Copies(valp, n), f)
  {
    CopiesLength(valp, n);
    assert Pairs(f.left, Copies(valp, 0)) == [];
  }

  lemma GivingStarves<V>(f0: Feed<V>, valp: V, n: int, i: int, f: Feed<V>)
    requires Giving(f0, valp, n, i, f) && i < n && f.left == []
    ensures Gave(f0, Copies(valp, n), Feed(f.pairs, true, []))
  {
    CopiesLength(valp, n);
    assert Pairs(f.left, Copies(valp, n - i)) == [];
  }

  /** The constants given have been paired with the targets ts. */
  ghost predicate Fed<V>(ts: seq<Target>, given: seq<V>, f: Feed<V>) {
    && f.pairs == Pairs(ts, given) && (f.toomanyinit <==> |given| > |ts|)
    && f.left == if f.toomanyinit then [] else ts[|given|..]
  }

  lemma FedMore<V>(ts: seq<Target>, given: seq<V>, more: seq<V>, f: Feed<V>, f': Feed<V>)
    requires Fed(ts, given, f) && Gave(f, more, f')
    ensures Fed(ts, given + more, f')
  {
    PairsAppend(ts, given, more);
  }

  class Statement<V> {
    const nodes: seq<Node>
    var curdtp: Option<nat>
    var curdtelt: nat
    var dos: seq<Active>
    var rpllist: seq<nat>
    var errors: seq<Complaint>
    var toomanyinit: bool
    var pairs: seq<(Target, V)>
    var mistakes: seq<Mistake>
    ghost var place: Place

    ghost predicate Valid()
      reads this
    {
      Stands(nodes, Now(), place)
    }

    ghost function Given(): Feed<V>
      reads this
    {
      Feed(pairs, toomanyinit, Targets(Todo()))
    }

    function Now(): State
      reads this
    {
      State(curdtp, curdtelt, dos, rpllist)
    }

    /** What is left to visit. */
    ghost function Todo(): seq<Visit>
      reads this
    {
      Rest(place)
    }

    /** The variable list has been parsed: its chain is built and curdtp is at its start. */
    constructor (items: seq<Item>)
      ensures Valid() && Todo() == Visits(items, 0, []) && errors == [] && pairs == [] && !toomanyinit
      ensures mistakes == []
    {
      nodes := Weave(items, 0, None);
      curdtp, curdtelt := Head(items, 0, None), 0;
      dos := seq(Count(items), _ => Active(false, 0, 0, 0));
      rpllist, errors, toomanyinit, pairs, mistakes := [], [], false, [], [];
      place := Place(items, 0, 0, []);
      new;
      assert nodes[0..0 + Count(items)] == Weave(items, 0, None);
      WeaveWoven(nodes, 0, items, None);
    }

    /** The bounds of an implied DO that is not active are evaluated; if all are constant it is
        made active. */
    method Activated(n: nat) returns (ok: bool)
      requires n < |dos| == |nodes| && Listed(nodes, dos, rpllist) && nodes[n].datap.TIMPLDO? && !dos[n].isactive
      modifies this`dos, this`rpllist
      ensures |dos| == |old(dos)| && dos == old(dos)[n := dos[n]]
      ensures var a := Activate(nodes[n].datap.ip, Replacements(nodes, old(dos), old(rpllist)));
              if a.Some? then
                && ok && dos[n] == Active(true, a.value.lb, a.value.lim, a.value.diff)
                && rpllist == [n] + old(rpllist)
              else !ok && !dos[n].isactive && rpllist == old(rpllist)
    {
      var ip, env := nodes[n].datap.ip, Replacements(nodes, dos, rpllist);
      var lb := ip.implb(env);
      if lb.None? {
        return false;
      }
      dos := dos[n := dos[n].(varvp := lb.value)];
      var impdiff := 1;
      if ip.impstep.Some? {
        var step := ip.impstep.value(env);
        if step.None? {
          return false;
        }
        impdiff := step.value;
      }
      dos := dos[n := dos[n].(impdiff := impdiff)];
      var ub := ip.impub(env);
      if ub.None? {
        return false;
      }
      dos := dos[n := dos[n].(implim := ub.value, isactive := true)];
      rpllist := [n] + rpllist;
      ok := true;
    }

    /** The current chain entry is an implied DO. */
    method TurnDo(n: nat)
      requires Valid() && curdtp == Some(n) && n < |nodes| && nodes[n].datap.TIMPLDO?
      requires place.items != [] ==> place.items[0].Do?
      modifies this`curdtp, this`curdtelt, this`dos, this`rpllist, this`errors, this`place
      ensures Valid() && place == Turned(old(place)).0
      ensures var vs := Turned(old(place)).1;
              if vs == [Turn] then errors == old(errors)
                else vs == [Complain(NonconstantDo)] && errors == old(errors) + [NonconstantDo]
    {
      ghost var s, z := Now(), place;
      ActiveHere(nodes, s, z, n);
      NestedReplaces(nodes, dos, rpllist, place.ctx);
      if dos[n].isactive {
        dos := dos[n := dos[n].(varvp := dos[n].varvp + dos[n].impdiff)];
      } else {
        var ok := Activated(n);
        if !ok {
          PassStands(nodes, s, z, dos[n]);
          errors := errors + [NonconstantDo];
          curdtp, curdtelt, place := nodes[n].nextp, 0, Turned(place).0;
          return;
        }
      }
      if Runs(dos[n].varvp, dos[n].implim, dos[n].impdiff) {
        curdtp := Some(nodes[n].datap.datalist);
        if z.items == [] {
          AgainStands(nodes, s, z, n);
        } else {
          EnterStands(nodes, s, z, Activate(z.items[0].ip, EnvOf(z.ctx)).value);
        }
      } else {
        rpllist := rpllist[1..];
        dos := dos[n := dos[n].(isactive := false)];
        curdtp := nodes[n].nextp;
        assert dos == s.dos[n := dos[n]];
        if z.items == [] {
          LeaveStands(nodes, s, z, n, dos[n]);
        } else {
          assert rpllist == s.rpllist;
          PassStands(nodes, s, z, dos[n]);
        }
      }
      curdtelt, place := 0, Turned(place).0;
    }

    /** The current chain entry is a primary: None if an error keeps it from being returned. */
    method VisitPrim(n: nat) returns (q: Option<Target>)
      requires Valid() && curdtp == Some(n) && n < |nodes| && nodes[n].datap.TPRIM?
      requires place.items != [] && place.items[0].Var?
      modifies this`curdtp, this`curdtelt, this`errors, this`place
      ensures Valid() && place == Turned(old(place)).0
      ensures var vs := Turned(old(place)).1;
              Take(vs).1 == q && errors == old(errors) + Take(vs).0 && Take(vs).2 == []
    {
      var p := nodes[n].datap.p;
      ghost var s, z := Now(), place;
      PrimaryStands(nodes, s, z);
      NestedReplaces(nodes, dos, rpllist, place.ctx);
      var env := Replacements(nodes, dos, rpllist);
      var skip := true;
      var at, len := 0, None;
      match p {
        case Whole(np, nelt, elen) =>
          at, len := curdtelt, elen;
          if nelt.Some? {
            curdtelt := curdtelt + 1;
            if curdtelt < nelt.value {
              skip := false;
            }
          } else {
            errors := errors + [AdjustableArray];
          }
        case Lhs(np, memoffset, vleng) =>
          at, len := memoffset(env), vleng(env);
      }
      if skip {
        curdtp, curdtelt := nodes[n].nextp, 0;
      }
      place := Turned(place).0;
      if p.Whole? && p.nelt.None? {
        TakeAppend([Complain(AdjustableArray)],
                   [if len.None? then Complain(NonconstantLength) else Give(Target(p.np, at, len.value))]);
      }
      if len.None? {
        errors := errors + [NonconstantLength];
        return None;
      }
      q := Some(Target(p.np, at, len.value));
    }

    /** nextdata. */
    method Nextdata() returns (q: Option<Target>)
      requires Valid()
      modifies this`curdtp, this`curdtelt, this`dos, this`rpllist, this`errors, this`place
      ensures Valid()
      ensures var t := Take(old(Todo())); q == t.1 && errors == old(errors) + t.0 && Todo() == t.2
    {
      ghost var t0 := Take(Todo());
      while curdtp.Some?
        invariant Valid()
        invariant var t := Take(Todo()); old(errors) + t0.0 == errors + t.0 && t0.1 == t.1 && t0.2 == t.2
        decreases |Todo()|
      {
        q := Visit1(curdtp.value);
        if q.Some? {
          return;
        }
      }
      AtEnd(nodes, Now(), place);
      q := None;
    }

    /** One round of its loop. */
    method Visit1(n: nat) returns (q: Option<Target>)
      requires Valid() && curdtp == Some(n)
      modifies this`curdtp, this`curdtelt, this`dos, this`rpllist, this`errors, this`place
      ensures Valid() && |Todo()| < |old(Todo())|
      ensures var t0, t := Take(old(Todo())), Take(Todo());
              if q.Some? then q == t0.1 && errors == old(errors) + t0.0 && Todo() == t0.2
              else old(errors) + t0.0 == errors + t.0 && t0.1 == t.1 && t0.2 == t.2
    {
      ghost var z, e0 := place, errors;
      Located(nodes, Now(), z, n);
      if nodes[n].datap.TIMPLDO? {
        TurnDo(n);
        TakeSingles();
        q := None;
      } else {
        q := VisitPrim(n);
      }
      ghost var t := Take(Turned(z).1);
      assert t.1 == q && errors == e0 + t.0 && t.2 == [];
      TakeTurned(z);
      AppendAssoc(e0, t.0, Take(Todo()).0);
      assert [] + Todo() == Todo();
    }

    /** dataval, once the statement is known to be in place. */
    method Dataval(v: Value<V>)
      requires Valid()
      modifies this
      ensures Valid() && Gave(old(Given()), ConstantsOf(v), Given())
      ensures mistakes == old(mistakes) + MistakesOf(v)
    {
      CopiesGiven(v);
      if BadCount(v) {
        mistakes := mistakes + [InvalidCount];
        return;
      }
      var nrep := Nrep(v);
      if v.valp.None? {
        mistakes := mistakes + [NotConstant];
        return;
      }
      if toomanyinit {
        return;
      }
      GiveCopies(v.valp.value, nrep);
    }

    /** dataval's loop. */
    method GiveCopies(valp: V, nrep: int)
      requires Valid() && !toomanyinit && nrep >= 0
      modifies this`curdtp, this`curdtelt, this`dos, this`rpllist, this`errors, this`place, this`pairs, this`toomanyinit
      ensures Valid() && Gave(old(Given()), Copies(valp, nrep), Given())
    {
      ghost var f0 := Given();
      var i := 0;
      while i < nrep
        invariant Valid() && 0 <= i <= nrep && Giving(f0, valp, nrep, i, Given())
      {
        ghost var f := Given();
        var more := GiveOne(valp);
        if !more {
          GivingStarves(f0, valp, nrep, i, f);
          return;
        }
        GivingStep(f0, valp, nrep, i, f, f.left[0]);
        i := i + 1;
      }
      GivingEnds(f0, valp, nrep, Given());
    }

    /** One copy goes to the next target, if there is one. */
    method GiveOne(valp: V) returns (more: bool)
      requires Valid() && !toomanyinit
      modifies this`curdtp, this`curdtelt, this`dos, this`rpllist, this`errors, this`place, this`pairs, this`toomanyinit
      ensures Valid() && more == (old(Given()).left != [])
      ensures var f := old(Given());
              Given() == if more then Feed(f.pairs + [(f.left[0], valp)], false, f.left[1..])
                else Feed(f.pairs, true, [])
    {
      TakeTargets(Todo());
      var p := Nextdata();
      more := p.Some?;
      if more {
        pairs := pairs + [(p.value, valp)];
      } else {
        toomanyinit := true;
      }
    }

    /** The value list of a DATA statement, and the check at its closing slash. */
    method Initialize(vals: seq<Value<V>>) returns (toofew: bool)
      requires Valid() && pairs == []
      modifies this
      ensures Valid()
      ensures var ts, cs := Targets(old(Todo())), Constants(vals);
              pairs == Pairs(ts, cs) && (toomanyinit <==> |cs| > |ts|) && (toofew <==> |cs| < |ts|)
      ensures mistakes == old(mistakes) + Mistakes(vals)
    {
      toomanyinit := false;
      ghost var ts := Targets(Todo());
      FeedAll(vals);
      TakeTargets(Todo());
      var q := Nextdata();
      toofew := q.Some?;
    }

    /** One value, after constants that have been given to the targets ts. */
    method FeedOne(v: Value<V>, ghost ts: seq<Target>, ghost given: seq<V>)
      requires Valid() && Fed(ts, given, Given())
      modifies this
      ensures Valid() && Fed(ts, given + ConstantsOf(v), Given())
      ensures mistakes == old(mistakes) + MistakesOf(v)
    {
      ghost var before := Given();
      Dataval(v);
      FedMore(ts, given, ConstantsOf(v), before, Given());
    }

    /** The values in order. */
    method FeedAll(vals: seq<Value<V>>)
      requires Valid() && pairs == [] && !toomanyinit
      modifies this
      ensures Valid() && Fed(Targets(old(Todo())), Constants(vals), Given())
      ensures mistakes == old(mistakes) + Mistakes(vals)
    {
      ghost var ts, was := Targets(Todo()), mistakes;
      ghost var given: seq<V> := [];
      var i := 0;
      assert was + Mistakes(vals[..0]) == was;
      while i < |vals|
        invariant Valid() && 0 <= i <= |vals|
        invariant given + Constants(vals[i..]) == Constants(vals) && Fed(ts, given, Given())
        invariant mistakes == was + Mistakes(vals[..i])
      {
        ConstantsNext(vals, i, given);
        MistakesNext(vals, i);
        AppendAssoc(was, Mistakes(vals[..i]), MistakesOf(vals[i]));
        FeedOne(vals[i], ts, given);
        given := given + ConstantsOf(vals[i]);
        i := i + 1;
      }
      assert given == Constants(vals) && vals[..i] == vals;
    }
  }
}
