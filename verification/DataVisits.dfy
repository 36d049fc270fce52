// The variable list of a DATA statement: the nested list as a tree, what it stands
// for, and the circular chain of src/gram.dcl that nextdata walks.
module DataVisits {
  import opened Options
  import opened Powers
  import opened Seqs

  /** rpllist: the active implied-DO variables and their values, innermost first. */
  type Env = seq<(nat, int)>

  /** An expression: None if it is not an integer constant once implied-DO variables are replaced. */
  type Bound = Env -> Option<int>

  /** A primary: a whole array, with its constant number of elements if it has one, or anything
      else, which mklhs locates. The length of a datum is None if it is CHARACTER of
      nonconstant length. */
  datatype Primary =
    | Whole(np: nat, nelt: Option<int>, elen: Option<nat>)
    | Lhs(np: nat, memoffset: Env -> int, vleng: Env -> Option<nat>)

  /** implb, impub, impstep (None if absent) and varnp. */
  datatype Impldo = Impldo(varnp: nat, implb: Bound, impub: Bound, impstep: Option<Bound>)

  datatype Item = Var(p: Primary) | Do(ip: Impldo, datalist: seq<Item>)

  /** What nextdata returns: element at of the array np, or the place at in np. */
  datatype Target = Target(np: nat, at: int, elen: nat)

  datatype Complaint = NonconstantDo | AdjustableArray | NonconstantLength

  /** One thing nextdata does: it returns a target, reports an error, or turns an implied DO. */
  datatype Visit = Give(target: Target) | Complain(c: Complaint) | Turn

  // ----- what a list stands for -----

  /** Whether a whole array goes on after element elt. */
  predicate More(p: Primary, elt: nat) { p.Whole? && p.nelt.Some? && elt + 1 < p.nelt.value }

  function VisitPrimary(p: Primary, elt: nat, env: Env): (r: seq<Visit>)
    ensures r != []
  {
    match p
    case Whole(np, nelt, elen) =>
      (if nelt.None? then [Complain(AdjustableArray)] else []) +
      (if elen.None? then [Complain(NonconstantLength)] else [Give(Target(np, elt, elen.value))])
    case Lhs(np, memoffset, vleng) =>
      if vleng(env).None? then [Complain(NonconstantLength)] else [Give(Target(np, memoffset(env), vleng(env).value))]
  }

  /** The bounds and the step of an implied DO, as they are when it is entered. */
  datatype Activation = Activation(lb: int, lim: int, diff: int)

  function Activate(ip: Impldo, env: Env): Option<Activation> {
    var lb, ub := ip.implb(env), ip.impub(env);
    var diff := if ip.impstep.Some? then ip.impstep.value(env) else Some(1);
    if lb.None? || diff.None? || ub.None? then None else Some(Activation(lb.value, ub.value, diff.value))
  }

  predicate Runs(val: int, lim: int, diff: int) { (diff > 0 && val <= lim) || (diff < 0 && val >= lim) }

  function Left(val: int, lim: int, diff: int): nat {
    if !Runs(val, lim, diff) then 0 else if diff > 0 then lim - val + 1 else val - lim + 1
  }

  function Remaining(items: seq<Item>, elt: nat): nat {
    if items != [] && items[0].Var? && More(items[0].p, elt) then items[0].p.nelt.value - elt else 0
  }

  /** The visits of a list whose first item has got to element elt. */
  function Visits(items: seq<Item>, elt: nat, env: Env): seq<Visit>
    decreases items, 0, Remaining(items, elt)
  {
    if items == [] then []
    else
      match items[0]
      case Var(p) =>
        VisitPrimary(p, elt, env) + (if More(p, elt) then Visits(items, elt + 1, env) else Visits(items[1..], 0, env))
      case Do(ip, datalist) =>
        var a := Activate(ip, env);
        (if a.None? then [Complain(NonconstantDo)]
         else [Turn] + Loop(ip.varnp, datalist, a.value.lim, a.value.diff, a.value.lb, env))
        + Visits(items[1..], 0, env)
  }

  /** The visits of an implied DO whose variable has the value val. */
  function Loop(v: nat, datalist: seq<Item>, lim: int, diff: int, val: int, env: Env): seq<Visit>
    decreases datalist, 1, Left(val, lim, diff)
  {
    if Runs(val, lim, diff) then
      Visits(datalist, 0, [(v, val)] + env) + [Turn] + Loop(v, datalist, lim, diff, val + diff, env)
    else []
  }

  /** The targets among visits. */
  function Targets(vs: seq<Visit>): seq<Target> {
    if vs == [] then [] else if vs[0].Give? then [vs[0].target] + Targets(vs[1..]) else Targets(vs[1..])
  }

  lemma {:induction false} TargetsAppend(a: seq<Visit>, b: seq<Visit>)
    ensures Targets(a + b) == Targets(a) + Targets(b)
  {
    if a == [] {
      assert a + b == b;
    } else {
      TargetsAppend(a[1..], b);
      assert (a + b)[1..] == a[1..] + b;
    }
  }

  // ----- the rule of the standard -----

  /** The iteration count of section 11.10.3 of ANSI X3.9-1978; zero for a zero increment, which
      the standard does not allow. */
  function TripCount(lb: int, lim: int, diff: int): nat {
    if diff > 0 && lim >= lb then (lim - lb + diff) / diff
    else if diff < 0 && lim <= lb then (lb - lim - diff) / (-diff)
    else 0
  }

  /** The targets of trips k, k + 1, ... of an implied DO. */
  function Trips(v: nat, datalist: seq<Item>, lb: int, diff: int, k: nat, n: nat, env: Env): seq<Target>
    requires k <= n
    decreases n - k
  {
    if k == n then []
    else Targets(Visits(datalist, 0, [(v, lb + k * diff)] + env)) + Trips(v, datalist, lb, diff, k + 1, n, env)
  }

  lemma DivStep(a: int, d: int)
    requires d > 0 && a >= d
    ensures a / d == (a - d) / d + 1
  {
    var q, q' := a / d, (a - d) / d;
    assert a == q * d + a % d && a - d == q' * d + (a - d) % d;
    assert (q - q' - 1) * d == (a - d) % d - a % d;
    MulAtLeast(q - q' - 1, d);
  }

  lemma DivSmall(a: int, d: int)
    requires 0 <= a < d
    ensures a / d == 0
  {}

  lemma TripCountStep(lb: int, lim: int, diff: int)
    requires Runs(lb, lim, diff)
    ensures TripCount(lb, lim, diff) == TripCount(lb + diff, lim, diff) + 1
  {
    var a, d := if diff > 0 then lim - lb else lb - lim, if diff > 0 then diff else -diff;
    assert TripCount(lb, lim, diff) == (a + d) / d;
    DivStep(a + d, d);
    if a < d {
      DivSmall(a, d);
    } else {
      assert TripCount(lb + diff, lim, diff) == a / d;
    }
  }

  /** An implied DO gives its list once for each trip, with lb + k * diff for its variable. */
  lemma {:induction false} LoopTrips(v: nat, datalist: seq<Item>, lb: int, lim: int, diff: int, k: nat, n: nat,
                                     env: Env)
    requires n == k + TripCount(lb + k * diff, lim, diff)
    ensures Targets(Loop(v, datalist, lim, diff, lb + k * diff, env)) == Trips(v, datalist, lb, diff, k, n, env)
    decreases n - k
  {
    var val := lb + k * diff;
    if Runs(val, lim, diff) {
      TripCountStep(val, lim, diff);
      assert val + diff == lb + (k + 1) * diff;
      LoopTrips(v, datalist, lb, lim, diff, k + 1, n, env);
      var one, rest := Visits(datalist, 0, [(v, val)] + env), Loop(v, datalist, lim, diff, val + diff, env);
      TargetsAppend(one + [Turn], rest);
      TargetsAppend(one, [Turn]);
    }
  }

  /** Elements elt .. n - 1 of an array, in order. */
  function Elements(np: nat, len: nat, elt: nat, n: nat): seq<Target>
    decreases n - elt
  {
    if elt >= n then [] else [Target(np, elt, len)] + Elements(np, len, elt + 1, n)
  }

  /** A whole array of n elements gives each of them once, in order, and an array of no elements
      gives the first one. */
  lemma {:induction false} WholeArray(items: seq<Item>, np: nat, n: int, len: nat, elt: nat, env: Env)
    requires items != [] && items[0] == Var(Whole(np, Some(n), Some(len))) && (elt == 0 || elt < n)
    ensures Targets(Visits(items, elt, env))
            == Elements(np, len, elt, if n <= 0 then 1 else n) + Targets(Visits(items[1..], 0, env))
    decreases n - elt
  {
    var m := if n <= 0 then 1 else n;
    if elt + 1 < n {
      WholeArray(items, np, n, len, elt + 1, env);
      TargetsGive(Target(np, elt, len), Visits(items, elt + 1, env));
      AppendAssoc([Target(np, elt, len)], Elements(np, len, elt + 1, m), Targets(Visits(items[1..], 0, env)));
    } else {
      TargetsGive(Target(np, elt, len), Visits(items[1..], 0, env));
      assert Elements(np, len, elt, m) == [Target(np, elt, len)];
    }
    WholeElement(items, np, n, len, elt, env);
  }

  lemma WholeElement(items: seq<Item>, np: nat, n: int, len: nat, elt: nat, env: Env)
    requires items != [] && items[0] == Var(Whole(np, Some(n), Some(len))) && (elt == 0 || elt < n)
    ensures Visits(items, elt, env) ==
            [Give(Target(np, elt, len))] + if elt + 1 < n then Visits(items, elt + 1, env)
              else Visits(items[1..], 0, env)
  {}

  lemma TargetsGive(t: Target, more: seq<Visit>)
    ensures Targets([Give(t)] + more) == [t] + Targets(more)
  {
    assert ([Give(t)] + more)[1..] == more;
  }

  // ----- the chain -----

  datatype Datap = TPRIM(p: Primary) | TIMPLDO(ip: Impldo, datalist: nat)

  /** An entry of a chain: its datum and nextp. */
  datatype Node = Node(datap: Datap, nextp: Option<nat>)

  function Count(items: seq<Item>): nat {
    if items == [] then 0
    else (match items[0] case Var(_) => 1 case Do(_, datalist) => 1 + Count(datalist)) + Count(items[1..])
  }

  /** Where the chain of items that starts at at, and then goes to end, is entered. */
  function Head(items: seq<Item>, at: nat, end: Option<nat>): Option<nat> {
    if items == [] then end else Some(at)
  }

  /** The chain the grammar builds: the list of an implied DO leads back to the entry of the
      implied DO itself. */
  function Weave(items: seq<Item>, at: nat, end: Option<nat>): (r: seq<Node>)
    ensures |r| == Count(items)
  {
    if items == [] then []
    else
      match items[0]
      case Var(p) =>
        [Node(TPRIM(p), Head(items[1..], at + 1, end))] + Weave(items[1..], at + 1, end)
      case Do(ip, datalist) =>
        var after := at + 1 + Count(datalist);
        [Node(TIMPLDO(ip, Head(datalist, at + 1, Some(at)).value), Head(items[1..], after, end))]
        + Weave(datalist, at + 1, Some(at)) + Weave(items[1..], after, end)
  }

  /** nodes holds the chain of items from at on. */
  ghost predicate Woven(nodes: seq<Node>, at: nat, items: seq<Item>, end: Option<nat>)
    decreases items
  {
    items == [] ||
    (at < |nodes| &&
     match items[0]
     case Var(p) =>
       nodes[at] == Node(TPRIM(p), Head(items[1..], at + 1, end)) && Woven(nodes, at + 1, items[1..], end)
     case Do(ip, datalist) =>
       var after := at + 1 + Count(datalist);
       && nodes[at] == Node(TIMPLDO(ip, Head(datalist, at + 1, Some(at)).value), Head(items[1..], after, end))
       && Woven(nodes, at + 1, datalist, Some(at)) && Woven(nodes, after, items[1..], end))
  }

  lemma Slices<T>(s: seq<T>, at: nat, first: T, a: seq<T>, b: seq<T>)
    requires at + 1 + |a| + |b| <= |s| && s[at..at + 1 + |a| + |b|] == [first] + a + b
    ensures s[at + 1..at + 1 + |a|] == a
    ensures s[at + 1 + |a|..at + 1 + |a| + |b|] == b
  {
    var w := s[at..at + 1 + |a| + |b|];
    assert forall k | 0 <= k < |w| :: w[k] == s[at + k];
    assert w[1..1 + |a|] == a && w[1 + |a|..] == b;
  }

  lemma WeaveDo(nodes: seq<Node>, at: nat, items: seq<Item>, end: Option<nat>) returns (after: nat)
    requires items != [] && items[0].Do?
    requires at + Count(items) <= |nodes| && nodes[at..at + Count(items)] == Weave(items, at, end)
    ensures var datalist := items[0].datalist;
            && after == at + 1 + Count(datalist) && after + Count(items[1..]) == at + Count(items)
            && nodes[at] ==
                 Node(TIMPLDO(items[0].ip, Head(datalist, at + 1, Some(at)).value), Head(items[1..], after, end))
            && nodes[at + 1..after] == nodes[at + 1..at + 1 + Count(datalist)] == Weave(datalist, at + 1, Some(at))
            && nodes[after..after + Count(items[1..])] == Weave(items[1..], after, end)
  {
    var datalist := items[0].datalist;
    after := at + 1 + Count(items[0].datalist);
    assert nodes[at] == nodes[at..at + Count(items)][0];
    Slices(nodes, at, nodes[at], Weave(datalist, at + 1, Some(at)), Weave(items[1..], after, end));
  }

  lemma WeaveVar(nodes: seq<Node>, at: nat, items: seq<Item>, end: Option<nat>)
    requires items != [] && items[0].Var?
    requires at + Count(items) <= |nodes| && nodes[at..at + Count(items)] == Weave(items, at, end)
    ensures nodes[at] == Node(TPRIM(items[0].p), Head(items[1..], at + 1, end))
    ensures nodes[at + 1..at + 1 + Count(items[1..])] == Weave(items[1..], at + 1, end)
  {
    var w := nodes[at..at + Count(items)];
    assert nodes[at] == w[0] && nodes[at + 1..at + 1 + Count(items[1..])] == w[1..];
  }

  lemma {:induction false} WovenDo(nodes: seq<Node>, at: nat, items: seq<Item>, end: Option<nat>, after: nat)
    requires at < |nodes| && items != [] && items[0].Do? && after == at + 1 + Count(items[0].datalist)
    requires nodes[at].nextp == Head(items[1..], after, end)
    requires nodes[at].datap == TIMPLDO(items[0].ip, Head(items[0].datalist, at + 1, Some(at)).value)
    requires Woven(nodes, at + 1, items[0].datalist, Some(at)) && Woven(nodes, after, items[1..], end)
    ensures Woven(nodes, at, items, end)
  {}

  lemma {:induction false} WeaveWoven(nodes: seq<Node>, at: nat, items: seq<Item>, end: Option<nat>)
    requires at + Count(items) <= |nodes| && nodes[at..at + Count(items)] == Weave(items, at, end)
    ensures Woven(nodes, at, items, end)
    decreases items
  {
    if items == [] {
    } else if items[0].Var? {
      WeaveVar(nodes, at, items, end);
      WeaveWoven(nodes, at + 1, items[1..], end);
    } else {
      var after := WeaveDo(nodes, at, items, end);
      WeaveWoven(nodes, at + 1, items[0].datalist, Some(at));
      WeaveWoven(nodes, after, items[1..], end);
      WovenDo(nodes, at, items, end, after);
    }
  }
}
