// Array sections in column-major order: the addresses of a section, the same
// addresses as nested counted steps, and the odometer that walks them.
module Sections {
  import opened Seqs

  /** A dimension of a section: first + i * stride for i < extent. */
  datatype Triple = Triple(first: int, extent: int, stride: int)

  /** us holds the distances in bytes between neighbours along each dimension of an array with
      dimensions ds and elements of size bytes, and last the length of the array. */
  ghost predicate Units(us: seq<int>, ds: seq<int>, size: int) {
    && |us| == |ds| + 1 && us[0] == size
    && forall k | 0 < k < |us| :: us[k] == us[k - 1] * ds[k - 1]
  }

  /** Where subscript v of a dimension with unit u and lower bound lb leads. */
  function Subscripted(off: int, u: int, v: int, lb: int): int { off + u * (v - lb) }

  /** The addresses of the section ts of an array with these units and lower bounds, the first
      subscript varying fastest; only the first k dimensions, from off. */
  function Chosen(us: seq<int>, lbs: seq<int>, ts: seq<Triple>, k: nat, off: int): seq<int>
    requires k <= |lbs| == |ts| < |us|
    decreases k, 0, 0
  {
    if k == 0 then [off] else ChosenFrom(us, lbs, ts, k, off, 0)
  }

  function ChosenFrom(us: seq<int>, lbs: seq<int>, ts: seq<Triple>, k: nat, off: int, i: nat): seq<int>
    requires 0 < k <= |lbs| == |ts| < |us|
    decreases k - 1, 1, ts[k - 1].extent - i
  {
    var t := ts[k - 1];
    if i >= t.extent then []
    else
      Chosen(us, lbs, ts, k - 1, Subscripted(off, us[k - 1], t.first + i * t.stride, lbs[k - 1]))
      + ChosenFrom(us, lbs, ts, k, off, i + 1)
  }

  /** The extents and the steps in bytes of a section. */
  datatype Stepping = Stepping(extent: int, step: int)

  /** The addresses reached from at by counting through dimensions j .. k - 1, the first fastest. */
  function Enum(ss: seq<Stepping>, j: nat, k: nat, at: int): seq<int>
    requires j <= k <= |ss|
    decreases k, 0, 0
  {
    if k == j then [at] else EnumFrom(ss, j, k, at, 0)
  }

  function EnumFrom(ss: seq<Stepping>, j: nat, k: nat, at: int, i: nat): seq<int>
    requires j < k <= |ss|
    decreases k - 1, 1, ss[k - 1].extent - i
  {
    if i >= ss[k - 1].extent then []
    else Enum(ss, j, k - 1, at + i * ss[k - 1].step) + EnumFrom(ss, j, k, at, i + 1)
  }

  ghost predicate Steps(ss: seq<Stepping>, us: seq<int>, ts: seq<Triple>) {
    && |ss| == |ts| < |us|
    && forall k | 0 <= k < |ts| :: ss[k] == Stepping(ts[k].extent, us[k] * ts[k].stride)
  }

  /** The first element of a section, from the start of the array. */
  function Corner(us: seq<int>, lbs: seq<int>, ts: seq<Triple>, k: nat): int
    requires k <= |lbs| == |ts| < |us|
  {
    if k == 0 then 0 else Subscripted(Corner(us, lbs, ts, k - 1), us[k - 1], ts[k - 1].first, lbs[k - 1])
  }

  lemma StepArithmetic(off: int, c: int, u: int, first: int, i: int, stride: int, lb: int)
    ensures Subscripted(off, u, first + i * stride, lb) + c == off + Subscripted(c, u, first, lb) + i * (u * stride)
  {
    assert u * (first + i * stride - lb) == u * (first - lb) + u * (i * stride);
    assert u * (i * stride) == i * (u * stride);
  }

  /** A section is counted through in steps from its first element. */
  lemma {:induction false} ChosenIsEnum(us: seq<int>, lbs: seq<int>, ts: seq<Triple>, ss: seq<Stepping>, k: nat,
                                        off: int)
    requires k <= |lbs| == |ts| < |us| && Steps(ss, us, ts)
    ensures Chosen(us, lbs, ts, k, off) == Enum(ss, 0, k, off + Corner(us, lbs, ts, k))
    decreases k, 0, 0
  {
    if k != 0 {
      ChosenFromIsEnum(us, lbs, ts, ss, k, off, 0);
    }
  }

  lemma {:induction false} ChosenFromIsEnum(us: seq<int>, lbs: seq<int>, ts: seq<Triple>, ss: seq<Stepping>, k: nat,
                                            off: int, i: nat)
    requires 0 < k <= |lbs| == |ts| < |us| && Steps(ss, us, ts)
    ensures ChosenFrom(us, lbs, ts, k, off, i) == EnumFrom(ss, 0, k, off + Corner(us, lbs, ts, k), i)
    decreases k - 1, 1, ts[k - 1].extent - i
  {
    var t := ts[k - 1];
    if i < t.extent {
      StepArithmetic(off, Corner(us, lbs, ts, k - 1), us[k - 1], t.first, i, t.stride, lbs[k - 1]);
      ChosenIsEnum(us, lbs, ts, ss, k - 1, Subscripted(off, us[k - 1], t.first + i * t.stride, lbs[k - 1]));
      ChosenFromIsEnum(us, lbs, ts, ss, k, off, i + 1);
    }
  }

  // ----- blocks -----

  /** n elements of size bytes from p on. */
  function Run(p: int, size: int, n: int): seq<int>
    decreases n
  {
    if n <= 0 then [] else [p] + Run(p + size, size, n - 1)
  }

  function Runs(ps: seq<int>, size: int, n: int): seq<int> {
    if ps == [] then [] else Run(ps[0], size, n) + Runs(ps[1..], size, n)
  }

  lemma {:induction false} RunAppend(p: int, size: int, a: nat, b: nat)
    ensures Run(p, size, a) + Run(p + a * size, size, b) == Run(p, size, a + b)
    decreases a
  {
    if a == 0 {
      assert [] + Run(p, size, b) == Run(p, size, b);
    } else {
      RunAppend(p + size, size, a - 1, b);
      assert p + size + (a - 1) * size == p + a * size;
      AppendAssoc([p], Run(p + size, size, a - 1), Run(p + a * size, size, b));
    }
  }

  lemma {:induction false} RunsAppend(ps: seq<int>, qs: seq<int>, size: int, n: int)
    ensures Runs(ps + qs, size, n) == Runs(ps, size, n) + Runs(qs, size, n)
  {
    if ps == [] {
      assert ps + qs == qs && [] + Runs(qs, size, n) == Runs(qs, size, n);
    } else {
      RunsAppend(ps[1..], qs, size, n);
      AppendCons(ps, qs);
      AppendAssoc(Run(ps[0], size, n), Runs(ps[1..], size, n), Runs(qs, size, n));
    }
  }

  /** Counting through the first j dimensions is going through n adjacent elements. */
  ghost predicate Contiguous(ss: seq<Stepping>, j: nat, size: int, n: int)
    requires j <= |ss|
  {
    forall p: int {:trigger Run(p, size, n)} :: Enum(ss, 0, j, p) == Run(p, size, n)
  }

  lemma ContiguousAt(ss: seq<Stepping>, j: nat, size: int, n: int, p: int)
    requires j <= |ss| && Contiguous(ss, j, size, n)
    ensures Enum(ss, 0, j, p) == Run(p, size, n)
  {
    assert Run(p, size, n) == Run(p, size, n);
  }

  lemma NoneContiguous(ss: seq<Stepping>, size: int)
    ensures Contiguous(ss, 0, size, 1)
  {
    forall p: int
      ensures Enum(ss, 0, 0, p) == Run(p, size, 1)
    {
      assert Run(p + size, size, 0) == [];
    }
  }

  /** A dimension whose step is the length of the block before it makes the block longer. */
  lemma MoreContiguous(ss: seq<Stepping>, j: nat, size: int, n: nat)
    requires j < |ss| && Contiguous(ss, j, size, n) && ss[j].step == n * size && ss[j].extent >= 0
    ensures Contiguous(ss, j + 1, size, n * ss[j].extent)
  {
    forall p: int
      ensures Enum(ss, 0, j + 1, p) == Run(p, size, n * ss[j].extent)
    {
      MoreContiguousFrom(ss, j, size, n, p, 0);
    }
  }

  lemma {:induction false} MoreContiguousFrom(ss: seq<Stepping>, j: nat, size: int, n: nat, p: int, i: nat)
    requires j < |ss| && Contiguous(ss, j, size, n) && ss[j].step == n * size && i <= ss[j].extent
    ensures n * (ss[j].extent - i) >= 0
    ensures EnumFrom(ss, 0, j + 1, p, i) == Run(p + i * (n * size), size, n * (ss[j].extent - i))
    decreases ss[j].extent - i
  {
    var e, q := ss[j].extent, p + i * (n * size);
    if i < e {
      MoreContiguousFrom(ss, j, size, n, p, i + 1);
      ContiguousAt(ss, j, size, n, q);
      assert n * (e - i) == n + n * (e - (i + 1));
      assert p + (i + 1) * (n * size) == q + n * size;
      RunAppend(q, size, n, n * (e - (i + 1)));
    }
  }

  /** The whole enumeration is a block at each place the later dimensions reach. */
  lemma {:induction false} EnumSplits(ss: seq<Stepping>, j: nat, k: nat, at: int, size: int, n: int)
    requires j <= k <= |ss| && Contiguous(ss, j, size, n)
    ensures Enum(ss, 0, k, at) == Runs(Enum(ss, j, k, at), size, n)
    decreases k, 0, 0
  {
    if k == j {
      ContiguousAt(ss, j, size, n, at);
      assert Runs([at], size, n) == Run(at, size, n) + Runs([], size, n);
    } else {
      EnumFromSplits(ss, j, k, at, 0, size, n);
    }
  }

  lemma {:induction false} EnumFromSplits(ss: seq<Stepping>, j: nat, k: nat, at: int, i: nat, size: int, n: int)
    requires j < k <= |ss| && Contiguous(ss, j, size, n)
    ensures EnumFrom(ss, 0, k, at, i) == Runs(EnumFrom(ss, j, k, at, i), size, n)
    decreases k - 1, 1, ss[k - 1].extent - i
  {
    if i < ss[k - 1].extent {
      var here := at + i * ss[k - 1].step;
      EnumSplits(ss, j, k - 1, here, size, n);
      EnumFromSplits(ss, j, k, at, i + 1, size, n);
      RunsAppend(Enum(ss, j, k - 1, here), EnumFrom(ss, j, k, at, i + 1), size, n);
    }
  }

  // ----- the odometer -----

  /** Where the counters cs of dimensions j .. k - 1 stand, from at. */
  function Stand(ss: seq<Stepping>, cs: seq<int>, j: nat, k: nat, at: int): int
    requires j <= k <= |ss| == |cs|
  {
    if k == j then at else Stand(ss, cs, j, k - 1, at + cs[k - 1] * ss[k - 1].step)
  }

  /** The places still to come after that. */
  function After(ss: seq<Stepping>, cs: seq<int>, j: nat, k: nat, at: int): seq<int>
    requires j <= k <= |ss| == |cs| && forall l | j <= l < k :: cs[l] >= 0
  {
    if k == j then []
    else After(ss, cs, j, k - 1, at + cs[k - 1] * ss[k - 1].step) + EnumFrom(ss, j, k, at, cs[k - 1] + 1)
  }

  ghost predicate Counting(ss: seq<Stepping>, cs: seq<int>, j: nat, k: nat)
    requires k <= |ss| == |cs|
  {
    forall l | j <= l < k :: 0 <= cs[l] < ss[l].extent
  }

  lemma NoStep(at: int, step: int)
    ensures at + 0 * step == at
  {}

  /** With all counters at zero everything but the first place is still to come. */
  lemma {:induction false} AtStart(ss: seq<Stepping>, cs: seq<int>, j: nat, k: nat, at: int)
    requires j <= k <= |ss| == |cs| && Counting(ss, cs, j, k) && forall l | j <= l < k :: cs[l] == 0
    ensures Enum(ss, j, k, at) == [Stand(ss, cs, j, k, at)] + After(ss, cs, j, k, at)
    decreases k
  {
    if k != j {
      NoStep(at, ss[k - 1].step);
      AtStart(ss, cs, j, k - 1, at);
      assert EnumFrom(ss, j, k, at, 0) == Enum(ss, j, k - 1, at) + EnumFrom(ss, j, k, at, 1);
      AppendAssoc([Stand(ss, cs, j, k - 1, at)], After(ss, cs, j, k - 1, at), EnumFrom(ss, j, k, at, 1));
    }
  }

  /** With all counters at their ends nothing is. */
  lemma {:induction false} AtEnd(ss: seq<Stepping>, cs: seq<int>, j: nat, k: nat, at: int)
    requires j <= k <= |ss| == |cs| && Counting(ss, cs, j, k) && forall l | j <= l < k :: cs[l] == ss[l].extent - 1
    ensures After(ss, cs, j, k, at) == []
    decreases k
  {
    if k != j {
      AtEnd(ss, cs, j, k - 1, at + cs[k - 1] * ss[k - 1].step);
    }
  }

  /** Dimensions before m are at their ends, m is not: it is moved on and they start again. */
  ghost predicate Carries(ss: seq<Stepping>, cs: seq<int>, cs': seq<int>, j: nat, m: nat)
    requires m < |ss| == |cs| == |cs'| && j <= m
  {
    && (forall l | j <= l < m :: cs[l] == ss[l].extent - 1 && cs'[l] == 0)
    && cs'[m] == cs[m] + 1 < ss[m].extent
    && (forall l | m < l < |cs| :: cs'[l] == cs[l])
  }

  /** A carry leads to the next place. */
  lemma {:induction false} Carried(ss: seq<Stepping>, cs: seq<int>, cs': seq<int>, j: nat, m: nat, k: nat, at: int)
    requires m < k <= |ss| == |cs| == |cs'| && j <= m && Counting(ss, cs, j, k) && Carries(ss, cs, cs', j, m)
    ensures Counting(ss, cs', j, k)
    ensures After(ss, cs, j, k, at) == [Stand(ss, cs', j, k, at)] + After(ss, cs', j, k, at)
    decreases k
  {
    if k == m + 1 {
      CarriedHere(ss, cs, cs', j, m, at);
    } else {
      var next := at + cs[k - 1] * ss[k - 1].step;
      Carried(ss, cs, cs', j, m, k - 1, next);
      AppendAssoc([Stand(ss, cs', j, k - 1, next)], After(ss, cs', j, k - 1, next),
                  EnumFrom(ss, j, k, at, cs[k - 1] + 1));
    }
  }

  lemma CarriedHere(ss: seq<Stepping>, cs: seq<int>, cs': seq<int>, j: nat, m: nat, at: int)
    requires m < |ss| == |cs| == |cs'| && j <= m && Counting(ss, cs, j, m + 1) && Carries(ss, cs, cs', j, m)
    ensures Counting(ss, cs', j, m + 1)
    ensures After(ss, cs, j, m + 1, at) == [Stand(ss, cs', j, m + 1, at)] + After(ss, cs', j, m + 1, at)
  {
    var n := cs'[m];
    var next, more := at + n * ss[m].step, EnumFrom(ss, j, m + 1, at, n + 1);
    AtEnd(ss, cs, j, m, at + cs[m] * ss[m].step);
    assert After(ss, cs, j, m + 1, at) == EnumFrom(ss, j, m + 1, at, n);
    assert EnumFrom(ss, j, m + 1, at, n) == Enum(ss, j, m, next) + more;
    AtStart(ss, cs', j, m, next);
    AppendAssoc([Stand(ss, cs', j, m, next)], After(ss, cs', j, m, next), more);
  }

  /** How far dimensions j .. k - 1 reach. */
  function Reach(ss: seq<Stepping>, j: nat, k: nat): int
    requires j <= k <= |ss|
  {
    if k == j then 0 else Reach(ss, j, k - 1) + (ss[k - 1].extent - 1) * ss[k - 1].step
  }

  lemma {:induction false} StandShifts(ss: seq<Stepping>, cs: seq<int>, j: nat, k: nat, at: int, d: int)
    requires j <= k <= |ss| == |cs|
    ensures Stand(ss, cs, j, k, at + d) == Stand(ss, cs, j, k, at) + d
    decreases k
  {
    if k != j {
      StandShifts(ss, cs, j, k - 1, at + cs[k - 1] * ss[k - 1].step, d);
    }
  }

  lemma {:induction false} StandAtEnd(ss: seq<Stepping>, cs: seq<int>, j: nat, k: nat, at: int)
    requires j <= k <= |ss| == |cs| && forall l | j <= l < k :: cs[l] == ss[l].extent - 1
    ensures Stand(ss, cs, j, k, at) == at + Reach(ss, j, k)
    decreases k
  {
    if k != j {
      StandAtEnd(ss, cs, j, k - 1, at + cs[k - 1] * ss[k - 1].step);
    }
  }

  lemma {:induction false} StandAtStart(ss: seq<Stepping>, cs: seq<int>, j: nat, k: nat, at: int)
    requires j <= k <= |ss| == |cs| && forall l | j <= l < k :: cs[l] == 0
    ensures Stand(ss, cs, j, k, at) == at
    decreases k
  {
    if k != j {
      assert at + 0 * ss[k - 1].step == at;
      StandAtStart(ss, cs, j, k - 1, at);
    }
  }

  /** The adjusted step of dimension m takes the odometer over a carry into m. */
  lemma {:induction false} CarryStep(ss: seq<Stepping>, cs: seq<int>, cs': seq<int>, j: nat, m: nat, k: nat, at: int)
    requires m < k <= |ss| == |cs| == |cs'| && j <= m && Carries(ss, cs, cs', j, m)
    ensures Stand(ss, cs', j, k, at) == Stand(ss, cs, j, k, at) + ss[m].step - Reach(ss, j, m)
    decreases k
  {
    var step := ss[k - 1].step;
    if k == m + 1 {
      StandAtEnd(ss, cs, j, m, at + cs[m] * step);
      StandAtStart(ss, cs', j, m, at + cs'[m] * step);
      assert (cs[m] + 1) * step == cs[m] * step + step;
    } else {
      CarryStep(ss, cs, cs', j, m, k - 1, at + cs[k - 1] * step);
    }
  }

  /** The number of places dimensions j .. k - 1 reach. */
  function Places(ss: seq<Stepping>, j: nat, k: nat): int
    requires j <= k <= |ss|
  {
    if k == j then 1 else Places(ss, j, k - 1) * ss[k - 1].extent
  }

  lemma {:induction false} EnumLength(ss: seq<Stepping>, j: nat, k: nat, at: int)
    requires j <= k <= |ss| && forall l | j <= l < k :: ss[l].extent >= 0
    ensures |Enum(ss, j, k, at)| == Places(ss, j, k)
    decreases k, 0, 0
  {
    if k != j {
      EnumFromLength(ss, j, k, at, 0);
    }
  }

  lemma {:induction false} EnumFromLength(ss: seq<Stepping>, j: nat, k: nat, at: int, i: nat)
    requires j < k <= |ss| && i <= ss[k - 1].extent && forall l | j <= l < k :: ss[l].extent >= 0
    ensures |EnumFrom(ss, j, k, at, i)| == Places(ss, j, k - 1) * (ss[k - 1].extent - i)
    decreases k - 1, 1, ss[k - 1].extent - i
  {
    var p, e := Places(ss, j, k - 1), ss[k - 1].extent;
    if i < e {
      EnumLength(ss, j, k - 1, at + i * ss[k - 1].step);
      EnumFromLength(ss, j, k, at, i + 1);
      assert p * (e - i) == p + p * (e - (i + 1));
    }
  }

  lemma {:induction false} PlacesSplit(ss: seq<Stepping>, j: nat, k: nat)
    requires j <= k <= |ss|
    ensures Places(ss, 0, k) == Places(ss, 0, j) * Places(ss, j, k)
    decreases k
  {
    if k != j {
      PlacesSplit(ss, j, k - 1);
      assert Places(ss, 0, j) * Places(ss, j, k - 1) * ss[k - 1].extent
             == Places(ss, 0, j) * (Places(ss, j, k - 1) * ss[k - 1].extent);
    }
  }

  // ----- sections that lie in the array -----

  predicate Within(v: int, lb: int, d: int) { lb <= v < lb + d }

  /** The subscripts chosen lie in the dimension. */
  predicate InDimension(t: Triple, lb: int, d: int) {
    t.extent >= 1 && t.stride != 0 && Within(t.first, lb, d) && Within(t.first + (t.extent - 1) * t.stride, lb, d)
  }

  ghost predicate InArray(ds: seq<int>, lbs: seq<int>, ts: seq<Triple>) {
    |ds| == |lbs| == |ts| && forall k | 0 <= k < |ds| :: InDimension(ts[k], lbs[k], ds[k])
  }

  lemma Between(t: Triple, lb: int, d: int, i: nat)
    requires InDimension(t, lb, d) && i < t.extent
    ensures Within(t.first + i * t.stride, lb, d)
    ensures t.extent <= d
  {
    Progression(i, t.extent - 1, t.stride);
  }

  /** Subscript number i of a triple. */
  predicate ChosenWithin(t: Triple, lb: int, d: int, i: int) { lb <= t.first + i * t.stride <= lb + d - 1 }

  /** They lie in it if and only if there are some and each of them does. */
  lemma InDimensionEach(t: Triple, lb: int, d: int)
    ensures InDimension(t, lb, d) <==>
            t.extent >= 1 && t.stride != 0 && forall i | 0 <= i < t.extent :: ChosenWithin(t, lb, d, i)
  {
    if InDimension(t, lb, d) {
      forall i | 0 <= i < t.extent
        ensures ChosenWithin(t, lb, d, i)
      {
        Between(t, lb, d, i);
      }
    } else if t.extent >= 1 && forall i | 0 <= i < t.extent :: ChosenWithin(t, lb, d, i) {
      assert ChosenWithin(t, lb, d, 0) && ChosenWithin(t, lb, d, t.extent - 1);
    }
  }

  lemma NonNegative(a: int, b: int)
    requires a >= 0 && b >= 0
    ensures a * b >= 0
  {}

  lemma Progression(i: int, n: int, s: int)
    requires 0 <= i <= n && s != 0
    ensures s > 0 ==> 0 <= i * s <= n * s && n * s >= n
    ensures s < 0 ==> n * s <= i * s <= 0 && n * s <= -n
  {
    if s > 0 {
      NonNegative(i, s);
      NonNegative(n - i, s);
      NonNegative(n, s - 1);
      assert (n - i) * s == n * s - i * s && n * (s - 1) == n * s - n;
    } else {
      NonNegative(i, -s);
      NonNegative(n - i, -s);
      NonNegative(n, -s - 1);
      assert (n - i) * (-s) == i * s - n * s && n * (-s - 1) == -(n * s) - n && i * (-s) == -(i * s);
    }
  }

  lemma {:induction false} UnitsGrow(us: seq<int>, ds: seq<int>, size: int, k: nat)
    requires Units(us, ds, size) && size > 0 && k <= |ds| && forall l | 0 <= l < |ds| :: ds[l] > 0
    ensures us[k] > 0
  {
    if k != 0 {
      UnitsGrow(us, ds, size, k - 1);
    }
  }

  /** A whole element at a lies in the n bytes from off on. */
  predicate Inside(a: int, size: int, off: int, n: int) { off <= a && a + size <= off + n }

  /** What subscript i of the last dimension k - 1 leads to. */
  function Row(us: seq<int>, lbs: seq<int>, ts: seq<Triple>, k: nat, off: int, i: int): int
    requires 0 < k <= |lbs| == |ts| < |us|
  {
    Subscripted(off, us[k - 1], ts[k - 1].first + i * ts[k - 1].stride, lbs[k - 1])
  }

  lemma RowFits(u: int, d: int, v: int, lb: int, off: int)
    requires u > 0 && Within(v, lb, d)
    ensures off <= Subscripted(off, u, v, lb) && Subscripted(off, u, v, lb) + u <= off + u * d
  {
    RowFitsBy(u, d, v - lb);
  }

  lemma RowFitsBy(u: int, d: int, w: int)
    requires u > 0 && 0 <= w < d
    ensures 0 <= u * w && u * w + u <= u * d
  {
    NonNegative(u, w);
    NonNegative(u, d - 1 - w);
    assert u * (d - 1 - w) == u * d - u - u * w;
  }

  /** The addresses of a section of the first k dimensions lie within those. */
  lemma {:induction false} ChosenInside(us: seq<int>, ds: seq<int>, size: int, lbs: seq<int>, ts: seq<Triple>,
                                        k: nat, off: int)
    requires Units(us, ds, size) && size > 0 && InArray(ds, lbs, ts) && k <= |ds|
    ensures forall x | x in Chosen(us, lbs, ts, k, off) :: Inside(x, size, off, us[k])
    decreases k, 0, 0
  {
    if k != 0 {
      RowsInside(us, ds, size, lbs, ts, k, off, 0);
      forall x | x in ChosenFrom(us, lbs, ts, k, off, 0)
        ensures Inside(x, size, off, us[k])
      {
        var i :| 0 <= i < ts[k - 1].extent && Inside(x, size, Row(us, lbs, ts, k, off, i), us[k - 1]);
        RowInside(us, ds, size, lbs, ts, k, off, i);
      }
    }
  }

  lemma RowInside(us: seq<int>, ds: seq<int>, size: int, lbs: seq<int>, ts: seq<Triple>, k: nat, off: int, i: nat)
    requires Units(us, ds, size) && size > 0 && InArray(ds, lbs, ts) && 0 < k <= |ds| && i < ts[k - 1].extent
    ensures us[k - 1] > 0
    ensures off <= Row(us, lbs, ts, k, off, i) && Row(us, lbs, ts, k, off, i) + us[k - 1] <= off + us[k]
  {
    UnitsGrow(us, ds, size, k - 1);
    Between(ts[k - 1], lbs[k - 1], ds[k - 1], i);
    RowFits(us[k - 1], ds[k - 1], ts[k - 1].first + i * ts[k - 1].stride, lbs[k - 1], off);
  }

  lemma {:induction false} RowsInside(us: seq<int>, ds: seq<int>, size: int, lbs: seq<int>, ts: seq<Triple>, k: nat,
                                      off: int, i: nat)
    requires Units(us, ds, size) && size > 0 && InArray(ds, lbs, ts) && 0 < k <= |ds|
    ensures forall x | x in ChosenFrom(us, lbs, ts, k, off, i) ::
              exists i' | i <= i' < ts[k - 1].extent :: Inside(x, size, Row(us, lbs, ts, k, off, i'), us[k - 1])
    decreases k - 1, 1, ts[k - 1].extent - i
  {
    if i < ts[k - 1].extent {
      ChosenInside(us, ds, size, lbs, ts, k - 1, Row(us, lbs, ts, k, off, i));
      RowsInside(us, ds, size, lbs, ts, k, off, i + 1);
    }
  }

  ghost predicate Distinct(s: seq<int>) { forall a, b | 0 <= a < b < |s| :: s[a] != s[b] }

  lemma DistinctAppend(s: seq<int>, t: seq<int>)
    requires Distinct(s) && Distinct(t) && forall x | x in s :: x !in t
    ensures Distinct(s + t)
  {
    forall a, b | 0 <= a < b < |s + t|
      ensures (s + t)[a] != (s + t)[b]
    {
      if a < |s| <= b {
        assert s[a] in s && t[b - |s|] in t;
      }
    }
  }

  /** Different rows do not overlap. */
  lemma RowsApart(us: seq<int>, ds: seq<int>, size: int, lbs: seq<int>, ts: seq<Triple>, k: nat, off: int, i: nat,
                  i': nat, x: int)
    requires Units(us, ds, size) && size > 0 && InArray(ds, lbs, ts) && 0 < k <= |ds| && i < i' < ts[k - 1].extent
    requires Inside(x, size, Row(us, lbs, ts, k, off, i), us[k - 1])
    ensures !Inside(x, size, Row(us, lbs, ts, k, off, i'), us[k - 1])
  {
    var u, s := us[k - 1], ts[k - 1].stride;
    RowInside(us, ds, size, lbs, ts, k, off, i);
    assert Row(us, lbs, ts, k, off, i') == Row(us, lbs, ts, k, off, i) + u * ((i' - i) * s) by {
      var f, lb := ts[k - 1].first, lbs[k - 1];
      assert (f + i' * s - lb) == (f + i * s - lb) + (i' - i) * s;
      assert u * ((f + i * s - lb) + (i' - i) * s) == u * (f + i * s - lb) + u * ((i' - i) * s);
    }
    FarApart(u, i' - i, s);
  }

  lemma FarApart(u: int, n: int, s: int)
    requires u > 0 && n > 0 && s != 0
    ensures u * (n * s) >= u || u * (n * s) <= -u
  {
    if s > 0 {
      assert n * s >= 1;
      assert u * (n * s - 1) >= 0;
    } else {
      assert n * (-s) >= 1;
      assert u * (n * (-s) - 1) >= 0;
    }
  }

  /** A section that lies in its array names each element once. */
  lemma {:induction false} ChosenDistinct(us: seq<int>, ds: seq<int>, size: int, lbs: seq<int>, ts: seq<Triple>,
                                          k: nat, off: int)
    requires Units(us, ds, size) && size > 0 && InArray(ds, lbs, ts) && k <= |ds|
    ensures Distinct(Chosen(us, lbs, ts, k, off))
    decreases k, 0, 0
  {
    if k != 0 {
      RowsDistinct(us, ds, size, lbs, ts, k, off, 0);
    }
  }

  lemma {:induction false} RowsDistinct(us: seq<int>, ds: seq<int>, size: int, lbs: seq<int>, ts: seq<Triple>,
                                        k: nat, off: int, i: nat)
    requires Units(us, ds, size) && size > 0 && InArray(ds, lbs, ts) && 0 < k <= |ds|
    ensures Distinct(ChosenFrom(us, lbs, ts, k, off, i))
    decreases k - 1, 1, ts[k - 1].extent - i
  {
    if i < ts[k - 1].extent {
      var row, rest := Chosen(us, lbs, ts, k - 1, Row(us, lbs, ts, k, off, i)), ChosenFrom(us, lbs, ts, k, off, i + 1);
      ChosenDistinct(us, ds, size, lbs, ts, k - 1, Row(us, lbs, ts, k, off, i));
      ChosenInside(us, ds, size, lbs, ts, k - 1, Row(us, lbs, ts, k, off, i));
      RowsDistinct(us, ds, size, lbs, ts, k, off, i + 1);
      RowsInside(us, ds, size, lbs, ts, k, off, i + 1);
      forall x | x in row
        ensures x !in rest
      {
        if x in rest {
          var i' :| i + 1 <= i' < ts[k - 1].extent && Inside(x, size, Row(us, lbs, ts, k, off, i'), us[k - 1]);
          RowsApart(us, ds, size, lbs, ts, k, off, i, i', x);
        }
      }
      DistinctAppend(row, rest);
    }
  }

  // ----- the first element -----

  /** suboffset's form of an offset in elements, before the base offset is taken away: subscripts
      k, k + 1, ... multiplied up from the last one. */
  function Horner(xs: seq<int>, ds: seq<int>, k: nat): int
    requires k < |xs| == |ds|
    decreases |xs| - k
  {
    if k == |xs| - 1 then xs[k] else xs[k] + Horner(xs, ds, k + 1) * ds[k]
  }

  /** x_rsne's form: each subscript times the elements of the dimensions before it. */
  function Summed(xs: seq<int>, es: seq<int>, k: nat): int
    requires k <= |xs| <= |es|
  {
    if k == 0 then 0 else Summed(xs, es, k - 1) + xs[k - 1] * es[k - 1]
  }

  /** The two forms agree. */
  lemma {:induction false} HornerSummed(xs: seq<int>, ds: seq<int>, es: seq<int>, k: nat)
    requires k < |xs| == |ds| && Units(es, ds, 1)
    ensures Summed(xs, es, |xs|) == Summed(xs, es, k) + es[k] * Horner(xs, ds, k)
    decreases |xs| - k
  {
    if k == |xs| - 1 {
      assert Summed(xs, es, k + 1) == Summed(xs, es, k) + xs[k] * es[k];
    } else {
      HornerSummed(xs, ds, es, k + 1);
      var h := Horner(xs, ds, k + 1);
      assert es[k + 1] * h == es[k] * (h * ds[k]) by { assert es[k] * ds[k] * h == es[k] * (h * ds[k]); }
      assert es[k] * (xs[k] + h * ds[k]) == es[k] * xs[k] + es[k] * (h * ds[k]);
    }
  }
}
