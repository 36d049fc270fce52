// x_rsne of libf2c/rsne.c on one array section: locating its first element,
// collapsing its leading dimensions into blocks, adjusting the steps, and walking it.
module NamelistSection {
  import opened Options
  import Powers
  import opened Seqs
  import opened Sections

  /** A subscript as written: x1, x1:x2 or x1:x2:x3. */
  datatype Sub = Sub(x1: int, rest: Option<(int, Option<int>)>)

  datatype Dimen = Dimen(extent: int, curval: int, delta: int, stride: int)

  /** extent - 1, as getdimen computes it; None if x3 is zero. */
  function SpanOf(s: Sub): Option<int> {
    if s.rest.None? then Some(0)
    else
      var (x2, x3) := s.rest.value;
      if x3.None? then Some(x2 - s.x1)
      else if x3.value == 0 then None
      else Some(Powers.Quot(x2 - s.x1, x3.value))
  }

  /** The last element of x1:x2:x3 is the last one that does not lie beyond x2. Where x2 lies the wrong way from
      x1, by less than a stride, there is one element, and by more there is an error; the standard has none. */
  lemma SpanReaches(x1: int, x2: int, x3: int)
    requires x3 != 0
    ensures SpanOf(Sub(x1, Some((x2, Some(x3))))).Some?
    ensures var n := SpanOf(Sub(x1, Some((x2, Some(x3))))).value;
            && (x3 > 0 && x1 <= x2 ==> n >= 0 && x1 + n * x3 <= x2 < x1 + n * x3 + x3)
            && (x3 < 0 && x1 >= x2 ==> n >= 0 && x1 + n * x3 >= x2 > x1 + n * x3 + x3)
            && ((x3 > 0 && x2 < x1) || (x3 < 0 && x1 < x2) ==> n <= 0)
            && (n == 0 <==> Powers.Abs(x2 - x1) < Powers.Abs(x3))
  {
    var n := Powers.Quot(x2 - x1, x3);
    Powers.QuotRest(x2 - x1, x3);
    Powers.QuotIs(x2 - x1, x3, 0);
    Sign(x2 - x1, x3, n);
    assert x3 * n == n * x3;
  }

  lemma Sign(a: int, d: int, n: int)
    requires d != 0 && Powers.Abs(a - d * n) < Powers.Abs(d)
    requires (a >= 0 ==> a - d * n >= 0) && (a <= 0 ==> a - d * n <= 0)
    ensures (d > 0 && a >= 0) || (d < 0 && a <= 0) ==> n >= 0
    ensures (d > 0 && a <= 0) || (d < 0 && a >= 0) ==> n <= 0
  {
    if n > 0 {
      Powers.MulAtLeast(n, Powers.Abs(d));
    } else if n < 0 {
      Powers.MulAtLeast(-n, Powers.Abs(d));
    }
  }

  function StrideOf(s: Sub): int {
    if s.rest.Some? && s.rest.value.1.Some? then s.rest.value.1.value else 1
  }

  function TripleOf(s: Sub): Triple {
    Triple(s.x1, (if SpanOf(s).Some? then SpanOf(s).value else -1) + 1, StrideOf(s))
  }

  function TriplesOf(subs: seq<Sub>): (ts: seq<Triple>)
    ensures |ts| == |subs| && forall k | 0 <= k < |subs| :: ts[k] == TripleOf(subs[k])
  {
    seq(|subs|, k requires 0 <= k < |subs| => TripleOf(subs[k]))
  }

  function Firsts(ts: seq<Triple>): (xs: seq<int>)
    ensures |xs| == |ts| && forall k | 0 <= k < |ts| :: xs[k] == ts[k].first
  {
    seq(|ts|, k requires 0 <= k < |ts| => ts[k].first)
  }

  /** The number of elements in dimensions k, k + 1, ... */
  function Tail(ds: seq<int>, k: nat): int
    requires k <= |ds|
    decreases |ds| - k
  {
    if k == |ds| then 1 else ds[k] * Tail(ds, k + 1)
  }

  /** The dims of a Vardesc: the number of dimensions, the number of elements, the base offset, and
      the dimensions but the last. */
  ghost predicate Describes(dims: seq<int>, ds: seq<int>, lbs: seq<int>, es: seq<int>) {
    && |ds| > 0 && |lbs| == |ds| && (forall k | 0 <= k < |ds| :: ds[k] > 0) && Units(es, ds, 1)
    && |dims| == |ds| + 2 && dims[0] == |ds| && dims[1] == Tail(ds, 0) && dims[2] == Summed(lbs, es, |ds|)
    && forall k | 0 <= k < |ds| - 1 :: dims[3 + k] == ds[k]
  }

  /** The dimensions as getdimen leaves them. */
  ghost predicate Dimensioned(dimens: seq<Dimen>, ts: seq<Triple>, us: seq<int>, n: nat) {
    && |dimens| == n <= |ts| < |us|
    && forall k | 0 <= k < n :: dimens[k] == Dimen(ts[k].extent, 0, us[k], ts[k].stride) && ts[k].extent > 0
  }

  // ----- arithmetic of the first element -----

  lemma {:induction false} SummedScales(xs: seq<int>, es: seq<int>, us: seq<int>, ds: seq<int>, size: int, k: nat)
    requires Units(es, ds, 1) && Units(us, ds, size) && k <= |xs| <= |ds|
    ensures us[k] == size * es[k] && Summed(xs, us, k) == size * Summed(xs, es, k)
  {
    if k != 0 {
      SummedScales(xs, es, us, ds, size, k - 1);
      Scaled(size, es[k - 1], ds[k - 1], xs[k - 1]);
      var sum, x, e := Summed(xs, es, k - 1), xs[k - 1], es[k - 1];
      assert Summed(xs, us, k) == size * sum + x * (size * e);
      assert size * (sum + x * e) == size * sum + size * (x * e) by { Difference(size, sum, -(x * e)); }
    }
  }

  lemma Scaled(size: int, e: int, d: int, x: int)
    ensures size * e * d == size * (e * d)
    ensures x * (size * e) == size * (x * e)
  {}

  lemma {:induction false} CornerSummed(us: seq<int>, lbs: seq<int>, ts: seq<Triple>, k: nat)
    requires k <= |lbs| == |ts| < |us|
    ensures Corner(us, lbs, ts, k) == Summed(Firsts(ts), us, k) - Summed(lbs, us, k)
  {
    if k != 0 {
      CornerSummed(us, lbs, ts, k - 1);
      var u, f, lb := us[k - 1], ts[k - 1].first, lbs[k - 1];
      assert u * (f - lb) == f * u - lb * u;
    }
  }

  lemma {:induction false} CornerInside(us: seq<int>, ds: seq<int>, size: int, lbs: seq<int>, ts: seq<Triple>, k: nat)
    requires Units(us, ds, size) && size > 0 && InArray(ds, lbs, ts) && k <= |ds|
    ensures 0 <= Corner(us, lbs, ts, k) && Corner(us, lbs, ts, k) + size <= us[k]
  {
    if k != 0 {
      CornerInside(us, ds, size, lbs, ts, k - 1);
      UnitsGrow(us, ds, size, k - 1);
      RowFits(us[k - 1], ds[k - 1], ts[k - 1].first, lbs[k - 1], Corner(us, lbs, ts, k - 1));
    }
  }

  lemma {:induction false} TailGrows(ds: seq<int>, k: nat)
    requires k <= |ds| && forall l | 0 <= l < |ds| :: ds[l] > 0
    ensures Tail(ds, k) > 0 && (k < |ds| ==> Tail(ds, k) >= ds[k] && Tail(ds, k) / ds[k] == Tail(ds, k + 1))
    decreases |ds| - k
  {
    if k < |ds| {
      TailGrows(ds, k + 1);
      var d, t := ds[k], Tail(ds, k + 1);
      NonNegative(d, t - 1);
      assert d * (t - 1) == d * t - d;
      Powers.MulDiv(t, d);
      assert t * d == d * t;
    }
  }

  /** All the elements: those of the first k dimensions times those of the others. */
  lemma {:induction false} TailUnits(es: seq<int>, ds: seq<int>, k: nat)
    requires Units(es, ds, 1) && k <= |ds|
    ensures es[k] * Tail(ds, k) == Tail(ds, 0)
  {
    if k != 0 {
      TailUnits(es, ds, k - 1);
      assert es[k - 1] * (ds[k - 1] * Tail(ds, k)) == es[k - 1] * ds[k - 1] * Tail(ds, k);
    }
  }

  /** A section that lies in its array passes the checks of getdimen and of x_rsne. */
  lemma InArrayPasses(ds: seq<int>, lbs: seq<int>, subs: seq<Sub>, k: nat)
    requires InArray(ds, lbs, TriplesOf(subs)) && k < |ds| && forall l | 0 <= l < |ds| :: ds[l] > 0
    ensures SpanOf(subs[k]).Some? && 0 <= SpanOf(subs[k]).value < Tail(ds, k)
  {
    var t := TriplesOf(subs)[k];
    assert InDimension(t, lbs[k], ds[k]);
    Between(t, lbs[k], ds[k], 0);
    TailGrows(ds, k);
  }

  // ----- the methods -----

  class Walk {
    var dimens: seq<Dimen>
    var colonseen: bool
    var dn0: nat
    var no: int
    var no1: int
    var iva: int
    var ivae: int
    /** The addresses of the elements l_read has been asked for. */
    var seen: seq<int>

    constructor ()
      ensures seen == []
    {
      dimens, colonseen, dn0, no, no1, iva, ivae, seen := [], false, 0, 0, 0, 0, 0, [];
    }

    /** getdimen, once its numbers have been read. */
    method Getdimen(s: Sub, delta: int, extent: int) returns (k: int, d: Dimen)
      modifies this`colonseen
      ensures k == 0 || k == 123
      ensures k == 0 <==> SpanOf(s).Some? && (s.rest.Some? ==> 0 <= SpanOf(s).value < extent)
      ensures k == 0 ==> d == Dimen(TripleOf(s).extent, 0, delta, StrideOf(s)) && d.extent > 0
      ensures k == 0 ==> colonseen == (old(colonseen) || (s.rest.Some? && s.rest.value.1.Some?))
    {
      k, d := 123, Dimen(1, 0, delta, 1);
      var x3 := 1;
      if s.rest.Some? {
        var x2 := s.rest.value.0 - s.x1;
        if s.rest.value.1.Some? {
          x3 := s.rest.value.1.value;
          if x3 == 0 {
            return;
          }
          x2 := Powers.Quot(x2, x3);
          colonseen := true;
        }
        if x2 < 0 || x2 >= extent {
          return;
        }
        d := d.(extent := x2 + 1);
      }
      k, d := 0, d.(stride := x3);
    }

    /** The subscripts: the dimensions of the section and its first element. */
    method Locate(dims: seq<int>, subs: seq<Sub>, size: int, ghost ds: seq<int>, ghost lbs: seq<int>,
                  ghost es: seq<int>,
                  ghost us: seq<int>) returns (k: int)
      requires Describes(dims, ds, lbs, es) && |subs| == |ds| && size > 0 && Units(us, ds, size)
      modifies this`dimens, this`colonseen, this`no, this`iva, this`ivae
      ensures InArray(ds, lbs, TriplesOf(subs)) ==> k == 0
      ensures k == 0 ==>
                var ts := TriplesOf(subs);
                && Dimensioned(dimens, ts, us, |ds|) && iva == Corner(us, lbs, ts, |ds|) && ivae == us[|ds|]
                && no == Product(dimens, |ds|)
    {
      ghost var fine := InArray(ds, lbs, TriplesOf(subs));
      if fine {
        AllPass(ds, lbs, subs);
      }
      var nd, nomax := dims[0], dims[1];
      var span := nomax;
      colonseen := false;
      var d;
      k, d := Getdimen(subs[0], size, nomax);
      if k != 0 {
        return;
      }
      dimens, no := [d], d.extent;
      var b, ex := subs[0].x1, 1;
      LocatingStarts(ds, es, us, subs, size, d);
      var n := 1;
      while n < nd
        invariant 1 <= n <= nd && k == 0 && Locating(ds, es, us, subs, n, dimens, no, b, ex, span)
      {
        span := span / dims[3 + n - 1];
        LocatingSpan(ds, n - 1);
        k, d := Getdimen(subs[n], dimens[n - 1].delta * dims[3 + n - 1], span);
        if k != 0 {
          return;
        }
        LocatingStep(ds, es, us, subs, size, n, dimens, no, b, ex, d);
        ex := ex * dims[3 + n - 1];
        b := b + subs[n].x1 * ex;
        no := no * d.extent;
        dimens := dimens + [d];
        n := n + 1;
      }
      b := b - dims[2];
      LocatedAt(ds, lbs, es, us, TriplesOf(subs), size, fine);
      if b < 0 || b >= nomax {
        return 125;
      }
      iva := size * b;
      ivae := size * nomax;
    }

    /** The dimensions that are read whole, and then the first one if its elements are adjacent, are
        read in blocks of no1 elements; dn0 is the first dimension left. */
    method Collapse(dims: seq<int>, size: int, ghost ds: seq<int>, ghost lbs: seq<int>, ghost es: seq<int>,
                    ghost us: seq<int>,
                    ghost ts: seq<Triple>)
      requires Describes(dims, ds, lbs, es) && Units(us, ds, size) && |ts| == |ds| && Dimensioned(dimens, ts, us, |ds|)
      modifies this`dn0, this`no1
      ensures dn0 <= |dimens| && no1 > 0 && Contiguous(StepsOf(dimens), dn0, size, no1)
    {
      no1, dn0 := 1, 0;
      CollapsingStarts(dimens, us, ds, size);
      while dn0 < |dimens| - 1
        invariant dn0 < |dimens| && Collapsing(dimens, us, size, dn0, no1)
      {
        if dimens[dn0].extent != dims[3 + dn0] || dimens[dn0].stride != 1 {
          break;
        }
        CollapsingStep(dimens, us, ds, ts, size, dn0, no1);
        no1 := no1 * dimens[dn0].extent;
        dn0 := dn0 + 1;
      }
      if dn0 == 0 && dimens[0].stride == 1 {
        FirstAdjacent(dimens, us, ds, ts, size);
        no1 := dimens[0].extent;
        dn0 := dn0 + 1;
      }
    }

    /** At delta_adj: the step of each dimension left is reduced by what the dimensions before it have
        moved on by when they start again. */
    method AdjustDeltas()
      requires dn0 <= |dimens|
      modifies this`dimens
      ensures Adjusted(dimens, old(dimens), dn0)
    {
      ghost var ss, was := StepsOf(dimens), dimens;
      var ex := MultiplyDeltas(ss);
      SubtractDeltas(ex, was, ss);
      HalfAdjustedEnds(dimens, was, dn0);
    }

    /** The second loop of delta_adj. */
    method SubtractDeltas(ex0: int, ghost was: seq<Dimen>, ghost ss: seq<Stepping>)
      requires dn0 <= |dimens| == |was| == |ss| && HalfAdjusted(dimens, was, ss, dn0, |dimens| - 1)
      requires ex0 == Reach(ss, dn0, |dimens|) && forall l | 0 <= l < |ss| :: was[l].extent == ss[l].extent
      modifies this`dimens
      ensures |dimens| == |was| && HalfAdjusted(dimens, was, ss, dn0, dn0)
    {
      var ex, dn1 := ex0, |dimens| - 1;
      while dn1 > dn0
        invariant dn0 - 1 <= dn1 < |dimens| == |was| && HalfAdjusted(dimens, was, ss, dn0, dn1)
        invariant dn1 >= dn0 ==> ex == Reach(ss, dn0, dn1 + 1)
        decreases dn1
      {
        ghost var before := dimens;
        ex := SubtractDelta(dn1, ex, ss);
        HalfAdjustedStep(before, was, ss, dn0, dn1, dimens);
        dn1 := dn1 - 1;
      }
    }

    /** That loop, once. */
    method SubtractDelta(dn1: nat, ex: int, ghost ss: seq<Stepping>) returns (ex': int)
      requires dn0 < dn1 < |dimens| == |ss| && ex == Reach(ss, dn0, dn1 + 1)
      requires dimens[dn1].delta == ss[dn1].step && dimens[dn1].extent == ss[dn1].extent
      modifies this`dimens
      ensures ex' == Reach(ss, dn0, dn1)
      ensures dimens == old(dimens)[dn1 := old(dimens)[dn1].(delta := ss[dn1].step - ex')]
    {
      var d := dimens[dn1];
      ReachStep(ss, dn0, dn1);
      ex' := ex - (d.extent - 1) * d.delta;
      dimens := dimens[dn1 := d.(delta := d.delta - ex')];
    }

    /** The first loop of delta_adj. */
    method MultiplyDeltas(ghost ss: seq<Stepping>) returns (ex: int)
      requires dn0 <= |dimens| && ss == StepsOf(dimens)
      modifies this`dimens
      ensures |dimens| == |old(dimens)| && ex == Reach(ss, dn0, |dimens|)
      ensures forall l | dn0 <= l < |dimens| :: dimens[l] == old(dimens)[l].(delta := ss[l].step)
    {
      ghost var was := dimens;
      ex := 0;
      var dn1 := dn0;
      while dn1 < |dimens|
        invariant dn0 <= dn1 <= |dimens| == |was| && ex == Reach(ss, dn0, dn1)
        invariant forall l | dn0 <= l < dn1 :: dimens[l] == was[l].(delta := ss[l].step)
        invariant forall l | dn1 <= l < |dimens| :: dimens[l] == was[l]
      {
        var d := dimens[dn1];
        d := d.(delta := d.delta * d.stride);
        assert d.delta == ss[dn1].step && d.extent == ss[dn1].extent;
        dimens := dimens[dn1 := d];
        ex := ex + (d.extent - 1) * d.delta;
        dn1 := dn1 + 1;
      }
    }

    /** The odometer. */
    method Advance(ghost ss: seq<Stepping>, ghost at: int) returns (moved: bool)
      requires dn0 <= |dimens| == |ss| && Stepped(dimens, ss, dn0)
      requires iva == Stand(ss, Counters(dimens), dn0, |ss|, at)
      modifies this`dimens, this`iva
      ensures |dimens| == |ss|
      ensures moved ==> Stepped(dimens, ss, dn0) && iva == Stand(ss, Counters(dimens), dn0, |ss|, at)
      ensures var was := After(ss, Counters(old(dimens)), dn0, |ss|, at);
              if moved then was == [iva] + After(ss, Counters(dimens), dn0, |ss|, at) else was == []
    {
      ghost var was := dimens;
      var dn1 := dn0;
      while dn1 < |dimens|
        invariant dn0 <= dn1 <= |dimens| == |ss| == |was| && iva == old(iva) && Wrapped(dimens, was, ss, dn0, dn1)
      {
        var d := dimens[dn1];
        d := d.(curval := d.curval + 1);
        if d.curval < d.extent {
          WrappedCarries(dimens, was, ss, dn0, dn1, at);
          dimens, iva := dimens[dn1 := d], iva + d.delta;
          return true;
        }
        WrappedMore(dimens, was, ss, dn0, dn1);
        dimens := dimens[dn1 := d.(curval := 0)];
        dn1 := dn1 + 1;
      }
      WrappedEnds(dimens, was, ss, dn0, at);
      moved := false;
    }

    /** readloop up to the odometer. */
    method ReadBlock(size: int, ghost r: Reading) returns (quit: bool)
      requires size > 0 && Going(size, r)
      modifies this`no, this`no1, this`seen
      ensures r.fine ==>
                && no1 == r.block && no == r.block * |r.rest| && seen == r.seen0 + Runs(r.done + [iva], size, r.block)
                && (quit <==> r.rest == []) && (quit ==> r.done + [iva] == r.ps)
                && (r.rest != [] ==> no == r.block * (1 + (|r.rest| - 1)))
    {
      if r.fine {
        NextFits(r.ps, r.done, iva, r.rest, r.block * size, ivae);
        RunsGrow(r.done, iva, size, r.block, r.seen0);
        CountOut(r.block, no, r.done, iva, r.rest, r.ps);
        CountDown(r.block, |r.rest|);
        Positive(r.block, size);
      }
      if iva >= ivae || iva < 0 {
        return true;
      }
      if iva + no1 * size > ivae {
        no1 := (ivae - iva) / size;
      }
      seen := seen + Run(iva, size, no1);
      no := no - no1;
      quit := no <= 0;
    }

    /** Once around readloop. */
    method Pass(size: int, ghost ss: seq<Stepping>, ghost at: int, ghost r: Reading)
      returns (quit: bool, ghost r': Reading)
      requires dn0 <= |dimens| == |ss| && size > 0 && Here(ss, at, r) && Going(size, r)
      modifies this`dimens, this`iva, this`no, this`no1, this`seen
      ensures |dimens| == |ss| && (!quit ==> Here(ss, at, r') && Going(size, r') && |r'.rest| < |r.rest|)
      ensures quit && r.fine ==> seen == r.seen0 + Runs(r.ps, size, r.block)
      ensures r' == r.(done := r'.done, rest := r'.rest)
    {
      r' := r;
      quit := ReadBlock(size, r);
      if quit {
        return;
      }
      ghost var p := iva;
      var moved := Advance(ss, at);
      if moved {
        r' := r.(done := r.done + [p], rest := After(ss, Counters(dimens), dn0, |ss|, at));
        AppendAssoc(r.done + [p], [iva], r'.rest);
      }
      quit := !moved;
    }

    /** readloop, when the list of values does not end early: each time around no1 elements are read
        at iva, and no more than up to ivae. */
    method Read(size: int, ghost ss: seq<Stepping>, ghost at: int)
      requires dn0 <= |dimens| == |ss| && Stepped(dimens, ss, dn0) && size > 0 && no1 > 0
      requires iva == at && forall l | dn0 <= l < |ss| :: dimens[l].curval == 0
      requires no == no1 * |Enum(ss, dn0, |ss|, at)|
      modifies this`dimens, this`iva, this`no, this`no1, this`seen
      ensures var ps := Enum(ss, dn0, |ss|, at);
              Fits(ps, old(no1) * size, ivae) ==> seen == old(seen) + Runs(ps, size, old(no1))
    {
      ghost var r := ReadStarts(size, ss, at);
      ReadLoop(size, ss, at, r);
    }

    lemma ReadStarts(size: int, ss: seq<Stepping>, at: int) returns (r: Reading)
      requires dn0 <= |dimens| == |ss| && Stepped(dimens, ss, dn0) && size > 0 && no1 > 0
      requires iva == at && forall l | dn0 <= l < |ss| :: dimens[l].curval == 0
      requires no == no1 * |Enum(ss, dn0, |ss|, at)|
      ensures Here(ss, at, r) && Going(size, r) && r.ps == Enum(ss, dn0, |ss|, at)
      ensures r.block == no1 && r.seen0 == seen && (r.fine <==> Fits(r.ps, no1 * size, ivae))
    {
      var ps, rest := Enum(ss, dn0, |ss|, at), After(ss, Counters(dimens), dn0, |ss|, at);
      r := Reading(ps, [], rest, Fits(ps, no1 * size, ivae), no1, seen);
      AtStart(ss, Counters(dimens), dn0, |ss|, at);
      StandAtStart(ss, Counters(dimens), dn0, |ss|, at);
      assert [] + [iva] + rest == ps;
      assert seen == seen + Runs([], size, no1);
    }

    method ReadLoop(size: int, ghost ss: seq<Stepping>, ghost at: int, ghost r0: Reading)
      requires dn0 <= |dimens| == |ss| && size > 0 && Here(ss, at, r0) && Going(size, r0)
      modifies this`dimens, this`iva, this`no, this`no1, this`seen
      ensures r0.fine ==> seen == r0.seen0 + Runs(r0.ps, size, r0.block)
    {
      ghost var r := r0;
      var quit := false;
      while !quit
        invariant |dimens| == |ss| && (!quit ==> Here(ss, at, r) && Going(size, r))
        invariant r == r0.(done := r.done, rest := r.rest)
        invariant quit && r.fine ==> seen == r.seen0 + Runs(r.ps, size, r.block)
        decreases !quit, |r.rest|
      {
        quit, r := Pass(size, ss, at, r);
      }
    }

    /** x_rsne on a section with an explicit stride, of whole elements or of their bytes
        start .. start + len - 1. If the section lies in its array, l_read is asked for each of its
        elements once, in column-major order. */
    method Section(dims: seq<int>, subs: seq<Sub>, size: int, start: int, len: int, ghost ds: seq<int>,
                   ghost lbs: seq<int>,
                   ghost es: seq<int>, ghost us: seq<int>) returns (k: int)
      requires Describes(dims, ds, lbs, es) && Units(us, ds, size) && |subs| == |ds|
      requires 0 <= start && len > 0 && start + len <= size
      requires seen == [] && exists l :: 0 <= l < |subs| && Strided(subs[l])
      modifies this
      ensures InArray(ds, lbs, TriplesOf(subs)) ==>
                k == 0 && seen == Chosen(us, lbs, TriplesOf(subs), |ds|, start) && Distinct(seen)
    {
      k := Locate(dims, subs, size, ds, lbs, es, us);
      if k != 0 {
        return;
      }
      iva := iva + start;
      if len < size {
        no1, dn0 := 1, 0;
        NoneContiguous(StepsOf(dimens), len);
      } else {
        Collapse(dims, size, ds, lbs, es, us, TriplesOf(subs));
      }
      ReadBlocks(size, start, len, ds, lbs, us, TriplesOf(subs));
    }

    /** From delta_adj on. */
    method ReadBlocks(ghost size: int, ghost start: int, len: int, ghost ds: seq<int>, ghost lbs: seq<int>,
                      ghost us: seq<int>,
                      ghost ts: seq<Triple>)
      requires Units(us, ds, size) && |ds| == |lbs| == |ts| && Dimensioned(dimens, ts, us, |ds|)
      requires 0 <= start && len > 0 && start + len <= size && dn0 <= |dimens| && no1 > 0 && seen == []
      requires Contiguous(StepsOf(dimens), dn0, len, no1) && no == Product(dimens, |ds|)
      requires iva == Corner(us, lbs, ts, |ds|) + start && ivae == us[|ds|]
      modifies this`dimens, this`iva, this`no, this`no1, this`seen
      ensures InArray(ds, lbs, ts) ==> seen == Chosen(us, lbs, ts, |ds|, start) && Distinct(seen)
    {
      ghost var ss, was, block := StepsOf(dimens), dimens, no1;
      BlocksCount(was, dn0, len, no1, iva);
      if InArray(ds, lbs, ts) {
        SectionFits(ds, lbs, us, ts, was, size, start, len, dn0, no1, iva);
      }
      AdjustDeltas();
      AdjustedSteps(dimens, was, dn0);
      Read(len, ss, iva);
      assert [] + Chosen(us, lbs, ts, |ds|, start) == Chosen(us, lbs, ts, |ds|, start);
    }

    ghost predicate Here(ss: seq<Stepping>, at: int, r: Reading)
      requires dn0 <= |dimens| == |ss|
      reads this
    {
      && Stepped(dimens, ss, dn0) && iva == Stand(ss, Counters(dimens), dn0, |ss|, at)
      && r.rest == After(ss, Counters(dimens), dn0, |ss|, at)
    }

    ghost predicate Going(size: int, r: Reading)
      reads this
    {
      && r.ps == r.done + [iva] + r.rest
      && (r.fine ==>
            && Fits(r.ps, r.block * size, ivae) && no1 == r.block > 0 && no == r.block * (1 + |r.rest|)
            && seen == r.seen0 + Runs(r.done, size, r.block))
    }
  }

  /** The places a section is read at, those done and those to come; whether they all lie in the
      array; the elements read at each; and the addresses read before. */
  datatype Reading = Reading(ps: seq<int>, done: seq<int>, rest: seq<int>, fine: bool, block: int, seen0: seq<int>)

  /** Dimensions dn0 .. dn1 - 1 were at their ends and have been set back. */
  ghost predicate Wrapped(dimens: seq<Dimen>, was: seq<Dimen>, ss: seq<Stepping>, dn0: nat, dn1: nat)
    requires dn0 <= dn1 <= |ss| == |was| == |dimens|
  {
    && (forall l {:trigger dimens[l]} | 0 <= l < |was| ::
          dimens[l] == if dn0 <= l < dn1 then was[l].(curval := 0) else was[l])
    && (forall l {:trigger was[l]} | dn0 <= l < dn1 :: was[l].curval == ss[l].extent - 1)
  }

  lemma WrappedMore(dimens: seq<Dimen>, was: seq<Dimen>, ss: seq<Stepping>, dn0: nat, dn1: nat)
    requires dn0 <= dn1 < |ss| == |was| == |dimens| && Stepped(was, ss, dn0) && Wrapped(dimens, was, ss, dn0, dn1)
    requires dimens[dn1].curval + 1 >= dimens[dn1].extent
    ensures Wrapped(dimens[dn1 := dimens[dn1].(curval := 0)], was, ss, dn0, dn1 + 1)
  {
    assert was[dn1] == dimens[dn1] && SteppedAt(was[dn1], ss, dn0, dn1);
  }

  lemma WrappedCarries(dimens: seq<Dimen>, was: seq<Dimen>, ss: seq<Stepping>, dn0: nat, dn1: nat, at: int)
    requires dn0 <= dn1 < |ss| == |was| == |dimens| && Stepped(was, ss, dn0) && Wrapped(dimens, was, ss, dn0, dn1)
    requires dimens[dn1].curval + 1 < dimens[dn1].extent
    ensures var next, n := dimens[dn1 := dimens[dn1].(curval := dimens[dn1].curval + 1)], |ss|;
            && Stepped(next, ss, dn0)
            && Stand(ss, Counters(next), dn0, n, at) == Stand(ss, Counters(was), dn0, n, at) + dimens[dn1].delta
            && After(ss, Counters(was), dn0, n, at)
               == [Stand(ss, Counters(next), dn0, n, at)] + After(ss, Counters(next), dn0, n, at)
  {
    var next := dimens[dn1 := dimens[dn1].(curval := dimens[dn1].curval + 1)];
    var cs, cs' := Counters(was), Counters(next);
    assert was[dn1] == dimens[dn1] && SteppedAt(was[dn1], ss, dn0, dn1);
    forall l | dn0 <= l < |ss|
      ensures SteppedAt(next[l], ss, dn0, l) && 0 <= cs[l] < ss[l].extent
    {
      assert SteppedAt(was[l], ss, dn0, l) && (l != dn1 ==> next[l] == dimens[l]);
    }
    assert Carries(ss, cs, cs', dn0, dn1);
    Carried(ss, cs, cs', dn0, dn1, |ss|, at);
    CarryStep(ss, cs, cs', dn0, dn1, |ss|, at);
  }

  lemma WrappedEnds(dimens: seq<Dimen>, was: seq<Dimen>, ss: seq<Stepping>, dn0: nat, at: int)
    requires dn0 <= |ss| == |was| == |dimens| && Stepped(was, ss, dn0) && Wrapped(dimens, was, ss, dn0, |ss|)
    ensures After(ss, Counters(was), dn0, |ss|, at) == []
  {
    var cs := Counters(was);
    forall l | dn0 <= l < |ss|
      ensures cs[l] == ss[l].extent - 1 >= 0
    {
      assert SteppedAt(was[l], ss, dn0, l);
    }
    AtEnd(ss, cs, dn0, |ss|, at);
  }

  lemma Positive(a: int, b: int)
    requires a > 0 && b > 0
    ensures a * b > 0
  {}

  lemma ReachStep(ss: seq<Stepping>, j: nat, k: nat)
    requires j <= k < |ss|
    ensures Reach(ss, j, k + 1) - (ss[k].extent - 1) * ss[k].step == Reach(ss, j, k)
  {}

  /** Blocks of n bytes at ps lie before the end. */
  ghost predicate Fits(ps: seq<int>, n: int, end: int) { forall p | p in ps :: 0 <= p && p + n <= end }

  lemma NextFits(ps: seq<int>, done: seq<int>, p: int, rest: seq<int>, n: int, end: int)
    requires ps == done + [p] + rest && Fits(ps, n, end)
    ensures 0 <= p && p + n <= end
  {
    assert (done + [p])[|done|] == p;
    assert ps[|done|] == p && p in ps;
  }

  /** The last place has been read exactly when the count of elements runs out. */
  lemma CountOut(n: int, no: int, done: seq<int>, p: int, rest: seq<int>, ps: seq<int>)
    requires n > 0 && no == n * (1 + |rest|) && ps == done + [p] + rest
    ensures no - n == n * |rest| && (no - n <= 0 <==> rest == [])
    ensures rest == [] ==> done + [p] == ps
  {
    CountDown(n, |rest|);
    if rest == [] {
      assert done + [p] + rest == done + [p];
    }
  }


  /** The steps of a section whose dimensions have been read but not adjusted. */
  function StepsOf(dimens: seq<Dimen>): (ss: seq<Stepping>)
    ensures |ss| == |dimens|
    ensures forall k | 0 <= k < |dimens| :: ss[k] == Stepping(dimens[k].extent, dimens[k].delta * dimens[k].stride)
  {
    seq(|dimens|, k requires 0 <= k < |dimens| => Stepping(dimens[k].extent, dimens[k].delta * dimens[k].stride))
  }

  function Counters(dimens: seq<Dimen>): (cs: seq<int>)
    ensures |cs| == |dimens| && forall k | 0 <= k < |dimens| :: cs[k] == dimens[k].curval
  {
    seq(|dimens|, k requires 0 <= k < |dimens| => dimens[k].curval)
  }

  ghost predicate Adjusted(dimens: seq<Dimen>, was: seq<Dimen>, dn0: nat)
    requires dn0 <= |was|
  {
    && |dimens| == |was|
    && forall l {:trigger dimens[l]} | dn0 <= l < |was| :: AdjustedAt(dimens[l], was[l], StepsOf(was), dn0, l)
  }

  ghost predicate AdjustedAt(d: Dimen, was: Dimen, ss: seq<Stepping>, dn0: nat, l: nat)
    requires dn0 <= l < |ss|
  {
    d == was.(delta := ss[l].step - Reach(ss, dn0, l))
  }

  /** The steps of dimensions after dn1 have been reduced. */
  ghost predicate HalfAdjusted(dimens: seq<Dimen>, was: seq<Dimen>, ss: seq<Stepping>, dn0: nat, dn1: int)
    requires dn0 <= |ss| == |was| == |dimens|
  {
    && (forall l {:trigger dimens[l]} | dn0 <= l < |ss| && l <= dn1 :: dimens[l] == was[l].(delta := ss[l].step))
    && (forall l {:trigger dimens[l]} | dn0 <= l < |ss| && l > dn1 :: AdjustedAt(dimens[l], was[l], ss, dn0, l))
  }

  lemma HalfAdjustedStep(dimens: seq<Dimen>, was: seq<Dimen>, ss: seq<Stepping>, dn0: nat, dn1: nat,
                         dimens': seq<Dimen>)
    requires dn0 < dn1 < |ss| == |was| == |dimens| && HalfAdjusted(dimens, was, ss, dn0, dn1)
    requires dimens' == dimens[dn1 := dimens[dn1].(delta := ss[dn1].step - Reach(ss, dn0, dn1))]
    ensures HalfAdjusted(dimens', was, ss, dn0, dn1 - 1)
  {}

  lemma HalfAdjustedEnds(dimens: seq<Dimen>, was: seq<Dimen>, dn0: nat)
    requires dn0 <= |was| == |dimens| && HalfAdjusted(dimens, was, StepsOf(was), dn0, dn0)
    ensures Adjusted(dimens, was, dn0)
  {
    if dn0 < |was| {
      assert Reach(StepsOf(was), dn0, dn0) == 0;
      assert dimens[dn0] == dimens[dn0];
    }
  }

  /** The dimensions left stand for the steps ss. */
  ghost predicate Stepped(dimens: seq<Dimen>, ss: seq<Stepping>, dn0: nat)
    requires dn0 <= |ss| == |dimens|
  {
    forall l {:trigger dimens[l]} | dn0 <= l < |ss| :: SteppedAt(dimens[l], ss, dn0, l)
  }

  ghost predicate SteppedAt(d: Dimen, ss: seq<Stepping>, dn0: nat, l: nat)
    requires dn0 <= l < |ss|
  {
    d.extent == ss[l].extent && 0 <= d.curval < ss[l].extent && d.delta == ss[l].step - Reach(ss, dn0, l)
  }

  /** The first dn0 dimensions are a block of no1 elements, and dimension dn0 follows on it. */
  ghost predicate Collapsing(dimens: seq<Dimen>, us: seq<int>, size: int, dn0: nat, no1: int) {
    && dn0 <= |dimens| < |us| && no1 > 0 && Contiguous(StepsOf(dimens), dn0, size, no1) && us[dn0] == no1 * size
  }

  lemma CollapsingStarts(dimens: seq<Dimen>, us: seq<int>, ds: seq<int>, size: int)
    requires Units(us, ds, size) && |dimens| == |ds|
    ensures Collapsing(dimens, us, size, 0, 1)
  {
    NoneContiguous(StepsOf(dimens), size);
  }

  lemma CollapsingStep(dimens: seq<Dimen>, us: seq<int>, ds: seq<int>, ts: seq<Triple>, size: int, dn0: nat, no1: int)
    requires Units(us, ds, size) && |ts| == |ds| && Dimensioned(dimens, ts, us, |ds|)
             && Collapsing(dimens, us, size, dn0, no1)
    requires dn0 < |ds| && dimens[dn0].extent == ds[dn0] && dimens[dn0].stride == 1
    ensures Collapsing(dimens, us, size, dn0 + 1, no1 * dimens[dn0].extent)
  {
    var e := dimens[dn0].extent;
    assert us[dn0 + 1] == us[dn0] * ds[dn0];
    MoreContiguous(StepsOf(dimens), dn0, size, no1);
    NonNegative(no1 - 1, e);
    assert (no1 - 1) * e == no1 * e - e;
    assert no1 * size * e == no1 * e * size;
  }

  lemma FirstAdjacent(dimens: seq<Dimen>, us: seq<int>, ds: seq<int>, ts: seq<Triple>, size: int)
    requires Units(us, ds, size) && |ts| == |ds| > 0 && Dimensioned(dimens, ts, us, |ds|) && dimens[0].stride == 1
    ensures Contiguous(StepsOf(dimens), 1, size, dimens[0].extent) && dimens[0].extent > 0
  {
    NoneContiguous(StepsOf(dimens), size);
    MoreContiguous(StepsOf(dimens), 0, size, 1);
    assert 1 * StepsOf(dimens)[0].extent == dimens[0].extent;
  }

  lemma RunsGrow(done: seq<int>, p: int, size: int, n: int, seen: seq<int>)
    ensures seen + Runs(done, size, n) + Run(p, size, n) == seen + Runs(done + [p], size, n)
  {
    RunsAppend(done, [p], size, n);
    assert Runs([p], size, n) == Run(p, size, n) + Runs([], size, n);
    AppendAssoc(seen, Runs(done, size, n), Run(p, size, n));
  }

  lemma CountDown(n: int, left: nat)
    requires n > 0
    ensures n * (1 + left) - n == n * left
    ensures left == 0 <==> n * left <= 0
    ensures left > 0 ==> n * left == n * (1 + (left - 1))
  {
    if left > 0 {
      NonNegative(n, left - 1);
      assert n * (left - 1) == n * left - n;
    }
  }

  ghost predicate Locating(ds: seq<int>, es: seq<int>, us: seq<int>, subs: seq<Sub>, n: int, dimens: seq<Dimen>,
                           no: int,
                           b: int, ex: int, span: int)
  {
    && 1 <= n <= |ds| == |subs| && |es| == |us| == |ds| + 1
    && Dimensioned(dimens, TriplesOf(subs), us, n) && no == Product(dimens, n)
    && ex == es[n - 1] && b == Summed(Firsts(TriplesOf(subs)), es, n) && span == Tail(ds, n - 1)
  }

  lemma LocatingStarts(ds: seq<int>, es: seq<int>, us: seq<int>, subs: seq<Sub>, size: int, d: Dimen)
    requires |subs| == |ds| > 0 && Units(es, ds, 1) && Units(us, ds, size)
    requires d == Dimen(TripleOf(subs[0]).extent, 0, size, StrideOf(subs[0])) && d.extent > 0
    ensures Locating(ds, es, us, subs, 1, [d], d.extent, subs[0].x1, 1, Tail(ds, 0))
  {
    var xs := Firsts(TriplesOf(subs));
    assert Summed(xs, es, 1) == Summed(xs, es, 0) + xs[0] * es[0];
    assert Product([d], 1) == Product([d], 0) * d.extent;
  }

  lemma LocatingSpan(ds: seq<int>, k: nat)
    requires k < |ds| && forall l | 0 <= l < |ds| :: ds[l] > 0
    ensures Tail(ds, k) / ds[k] == Tail(ds, k + 1)
  {
    TailGrows(ds, k);
  }

  lemma LocatingStep(ds: seq<int>, es: seq<int>, us: seq<int>, subs: seq<Sub>, size: int, n: int, dimens: seq<Dimen>,
                     no: int,
                     b: int, ex: int, d: Dimen)
    requires 1 <= n < |ds| && Locating(ds, es, us, subs, n, dimens, no, b, ex, Tail(ds, n - 1))
    requires Units(es, ds, 1) && Units(us, ds, size)
    requires d == Dimen(TripleOf(subs[n]).extent, 0, dimens[n - 1].delta * ds[n - 1], StrideOf(subs[n])) && d.extent > 0
    ensures Locating(ds, es, us, subs, n + 1, dimens + [d], no * d.extent, b + subs[n].x1 * (ex * ds[n - 1]),
                     ex * ds[n - 1],
                     Tail(ds, n))
  {
    ProductGrows(dimens, d);
    assert us[n] == us[n - 1] * ds[n - 1] && es[n] == es[n - 1] * ds[n - 1];
    var xs := Firsts(TriplesOf(subs));
    assert Summed(xs, es, n + 1) == Summed(xs, es, n) + xs[n] * es[n];
  }

  lemma AllPass(ds: seq<int>, lbs: seq<int>, subs: seq<Sub>)
    requires InArray(ds, lbs, TriplesOf(subs)) && forall l | 0 <= l < |ds| :: ds[l] > 0
    ensures forall k | 0 <= k < |ds| :: SpanOf(subs[k]).Some? && 0 <= SpanOf(subs[k]).value < Tail(ds, k)
  {
    forall k | 0 <= k < |ds|
      ensures SpanOf(subs[k]).Some? && 0 <= SpanOf(subs[k]).value < Tail(ds, k)
    {
      InArrayPasses(ds, lbs, subs, k);
    }
  }

  /** The number of elements of the first n dimensions of a section. */
  function Product(dimens: seq<Dimen>, n: nat): int
    requires n <= |dimens|
  {
    if n == 0 then 1 else Product(dimens, n - 1) * dimens[n - 1].extent
  }

  lemma {:induction false} ProductPrefix(a: seq<Dimen>, b: seq<Dimen>, n: nat)
    requires n <= |a| && n <= |b| && forall k | 0 <= k < n :: a[k].extent == b[k].extent
    ensures Product(a, n) == Product(b, n)
  {
    if n != 0 {
      ProductPrefix(a, b, n - 1);
    }
  }

  lemma ProductGrows(dimens: seq<Dimen>, d: Dimen)
    ensures Product(dimens + [d], |dimens| + 1) == Product(dimens, |dimens|) * d.extent
  {
    ProductPrefix(dimens, dimens + [d], |dimens|);
  }

  /** The offset x_rsne computes is that of the first element. */
  lemma LocatedAt(ds: seq<int>, lbs: seq<int>, es: seq<int>, us: seq<int>, ts: seq<Triple>, size: int, fine: bool)
    requires |lbs| == |ts| == |ds| && Units(es, ds, 1) && Units(us, ds, size) && (fine ==> InArray(ds, lbs, ts))
    ensures var n, b := |ds|, Summed(Firsts(ts), es, |ds|) - Summed(lbs, es, |ds|);
            && size * b == Corner(us, lbs, ts, n) && size * Tail(ds, 0) == us[n]
            && (fine ==> 0 <= b < Tail(ds, 0))
  {
    var n, xs := |ds|, Firsts(ts);
    SummedScales(xs, es, us, ds, size, n);
    SummedScales(lbs, es, us, ds, size, n);
    CornerSummed(us, lbs, ts, n);
    TailUnits(es, ds, n);
    assert es[n] * 1 == es[n];
    Difference(size, Summed(xs, es, n), Summed(lbs, es, n));
    if fine {
      CornerSummed(es, lbs, ts, n);
      CornerInside(es, ds, 1, lbs, ts, n);
    }
  }

  lemma Difference(a: int, x: int, y: int)
    ensures a * (x - y) == a * x - a * y
  {}

  predicate Strided(s: Sub) { s.rest.Some? && s.rest.value.1.Some? }

  lemma AdjustedSteps(dimens: seq<Dimen>, was: seq<Dimen>, dn0: nat)
    requires dn0 <= |was| && Adjusted(dimens, was, dn0) && forall l | 0 <= l < |was| ::
               was[l].curval == 0 && was[l].extent > 0
    ensures Stepped(dimens, StepsOf(was), dn0) && forall l | dn0 <= l < |was| :: dimens[l].curval == 0
  {}

  lemma {:induction false} RunLength(p: int, size: int, n: int)
    ensures |Run(p, size, n)| == if n <= 0 then 0 else n
    decreases n
  {
    if n > 0 {
      RunLength(p + size, size, n - 1);
    }
  }

  lemma {:induction false} RunLast(p: int, size: int, n: int)
    requires n > 0
    ensures p in Run(p, size, n) && p + (n - 1) * size in Run(p, size, n)
    decreases n
  {
    if n > 1 {
      RunLast(p + size, size, n - 1);
      assert p + size + (n - 2) * size == p + (n - 1) * size;
    }
  }

  lemma {:induction false} RunsHold(ps: seq<int>, size: int, n: int, p: int, x: int)
    requires p in ps && x in Run(p, size, n)
    ensures x in Runs(ps, size, n)
  {
    if ps[0] != p {
      RunsHold(ps[1..], size, n, p, x);
    }
  }

  lemma {:induction false} ProductPlaces(dimens: seq<Dimen>, k: nat)
    requires k <= |dimens|
    ensures Product(dimens, k) == Places(StepsOf(dimens), 0, k)
  {
    if k != 0 {
      ProductPlaces(dimens, k - 1);
    }
  }

  /** The blocks make up the elements of the section. */
  lemma BlocksCount(was: seq<Dimen>, dn0: nat, size: int, no1: int, at: int)
    requires dn0 <= |was| && no1 > 0 && Contiguous(StepsOf(was), dn0, size, no1) && forall l | 0 <= l < |was| ::
               was[l].extent > 0
    ensures Product(was, |was|) == no1 * |Enum(StepsOf(was), dn0, |was|, at)|
  {
    var ss, n := StepsOf(was), |was|;
    ProductPlaces(was, n);
    PlacesSplit(ss, dn0, n);
    EnumLength(ss, dn0, n, at);
    EnumLength(ss, 0, dn0, at);
    ContiguousAt(ss, dn0, size, no1, at);
    RunLength(at, size, no1);
  }

  lemma SectionBlocks(ds: seq<int>, lbs: seq<int>, us: seq<int>, ts: seq<Triple>, was: seq<Dimen>, start: int, len: int,
                      dn0: nat, no1: int, at: int)
    requires |ds| == |lbs| == |ts| < |us| && Dimensioned(was, ts, us, |ds|) && dn0 <= |was|
    requires Contiguous(StepsOf(was), dn0, len, no1) && at == Corner(us, lbs, ts, |ds|) + start
    ensures Runs(Enum(StepsOf(was), dn0, |was|, at), len, no1) == Chosen(us, lbs, ts, |ds|, start)
  {
    ChosenIsEnum(us, lbs, ts, StepsOf(was), |ds|, start);
    EnumSplits(StepsOf(was), dn0, |ds|, at, len, no1);
  }

  lemma SectionFits(ds: seq<int>, lbs: seq<int>, us: seq<int>, ts: seq<Triple>, was: seq<Dimen>, size: int, start: int,
                    len: int, dn0: nat, no1: int, at: int)
    requires Units(us, ds, size) && InArray(ds, lbs, ts) && Dimensioned(was, ts, us, |ds|)
    requires 0 <= start && len > 0 && start + len <= size && dn0 <= |was| && no1 > 0
    requires Contiguous(StepsOf(was), dn0, len, no1) && at == Corner(us, lbs, ts, |ds|) + start
    ensures var ps, all := Enum(StepsOf(was), dn0, |was|, at), Chosen(us, lbs, ts, |ds|, start);
            Runs(ps, len, no1) == all && Distinct(all) && Fits(ps, no1 * len, us[|ds|])
  {
    SectionBlocks(ds, lbs, us, ts, was, start, len, dn0, no1, at);
    assert Distinct(Chosen(us, lbs, ts, |ds|, start)) by {
      ChosenDistinct(us, ds, size, lbs, ts, |ds|, start);
    }
    assert Fits(Enum(StepsOf(was), dn0, |was|, at), no1 * len, us[|ds|]) by {
      ChosenInside(us, ds, size, lbs, ts, |ds|, start);
      BlocksFit(Enum(StepsOf(was), dn0, |was|, at), len, no1, size, start, us[|ds|]);
    }
  }

  /** Blocks whose elements lie in the array lie in it. */
  lemma BlocksFit(ps: seq<int>, len: int, no1: int, size: int, start: int, end: int)
    requires 0 <= start && len > 0 && start + len <= size && no1 > 0
    requires forall x | x in Runs(ps, len, no1) :: Inside(x, size, start, end)
    ensures Fits(ps, no1 * len, end)
  {
    forall p | p in ps
      ensures 0 <= p && p + no1 * len <= end
    {
      RunLast(p, len, no1);
      RunsHold(ps, len, no1, p, p);
      RunsHold(ps, len, no1, p, p + (no1 - 1) * len);
      assert (no1 - 1) * len == no1 * len - len;
      assert Inside(p + (no1 - 1) * len, size, start, end) && Inside(p, size, start, end);
    }
  }
}
