// What decimal numerals amount to, and the canonical numeral of each amount.
module DecimalValue {
  import opened Decimals
  import opened Numerals
  import opened Options
  import opened Powers
  import opened Scanning
  import opened Seqs

  // ----- exact values -----

  /** m with its decimal point moved e places to the right: m times ten to the power e. */
  function Shifted(m: int, e: int): real
    decreases if e < 0 then -e else e
  {
    if e == 0 then m as real else if e > 0 then 10.0 * Shifted(m, e - 1) else Shifted(m, e + 1) / 10.0
  }

  lemma {:induction false} ShiftedTen(m: int, e: int)
    ensures Shifted(10 * m, e) == 10.0 * Shifted(m, e) == Shifted(m, e + 1)
    decreases if e < 0 then -e else e
  {
    if e > 0 {
      ShiftedTen(m, e - 1);
    } else if e < 0 {
      ShiftedTen(m, e + 1);
    }
  }

  lemma {:induction false} ShiftedMore(m: int, e: int, k: nat)
    ensures Shifted(m * Power(10, k), e) == Shifted(m, e + k)
  {
    if k == 0 {
      assert m * Power(10, 0) == m;
    } else {
      ShiftedMore(m, e, k - 1);
      ShiftedTen(m, e + k - 1);
      ShiftedTen(m * Power(10, k - 1), e);
      TenTimes(m, Power(10, k - 1));
    }
  }

  lemma TenTimes(m: int, p: int)
    ensures m * (10 * p) == 10 * (m * p)
  {}

  lemma {:induction false} ShiftedZero(e: int)
    ensures Shifted(0, e) == 0.0
    decreases if e < 0 then -e else e
  {
    if e > 0 {
      ShiftedZero(e - 1);
    } else if e < 0 {
      ShiftedZero(e + 1);
    }
  }

  lemma {:induction false} ShiftedUnique(m: int, n: int, e: int)
    ensures Shifted(m, e) == Shifted(n, e) <==> m == n
    decreases if e < 0 then -e else e
  {
    if e > 0 {
      ShiftedUnique(m, n, e - 1);
    } else if e < 0 {
      ShiftedUnique(m, n, e + 1);
    }
  }

  function All(n: Numeral): (s: string)
    ensures Valid(n) ==> AllDigits(s)
  {
    n.whole + if n.frac.Some? then n.frac.value else ""
  }

  /** The place of its last digit. */
  function Scale(n: Numeral): int
    requires Valid(n)
  {
    ExpValue(n.exp) - if n.frac.Some? then |n.frac.value| else 0
  }

  function ExpValue(exp: Option<Exp>): int
    requires exp.Some? ==> ValidExp(exp.value)
  {
    if exp.None? then 0
    else
      var v: int := Value(exp.value.digits, 10);
      if exp.value.sign == Some('-') then -v else v
  }

  function Amount(n: Numeral): real
    requires Valid(n)
  {
    Shifted(Value(All(n), 10), Scale(n))
  }

  // ----- normal form -----

  function Stripped(s: string): string { s[Run(s, IsZero)..] }

  /** The zeros at the end. */
  function Trail(s: string): (k: nat)
    ensures k <= |s|
  {
    if s != "" && s[|s| - 1] == '0' then 1 + Trail(s[..|s| - 1]) else 0
  }

  function Core(s: string): string { Stripped(s)[..|Stripped(s)| - Trail(Stripped(s))] }

  /** A sign, digits without zeros at either end, and the place of the last one. */
  datatype Decimal = Decimal(neg: bool, db: string, ex: int)

  predicate Normal(d: Decimal) {
    && AllDigits(d.db) && (d.db == "" ==> d.ex == 0)
    && (d.db != "" ==> d.db[0] != '0' && d.db[|d.db| - 1] != '0')
  }

  function NormalOf(n: Numeral): Decimal
    requires Valid(n)
  {
    var core := Core(All(n));
    Decimal(n.sign == Some('-'), core, if core == "" then 0 else Scale(n) + Trail(Stripped(All(n))))
  }

  lemma {:induction false} TrailIs(s: string)
    ensures s == s[..|s| - Trail(s)] + Zeros(Trail(s))
    ensures var t := s[..|s| - Trail(s)]; t == "" || t[|t| - 1] != '0'
  {
    if s != "" && s[|s| - 1] == '0' {
      var init, k := s[..|s| - 1], Trail(s[..|s| - 1]);
      TrailIs(init);
      MoreZeros(init[..|init| - k], k);
      assert s == init + "0" && s[..|s| - Trail(s)] == init[..|init| - k];
    } else {
      assert s[..|s|] + Zeros(0) == s;
    }
  }

  lemma MoreZeros(s: string, k: nat)
    ensures s + Zeros(k) + "0" == s + Zeros(k + 1)
  {}

  lemma CoreIs(s: string)
    requires AllDigits(s)
    ensures var core, lead, tail := Core(s), Run(s, IsZero), Trail(Stripped(s));
            && s == Zeros(lead) + (core + Zeros(tail)) && AllDigits(core)
            && (core != "" ==> core[0] != '0' && core[|core| - 1] != '0') && (core == "" ==> tail == 0)
  {
    LeadIs(s);
    forall k | 0 <= k < |Stripped(s)|
      ensures IsDigit(Stripped(s)[k])
    {
      assert Stripped(s)[k] == s[Run(s, IsZero) + k];
    }
    CoreOf(Stripped(s));
  }

  lemma CoreOf(t: string)
    requires AllDigits(t) && (t != "" ==> t[0] != '0')
    ensures var core := t[..|t| - Trail(t)];
            && t == core + Zeros(Trail(t)) && AllDigits(core)
            && (core != "" ==> core[0] != '0' && core[|core| - 1] != '0') && (core == "" ==> Trail(t) == 0)
  {
    TrailIs(t);
    var core := t[..|t| - Trail(t)];
    if core == "" {
      assert "" + Zeros(Trail(t)) == Zeros(Trail(t));
    }
  }

  lemma LeadIs(s: string)
    ensures s == Zeros(Run(s, IsZero)) + Stripped(s) && (Stripped(s) != "" ==> Stripped(s)[0] != '0')
  {
    RunKind(s, IsZero);
    assert s[..Run(s, IsZero)] == Zeros(Run(s, IsZero));
    assert s == s[..Run(s, IsZero)] + Stripped(s);
  }

  lemma ValueLead(k: nat, s: string)
    requires AllDigits(s)
    ensures AllDigits(Zeros(k) + s) && Value(Zeros(k) + s, 10) == Value(s, 10)
  {
    ValueZeros(Zeros(k), 10);
    ValueAppend(Zeros(k), s, 10);
  }

  lemma ValueTail(s: string, k: nat)
    requires AllDigits(s)
    ensures AllDigits(s + Zeros(k)) && Value(s + Zeros(k), 10) == Value(s, 10) * Power(10, k)
  {
    ValueZeros(Zeros(k), 10);
    ValueAppend(s, Zeros(k), 10);
  }

  /** The normal form of a numeral is one, and has its value. */
  lemma NormalKeeps(n: Numeral)
    requires Valid(n)
    ensures Normal(NormalOf(n)) && Amount(n) == Shifted(Value(NormalOf(n).db, 10), NormalOf(n).ex)
  {
    NormalIs(n);
    ShiftedCore(All(n), Scale(n));
  }

  lemma NormalIs(n: Numeral)
    requires Valid(n)
    ensures AllDigits(All(n)) && Normal(NormalOf(n))
  {
    CoreIs(All(n));
  }

  lemma ShiftedCore(s: string, e: int)
    requires AllDigits(s) && AllDigits(Core(s))
    ensures var ex := if Core(s) == "" then 0 else e + Trail(Stripped(s));
            Shifted(Value(s, 10), e) == Shifted(Value(Core(s), 10), ex)
  {
    CoreValue(s);
    if Core(s) == "" {
      ShiftedZero(e);
      ShiftedZero(0);
    } else {
      ShiftedMore(Value(Core(s), 10), e, Trail(Stripped(s)));
    }
  }

  lemma CoreValue(s: string)
    requires AllDigits(s)
    ensures AllDigits(Core(s)) && Value(s, 10) == Value(Core(s), 10) * Power(10, Trail(Stripped(s)))
    ensures Core(s) == "" ==> Value(s, 10) == 0
  {
    CoreIs(s);
    ValueTail(Core(s), Trail(Stripped(s)));
    ValueLead(Run(s, IsZero), Core(s) + Zeros(Trail(Stripped(s))));
  }

  // ----- normal forms differ in value -----

  lemma {:induction false} ValuePositive(s: string)
    requires AllDigits(s) && s != "" && s[0] != '0'
    ensures Value(s, 10) > 0
  {
    if |s| > 1 {
      ValuePositive(s[..|s| - 1]);
    }
  }

  /** Digits without zeros in front are determined by their value. */
  lemma {:induction false} ValueUnique(a: string, b: string)
    requires AllDigits(a) && AllDigits(b) && (a == "" || a[0] != '0') && (b == "" || b[0] != '0')
    requires Value(a, 10) == Value(b, 10)
    ensures a == b
  {
    if a == "" {
      if b != "" { ValuePositive(b); }
    } else if b == "" {
      ValuePositive(a);
    } else {
      var a', b' := a[..|a| - 1], b[..|b| - 1];
      LastDigits(Value(a', 10), DigitOf(a[|a| - 1]), Value(b', 10), DigitOf(b[|b| - 1]));
      ValueUnique(a', b');
      assert a == a' + [a[|a| - 1]] && b == b' + [b[|b| - 1]];
    }
  }

  lemma LastDigits(u: nat, c: nat, v: nat, d: nat)
    requires u * 10 + c == v * 10 + d && c < 10 && d < 10
    ensures u == v && c == d
  {}

  /** A normal form amounts to zero only without digits, and no power of ten times another. */
  lemma NotTenfold(db: string, m: int, k: nat)
    requires AllDigits(db) && db != "" && db[|db| - 1] != '0' && k > 0
    ensures Value(db, 10) != m * Power(10, k)
  {
    var p := m * Power(10, k - 1);
    assert m * Power(10, k) == 10 * p;
    var last := DigitOf(db[|db| - 1]);
    assert Value(db, 10) == Value(db[..|db| - 1], 10) * 10 + last && 0 < last < 10;
  }

  /** Normal forms of the same amount are the same. */
  lemma NormalUnique(a: Decimal, b: Decimal)
    requires Normal(a) && Normal(b) && Shifted(Value(a.db, 10), a.ex) == Shifted(Value(b.db, 10), b.ex)
    ensures a.db == b.db && a.ex == b.ex
  {
    if a.ex <= b.ex {
      NormalOrdered(a, b);
    } else {
      NormalOrdered(b, a);
    }
  }

  lemma NormalOrdered(a: Decimal, b: Decimal)
    requires Normal(a) && Normal(b) && Shifted(Value(a.db, 10), a.ex) == Shifted(Value(b.db, 10), b.ex)
    requires a.ex <= b.ex
    ensures a.db == b.db && a.ex == b.ex
  {
    var k := b.ex - a.ex;
    ShiftedMore(Value(b.db, 10), a.ex, k);
    ShiftedUnique(Value(a.db, 10), Value(b.db, 10) * Power(10, k), a.ex);
    if k == 0 {
      ValueUnique(a.db, b.db);
    } else if a.db != "" {
      NotTenfold(a.db, Value(b.db, 10), k);
    } else if b.db != "" {
      ValuePositive(b.db);
      PowerPositive(k);
    }
  }

  lemma {:induction false} PowerPositive(k: nat)
    ensures Power(10, k) > 0
  {
    if k != 0 {
      PowerPositive(k - 1);
    }
  }
}
