// cds of src/cds.c: the canonical numeral of a decimal numeral, as a function of its text and as
// the loops of the source.
module CanonicalDecimal {
  import opened Decimals
  import opened DecimalValue
  import opened Numerals
  import opened Options
  import opened Powers
  import opened Scanning
  import opened Seqs

  /** The canonical numeral of a normal form: an exponent only where it saves space. */
  function Shown(d: Decimal): string
    requires Normal(d)
  {
    (if d.neg then "-" else "") + Unsigned(d.db, d.ex)
  }

  predicate Scientific(db: string, ex: int) { ex > 2 || ex + |db| < -2 }

  function Unsigned(db: string, ex: int): string {
    var k := ex + |db|;
    if db == "" then "0."
    else if Scientific(db, ex) then [db[0]] + ((if |db| > 1 then "." + db[1..] else "") + ("e" + ShowInt(k - 1)))
    else if ex >= 0 then db + (Zeros(ex) + ".")
    else if k >= 0 then db[..k] + ("." + db[k..])
    else "." + (Zeros(-k) + db)
  }

  /** An exponent is written for numbers of 1000 and more that end in more than two zeros, and for those with
      more than two zeros behind the point. */
  lemma WhenExponent(d: Decimal)
    requires Normal(d)
    ensures 'e' in Shown(d) <==> d.db != "" && (d.ex > 2 || d.ex + |d.db| < -2)
  {
    var u := Unsigned(d.db, d.ex);
    assert 'e' in Shown(d) <==> 'e' in u;
    assert forall k | 0 <= k < |d.db| :: d.db[k] != 'e';
    if d.db != "" && (d.ex > 2 || d.ex + |d.db| < -2) {
      var tail := "e" + ShowInt(d.ex + |d.db| - 1);
      assert tail[0] == 'e';
      assert 'e' in tail;
    }
  }

  /** That numeral, taken apart. */
  function Spelling(d: Decimal): Numeral
    requires Normal(d)
  {
    var sign, db, ex := if d.neg then Some('-') else None, d.db, d.ex;
    var k := ex + |db|;
    if db == "" then Numeral(0, sign, "0", Some(""), None)
    else if Scientific(db, ex) then
      Numeral(0, sign, [db[0]], if |db| > 1 then Some(db[1..]) else None, Some(ShownExp(k - 1)))
    else if ex >= 0 then Numeral(0, sign, db + Zeros(ex), Some(""), None)
    else if k >= 0 then Numeral(0, sign, db[..k], Some(db[k..]), None)
    else Numeral(0, sign, "", Some(Zeros(-k) + db), None)
  }

  function ShownExp(e: int): Exp { if e < 0 then Exp("e", Some('-'), Show(-e, 10)) else Exp("e", None, Show(e, 10)) }

  lemma ShownExpIs(e: int)
    ensures ValidExp(ShownExp(e)) && ExpText(Some(ShownExp(e))) == "e" + ShowInt(e) && ExpValue(Some(ShownExp(e))) == e
  {
    if e < 0 {
      ShowValue(-e, 10);
    } else {
      ShowValue(e, 10);
      UnsignedExp(Show(e, 10));
    }
  }

  lemma UnsignedExp(digits: string)
    ensures ExpText(Some(Exp("e", None, digits))) == "e" + digits
  {
    assert "" + digits == digits;
  }

  lemma {:induction false} TrailZeros(db: string, k: nat)
    requires db == "" || db[|db| - 1] != '0'
    ensures Trail(db + Zeros(k)) == k
  {
    if k == 0 {
      assert db + Zeros(0) == db;
    } else {
      TrailZeros(db, k - 1);
      assert (db + Zeros(k))[..|db| + k - 1] == db + Zeros(k - 1);
    }
  }

  /** Zeros around do not change the core. */
  lemma CorePadded(lead: nat, db: string, tail: nat)
    requires db != "" && db[0] != '0' && db[|db| - 1] != '0'
    ensures var s := Zeros(lead) + (db + Zeros(tail)); Core(s) == db && Trail(Stripped(s)) == tail
  {
    var s := Zeros(lead) + (db + Zeros(tail));
    RunOver(Zeros(lead), db + Zeros(tail), IsZero);
    assert Stripped(s) == db + Zeros(tail);
    TrailZeros(db, tail);
  }

  lemma CoreOfZeros(k: nat)
    ensures Core(Zeros(k)) == ""
  {
    RunOver(Zeros(k), "", IsZero);
    assert Zeros(k) + "" == Zeros(k);
  }

  // ----- the numeral written is that of the normal form -----

  lemma NoZeros(sign: Option<char>, whole: string, frac: Option<string>, exp: Option<Exp>)
    ensures Text(Numeral(0, sign, whole, frac, exp)) == SignText(sign) + (whole + (FracText(frac) + ExpText(exp)))
  {
    var t := SignText(sign) + (whole + (FracText(frac) + ExpText(exp)));
    assert Zeros(0) + t == t;
  }

  lemma SpellingText(d: Decimal)
    requires Normal(d)
    ensures Text(Spelling(d)) == Shown(d)
  {
    var n, k := Spelling(d), d.ex + |d.db|;
    NoZeros(n.sign, n.whole, n.frac, n.exp);
    BodyOf(d.db, d.ex, n);
  }

  lemma BodyOf(db: string, ex: int, n: Numeral)
    requires Normal(Decimal(false, db, ex)) && n.(sign := None) == Spelling(Decimal(false, db, ex))
    ensures n.whole + (FracText(n.frac) + ExpText(n.exp)) == Unsigned(db, ex)
  {
    if db == "" {
      assert "0" + ("." + "" + "") == "0.";
    } else if Scientific(db, ex) {
      ShownExpIs(ex + |db| - 1);
    } else {
      PointOf(db, ex, n);
    }
  }

  lemma PointOf(db: string, ex: int, n: Numeral)
    requires Normal(Decimal(false, db, ex)) && n.(sign := None) == Spelling(Decimal(false, db, ex))
    requires db != "" && !Scientific(db, ex)
    ensures n.whole + (FracText(n.frac) + ExpText(n.exp)) == Unsigned(db, ex)
  {
    assert FracText(n.frac) + "" == FracText(n.frac);
    if ex >= 0 {
      assert "." + "" == ".";
      AppendAssoc(db, Zeros(ex), ".");
    } else if ex + |db| < 0 {
      assert "" + FracText(n.frac) == FracText(n.frac);
    }
  }

  lemma SpellingNormal(d: Decimal)
    requires Normal(d)
    ensures Valid(Spelling(d)) && NormalOf(Spelling(d)) == d
  {
    var n := Spelling(d);
    SpellingValid(d);
    if d.db == "" {
      CoreOfZeros(1);
      assert All(n) == Zeros(1);
    } else {
      SpellingCore(d);
      SpellingScale(d);
    }
  }

  lemma SpellingValid(d: Decimal)
    requires Normal(d)
    ensures Valid(Spelling(d))
  {
    if d.db == "" {
    } else if Scientific(d.db, d.ex) {
      ShownExpIs(d.ex + |d.db| - 1);
    } else {
      PointValid(d);
    }
  }

  lemma PointValid(d: Decimal)
    requires Normal(d) && d.db != "" && !Scientific(d.db, d.ex)
    ensures Valid(Spelling(d))
  {}

  /** The zeros around the digits. */
  function Lead(d: Decimal): nat { if !Scientific(d.db, d.ex) && d.ex + |d.db| < 0 then -(d.ex + |d.db|) else 0 }

  function Tail(d: Decimal): nat { if !Scientific(d.db, d.ex) && d.ex >= 0 then d.ex else 0 }

  lemma SpellingAll(d: Decimal)
    requires Normal(d) && d.db != ""
    ensures All(Spelling(d)) == Zeros(Lead(d)) + (d.db + Zeros(Tail(d)))
  {
    if Scientific(d.db, d.ex) || (d.ex + |d.db| >= 0 && d.ex < 0) {
      BareAll(d);
    } else if d.ex >= 0 {
      TailAll(d);
    } else {
      LeadAll(d);
    }
  }

  lemma BareAll(d: Decimal)
    requires Normal(d) && d.db != "" && (Scientific(d.db, d.ex) || (d.ex + |d.db| >= 0 && d.ex < 0))
    ensures All(Spelling(d)) == Zeros(Lead(d)) + (d.db + Zeros(Tail(d)))
  {
    assert Zeros(0) + (d.db + Zeros(0)) == d.db;
    assert All(Spelling(d)) == d.db;
  }

  lemma TailAll(d: Decimal)
    requires Normal(d) && d.db != "" && !Scientific(d.db, d.ex) && d.ex >= 0
    ensures All(Spelling(d)) == Zeros(Lead(d)) + (d.db + Zeros(Tail(d)))
  {
    assert Zeros(0) + (d.db + Zeros(d.ex)) == d.db + Zeros(d.ex) == d.db + Zeros(d.ex) + "";
  }

  lemma LeadAll(d: Decimal)
    requires Normal(d) && d.db != "" && !Scientific(d.db, d.ex) && d.ex + |d.db| < 0
    ensures All(Spelling(d)) == Zeros(Lead(d)) + (d.db + Zeros(Tail(d)))
  {
    assert d.db + Zeros(0) == d.db;
    assert "" + (Zeros(Lead(d)) + d.db) == Zeros(Lead(d)) + d.db;
  }

  lemma SpellingCore(d: Decimal)
    requires Normal(d) && d.db != ""
    ensures var all := All(Spelling(d)); Core(all) == d.db && Trail(Stripped(all)) == Tail(d)
  {
    SpellingAll(d);
    CorePadded(Lead(d), d.db, Tail(d));
  }

  lemma SpellingScale(d: Decimal)
    requires Normal(d) && d.db != "" && Valid(Spelling(d))
    ensures Scale(Spelling(d)) + Tail(d) == d.ex
  {
    if Scientific(d.db, d.ex) {
      ShownExpIs(d.ex + |d.db| - 1);
    }
  }

  // ----- the canonical numeral -----

  /** cds; None: the text is no numeral, which ends the run. */
  function Canonical(s: string): Option<string> {
    match Parse(s)
    case None => None
    case Some(n) =>
      ParsedText(s);
      NormalIs(n);
      Some(Shown(NormalOf(n)))
  }

  /** Exactly the numerals are accepted. */
  lemma AcceptsNumerals(s: string)
    ensures Canonical(s).Some? <==> exists n :: Valid(n) && Text(n) == s
  {
    if n :| Valid(n) && Text(n) == s {
      TextParses(n);
    }
    if Parse(s).Some? {
      ParsedText(s);
    }
  }

  /** The result is a numeral of the same sign and the same exact value. */
  lemma CanonicalKeeps(s: string)
    requires Canonical(s).Some?
    ensures Parse(s).Some? && Parse(Canonical(s).value).Some?
    ensures var n, r := Parse(s).value, Parse(Canonical(s).value).value;
            Valid(n) && Valid(r) && Amount(r) == Amount(n) && NormalOf(r) == NormalOf(n)
  {
    var n := Parse(s).value;
    ParsedText(s);
    NormalKeeps(n);
    var d := NormalOf(n);
    SpellingText(d);
    SpellingNormal(d);
    TextParses(Spelling(d));
    NormalKeeps(Spelling(d));
  }

  /** Doing it again changes nothing. */
  lemma CanonicalTwice(s: string)
    requires Canonical(s).Some?
    ensures Canonical(Canonical(s).value) == Canonical(s)
  {
    CanonicalKeeps(s);
  }

  /** Two numerals have the same canonical numeral if and only if their signs and exact values agree. */
  lemma CanonicalDecides(s: string, t: string)
    requires Canonical(s).Some? && Canonical(t).Some?
    ensures Parse(s).Some? && Parse(t).Some? && Valid(Parse(s).value) && Valid(Parse(t).value)
    ensures var m, n := Parse(s).value, Parse(t).value;
            Canonical(s) == Canonical(t) <==>
              (m.sign == Some('-') <==> n.sign == Some('-')) && Amount(m) == Amount(n)
  {
    CanonicalKeeps(s);
    CanonicalKeeps(t);
    var m, n := Parse(s).value, Parse(t).value;
    NormalKeeps(m);
    NormalKeeps(n);
    if Amount(m) == Amount(n) {
      NormalUnique(NormalOf(m), NormalOf(n));
    }
  }
}
