// The loops of cds in src/cds.c, which find the digits and the place of the last one in a single
// pass, and write the canonical numeral.
module Cds {
  import opened CanonicalDecimal
  import opened Decimals
  import opened DecimalValue
  import opened Numerals
  import opened Options
  import opened Scanning
  import opened Seqs

  /** The characters of a C string, which ends in a NUL. */
  function At(s: string, i: nat): char { if i < |s| then s[i] else '\0' }

  predicate NoNul(s: string) { forall k | 0 <= k < |s| :: s[k] != '\0' }

  /** db and tz after the digits all: the zeros at the end wait in tz, those in front are dropped. */
  ghost predicate Scanned(all: string, db: string, tz: nat) {
    && AllDigits(all) && AllDigits(db)
    && (db == "" ==> AllZeros(all))
    && (db != "" ==> db[0] != '0' && db[|db| - 1] != '0' && Stripped(all) == db + Zeros(tz))
  }

  lemma StrippedMore(all: string, c: char)
    ensures AllZeros(all) && c != '0' ==> Stripped(all + [c]) == [c]
    ensures !AllZeros(all) ==> Stripped(all + [c]) == Stripped(all) + [c]
  {
    if AllZeros(all) {
      if c != '0' {
        RunOver(all, [c], IsZero);
      }
    } else {
      var k := Run(all, IsZero);
      RunKind(all, IsZero);
      assert k == |all| ==> AllZeros(all);
      RunOver(all[..k], all[k..] + [c], IsZero);
      assert all + [c] == all[..k] + (all[k..] + [c]);
    }
  }

  lemma ScannedZero(all: string, db: string, tz: nat)
    requires Scanned(all, db, tz)
    ensures Scanned(all + "0", db, tz + 1)
  {
    if db != "" {
      NotAllZeros(all, db, tz);
      StrippedMore(all, '0');
      assert db + Zeros(tz) + "0" == db + Zeros(tz + 1);
    }
  }

  lemma ScannedDigit(all: string, db: string, tz: nat, c: char)
    requires Scanned(all, db, tz) && IsDigit(c) && c != '0'
    ensures Scanned(all + [c], (if db == "" then "" else db + Zeros(tz)) + [c], 0)
  {
    StrippedMore(all, c);
    if db != "" {
      NotAllZeros(all, db, tz);
      assert db + Zeros(tz) + [c] + Zeros(0) == db + Zeros(tz) + [c];
    } else {
      assert "" + [c] + Zeros(0) == [c];
    }
  }

  lemma NotAllZeros(all: string, db: string, tz: nat)
    requires Scanned(all, db, tz) && db != ""
    ensures !AllZeros(all)
  {
    var k := Run(all, IsZero);
    assert all[k] == Stripped(all)[0] == db[0];
  }

  /** At the end they are the core and the zeros behind it. */
  lemma ScannedCore(all: string, db: string, tz: nat)
    requires Scanned(all, db, tz)
    ensures Core(all) == db && (db != "" ==> Trail(Stripped(all)) == tz)
  {
    if db == "" {
      CoreOfZeros(|all|);
      assert all == Zeros(|all|);
    } else {
      TrailZeros(db, tz);
    }
  }

  lemma NoneWaiting(db: string)
    ensures db + Zeros(0) == db
  {}

  /** Zeros that waited are stored. */
  method Store(db0: string, tz0: nat) returns (db: string)
    ensures db == db0 + Zeros(tz0)
  {
    var tz := tz0;
    db := db0;
    while tz > 0
      invariant 0 <= tz <= tz0 && db == db0 + Zeros(tz0 - tz)
    {
      assert db0 + Zeros(tz0 - tz) + "0" == db0 + Zeros(tz0 - tz + 1);
      db := db + "0";
      tz := tz - 1;
    }
  }

  /** The loop over the digits before the point; lead is what was skipped. */
  method WholeLoop(s: string, i0: nat, ghost lead: string) returns (db: string, tz: nat, i: nat)
    requires i0 <= |s| && AllZeros(lead)
    ensures i0 <= i <= |s| && AllDigits(s[i0..i]) && !IsDigit(At(s, i)) && Scanned(lead + s[i0..i], db, tz)
  {
    db, tz, i := "", 0, i0;
    assert lead + s[i0..i] == lead;
    while IsDigit(At(s, i))
      invariant i0 <= i <= |s| && AllDigits(s[i0..i]) && Scanned(lead + s[i0..i], db, tz)
      decreases |s| - i
    {
      ghost var all, c := lead + s[i0..i], s[i];
      assert s[i0..i + 1] == s[i0..i] + [c] && lead + s[i0..i + 1] == all + [c];
      if At(s, i) == '0' {
        ScannedZero(all, db, tz);
        tz := tz + 1;
      } else {
        ScannedDigit(all, db, tz, c);
        if db != "" {
          db := Store(db, tz);
        }
        db := db + [At(s, i)];
        tz := 0;
      }
      i := i + 1;
    }
  }

  /** The loop over the digits behind the point: ea counts how far the last digit stored is behind it. */
  method FracLoop(s: string, i0: nat, ghost whole: string, db0: string, tz0: nat, ea0: int)
    returns (db: string, tz: nat, ea: int, i: nat)
    requires i0 <= |s| && Scanned(whole, db0, tz0) && ea0 + tz0 == 0
    ensures i0 <= i <= |s| && AllDigits(s[i0..i]) && !IsDigit(At(s, i)) && Scanned(whole + s[i0..i], db, tz)
    ensures ea + tz == i - i0
  {
    db, tz, ea, i := db0, tz0, ea0, i0;
    assert whole + s[i0..i] == whole;
    while IsDigit(At(s, i))
      invariant i0 <= i <= |s| && AllDigits(s[i0..i]) && Scanned(whole + s[i0..i], db, tz)
      invariant ea + tz == i - i0
      decreases |s| - i
    {
      ghost var all, c := whole + s[i0..i], s[i];
      assert s[i0..i + 1] == s[i0..i] + [c] && whole + s[i0..i + 1] == all + [c];
      if At(s, i) == '0' {
        ScannedZero(all, db, tz);
        tz := tz + 1;
      } else {
        ScannedDigit(all, db, tz, c);
        NoneWaiting(db);
        if tz > 0 {
          ea := ea + tz;
          if db != "" {
            db := Store(db, tz);
          }
          tz := 0;
        }
        db := db + [At(s, i)];
        ea := ea + 1;
      }
      i := i + 1;
    }
  }

  /** The exponent, up to the end of the text. */
  method ExpLoop(s: string, i0: nat) returns (ok: bool, ex: int)
    requires i0 <= |s| && NoNul(s)
    ensures ok <==> ParseExp(s[i0..]).Some?
    ensures ok ==> (ParseExp(s[i0..]).value.Some? ==> ValidExp(ParseExp(s[i0..]).value.value))
    ensures ok ==> ex == ExpValue(ParseExp(s[i0..]).value)
  {
    var i, esign := i0, false;
    ghost var y := s[i0..];
    ex := 0;
    if !IsMark(At(s, i)) && !IsSign(At(s, i)) {
      return At(s, i) == '\0', 0;
    }
    esign := At(s, i) == '-';
    var letter := IsMark(At(s, i));
    i := i + 1;
    if letter && IsSign(At(s, i)) {
      esign := At(s, i) == '-';
      i := i + 1;
    }
    ok, ex := ExpDigits(s, i);
    if esign {
      ex := -ex;
    }
    ExpIs(y, s[i..], letter, i - i0);
  }

  /** What ParseExp makes of a letter or a sign and what follows. */
  lemma ExpIs(y: string, digits: string, letter: bool, skipped: nat)
    requires y != "" && (letter <==> IsMark(y[0])) && (IsMark(y[0]) || IsSign(y[0]))
    requires skipped == (if letter && |y| > 1 && IsSign(y[1]) then 2 else 1) && digits == y[skipped..]
    ensures ParseExp(y).Some? <==> AllDigits(digits)
    ensures AllDigits(digits) ==>
              var sign := if skipped == 2 then Some(y[1]) else if letter then None else Some(y[0]);
              ParseExp(y) == Some(Some(Exp(if letter then y[..1] else "", sign, digits)))
  {
    if letter && skipped == 2 {
      assert y[1..][1..] == digits;
    }
  }

  method ExpDigits(s: string, i0: nat) returns (ok: bool, ex: nat)
    requires i0 <= |s| && NoNul(s)
    ensures ok <==> AllDigits(s[i0..])
    ensures ok ==> ex == Value(s[i0..], 10)
  {
    var i := i0;
    ex := 0;
    while IsDigit(At(s, i))
      invariant i0 <= i <= |s| && AllDigits(s[i0..i]) && ex == Value(s[i0..i], 10)
      decreases |s| - i
    {
      ValueSnoc(s[i0..i], s[i], 10);
      assert s[i0..i + 1] == s[i0..i] + [s[i]];
      ex := 10 * ex + DigitOf(At(s, i));
      i := i + 1;
    }
    ok := At(s, i) == '\0';
    if ok {
      assert s[i0..i] == s[i0..];
    } else {
      assert s[i0..][i - i0] == s[i];
    }
  }

  // ----- writing -----

  /** The end of cds: z is written character by character, with the sign in front. */
  method Write(sign: bool, db: string, ex: int) returns (z: string)
    requires Normal(Decimal(sign, db, ex))
    ensures z == Shown(Decimal(sign, db, ex))
  {
    if db == "" {
      z := "-0.";
      assert z == "-" + Unsigned(db, ex);
    } else if ex > 2 || ex + |db| < -2 {
      z := WithExponent(db, ex);
    } else {
      z := Plain(db, ex);
    }
    if !sign {
      z := z[1..];
      assert "" + Unsigned(db, ex) == Unsigned(db, ex);
    }
  }

  /** The form with an exponent, behind a minus sign. */
  method WithExponent(db: string, ex: int) returns (z: string)
    requires db != "" && Scientific(db, ex)
    ensures z == "-" + Unsigned(db, ex)
  {
    var nd, ebuf := |db|, ShowInt(ex + |db| - 1);
    z := "-";
    z := z + [db[0]];
    if nd > 1 {
      z := z + ".";
      z := Append(z, db, 1, nd);
      Joined("-", [db[0]], ".", db[1..], "e" + ebuf);
    } else {
      AppendAssoc("-", [db[0]], "e" + ebuf);
      assert "" + ("e" + ebuf) == "e" + ebuf;
    }
    AppendAssoc(z, "e", ebuf);
    z := z + "e";
    z := z + ebuf;
  }

  lemma Joined(a: string, b: string, c: string, d: string, e: string)
    ensures (((a + b) + c) + d) + e == a + (b + ((c + d) + e))
  {}

  /** db[k..end] is appended. */
  method Append(z0: string, db: string, k0: nat, end: nat) returns (z: string)
    requires k0 <= end <= |db|
    ensures z == z0 + db[k0..end]
  {
    var k := k0;
    z := z0;
    while k < end
      invariant k0 <= k <= end && z == z0 + db[k0..k]
    {
      assert z0 + db[k0..k] + [db[k]] == z0 + db[k0..k + 1];
      z := z + [db[k]];
      k := k + 1;
    }
  }

  /** The form without an exponent, behind a minus sign. */
  method Plain(db: string, ex0: int) returns (z: string)
    requires db != "" && !Scientific(db, ex0)
    ensures z == "-" + Unsigned(db, ex0)
  {
    var nd, ex := |db|, ex0;
    var k := ex + nd;
    z := "-";
    if ex >= 0 {
      z := Append(z, db, 0, nd);
      z := Store(z, ex);
      z := z + ".";
      assert z == "-" + (db + (Zeros(ex0) + "."));
    } else {
      var i := 0;
      if k > 0 {
        z := Append(z, db, 0, k);
        i := k;
      }
      z := z + ".";
      z := Store(z, if k < 0 then -k else 0);
      z := Append(z, db, i, nd);
      assert if k >= 0 then z == "-" + (db[..k] + ("." + db[k..])) else z == "-" + ("." + (Zeros(-k) + db));
    }
  }

  // ----- cds -----

  /** What stands behind the zeros and the sign at the head of s, or s if there is no sign. */
  function Body(s: string): (r: (bool, string)) {
    var t := s[Run(s, IsZero)..];
    if t != "" && IsSign(t[0]) then (true, t[1..]) else (false, s)
  }

  /** The parts of s that the loops find are those Parse finds. */
  lemma PartsParse(s: string, whole: string, w: string, frac: Option<string>, y: string)
    requires Digits(Body(s).1) == (whole, w) && (frac.Some? <==> w != "" && w[0] == '.')
    requires if frac.Some? then Digits(w[1..]) == (frac.value, y) else y == w
    ensures Parse(s).Some? <==> ParseExp(y).Some?
    ensures Parse(s).Some? ==>
              var n, t := Parse(s).value, s[Run(s, IsZero)..];
              && n.whole == whole && n.frac == frac && n.exp == ParseExp(y).value
              && (n.sign == Some('-') <==> Body(s).0 && t[0] == '-')
  {}

  /** The zeros at the head are skipped, and a sign. */
  method Start(s: string) returns (i: nat, sign: bool, ghost signed: bool)
    ensures i <= |s| && signed == Body(s).0 && (sign <==> signed && s[Run(s, IsZero)..][0] == '-')
    ensures if signed then Body(s).1 == s[i..] else AllZeros(s[..i])
  {
    i, sign, signed := 0, false, false;
    RunKind(s, IsZero);
    while At(s, i) == '0'
      invariant 0 <= i <= Run(s, IsZero)
      decreases |s| - i
    {
      i := i + 1;
      assert i <= Run(s, IsZero) by {
        assert s[Run(s, IsZero)..] != "" ==> s[Run(s, IsZero)] != '0';
      }
    }
    if IsSign(At(s, i)) {
      signed := true;
      sign := At(s, i) == '-';
      assert s[i..][0] == s[i] && s[i..][1..] == s[i + 1..];
      i := i + 1;
    }
  }

  lemma WholeIs(s: string, i0: nat, i: nat)
    requires i0 <= i <= |s| && AllDigits(s[i0..i]) && !IsDigit(At(s, i))
    ensures Digits(s[i0..]) == (s[i0..i], s[i..])
  {
    DigitsOver(s[i0..i], s[i..]);
    assert s[i0..] == s[i0..i] + s[i..];
  }

  lemma UnsignedWhole(s: string, i0: nat, i: nat)
    requires i0 <= i <= |s| && AllZeros(s[..i0]) && AllDigits(s[i0..i]) && !IsDigit(At(s, i))
    ensures s[..i0] + s[i0..i] == s[..i] && Digits(s) == (s[..i], s[i..])
  {
    assert s[..i0] + s[i0..i] == s[..i];
    assert forall k | 0 <= k < i :: s[k] == if k < i0 then s[..i0][k] else s[i0..i][k - i0];
    WholeIs(s, 0, i);
    assert s[0..] == s && s[0..i] == s[..i];
  }

  /** The sign and the digits; the parts of s are returned as Parse finds them. */
  method Mantissa(s: string)
    returns (i: nat, sign: bool, db: string, tz: nat, ea: int, ghost whole: string, ghost frac: Option<string>)
    ensures i <= |s| && Scanned(whole + (if frac.Some? then frac.value else ""), db, tz)
    ensures ea + tz == if frac.Some? then |frac.value| else 0
    ensures Parse(s).Some? <==> ParseExp(s[i..]).Some?
    ensures Parse(s).Some? ==>
              var n := Parse(s).value;
              n.whole == whole && n.frac == frac && n.exp == ParseExp(s[i..]).value && (n.sign == Some('-') <==> sign)
  {
    ghost var w;
    i, sign, db, tz, whole, w := Whole(s);
    ea, frac := 0 - tz, None;
    if At(s, i) == '.' {
      ghost var i1 := i + 1;
      db, tz, ea, i := FracLoop(s, i + 1, whole, db, tz, ea);
      frac := Some(s[i1..i]);
      WholeIs(s, i1, i);
      assert w[1..] == s[i1..];
    } else {
      assert whole + "" == whole;
    }
    PartsParse(s, whole, w, frac, s[i..]);
  }

  method Whole(s: string) returns (i: nat, sign: bool, db: string, tz: nat, ghost whole: string, ghost w: string)
    ensures i <= |s| && w == s[i..] && Digits(Body(s).1) == (whole, w) && Scanned(whole, db, tz)
    ensures sign <==> Body(s).0 && s[Run(s, IsZero)..][0] == '-'
  {
    ghost var signed;
    i, sign, signed := Start(s);
    ghost var i0, lead := i, if signed then "" else s[..i];
    db, tz, i := WholeLoop(s, i, lead);
    whole, w := lead + s[i0..i], s[i..];
    if signed {
      WholeIs(s, i0, i);
      assert "" + s[i0..i] == s[i0..i];
    } else {
      UnsignedWhole(s, i0, i);
    }
  }

  /** cds; None: it ends the run with a message. */
  method Cds(s: string) returns (r: Option<string>)
    requires NoNul(s)
    ensures r == Canonical(s)
  {
    var i, sign, db, tz, ea;
    ghost var whole, frac;
    i, sign, db, tz, ea, whole, frac := Mantissa(s);
    var ok, ex := ExpLoop(s, i);
    if !ok {
      return None;
    }
    if db == "" {
      ex := 0;
    } else {
      ex := ex - ea;
    }
    NormalScanned(s, sign, whole, frac, db, tz, ex);
    var z := Write(sign, db, ex);
    r := Some(z);
  }

  lemma NormalScanned(s: string, sign: bool, whole: string, frac: Option<string>, db: string, tz: nat, ex: int)
    requires Parse(s).Some? && Scanned(whole + (if frac.Some? then frac.value else ""), db, tz)
    requires var n := Parse(s).value;
             && n.whole == whole && n.frac == frac && (n.sign == Some('-') <==> sign)
             && (n.exp.Some? ==> ValidExp(n.exp.value))
             && ex == (if db == "" then 0 else ExpValue(n.exp) - (if frac.Some? then |frac.value| else 0) + tz)
    ensures Valid(Parse(s).value) && Normal(Decimal(sign, db, ex))
    ensures NormalOf(Parse(s).value) == Decimal(sign, db, ex)
  {
    ParsedText(s);
    NormalFrom(Parse(s).value, sign, db, tz, ex);
  }

  lemma NormalFrom(n: Numeral, sign: bool, db: string, tz: nat, ex: int)
    requires Valid(n) && Scanned(All(n), db, tz) && (n.sign == Some('-') <==> sign)
    requires ex == if db == "" then 0 else Scale(n) + tz
    ensures NormalOf(n) == Decimal(sign, db, ex) && Normal(Decimal(sign, db, ex))
  {
    ScannedCore(All(n), db, tz);
  }
}
