// Decimal numerals as cds of src/cds.c accepts them, their exact values, and the canonical
// numerals it writes.
module Decimals {
  import opened Numerals
  import opened Options
  import opened Powers
  import opened Scanning
  import opened Seqs

  /** An exponent: a letter or none, a sign or none, digits. */
  datatype Exp = Exp(mark: string, sign: Option<char>, digits: string)

  /** A numeral: zeros before its sign, the sign, digits, and perhaps a point with digits and an exponent. */
  datatype Numeral = Numeral(zeros: nat, sign: Option<char>, whole: string, frac: Option<string>, exp: Option<Exp>)

  predicate IsSign(c: char) { c == '-' || c == '+' }

  predicate IsMark(c: char) { c == 'e' || c == 'E' || c == 'd' || c == 'D' }

  predicate IsZero(c: char) { c == '0' }

  predicate ValidExp(e: Exp) {
    && AllDigits(e.digits) && (e.sign.Some? ==> e.sign.value == '-' || e.sign.value == '+')
    && |e.mark| <= 1
    && (e.mark != "" ==> e.mark[0] == 'e' || e.mark[0] == 'E' || e.mark[0] == 'd' || e.mark[0] == 'D')
    && (e.mark == "" ==> e.sign.Some?)
  }

  predicate Valid(n: Numeral) {
    && AllDigits(n.whole) && (n.frac.Some? ==> AllDigits(n.frac.value)) && (n.exp.Some? ==> ValidExp(n.exp.value))
    && (if n.sign.Some? then n.sign.value == '-' || n.sign.value == '+' else n.zeros == 0 && !Misleading(n))
  }

  /** Without a sign, zeros and an exponent without a letter would read as a number with that sign. */
  predicate Misleading(n: Numeral) {
    AllZeros(n.whole) && n.frac.None? && n.exp.Some? && n.exp.value.mark == ""
  }

  predicate AllZeros(s: string) { forall k | 0 <= k < |s| :: s[k] == '0' }

  function Zeros(n: nat): (s: string)
    ensures |s| == n && forall k | 0 <= k < n :: s[k] == '0'
  {
    seq(n, _ => '0')
  }

  function SignText(sign: Option<char>): string { if sign.Some? then [sign.value] else "" }

  function ExpText(e: Option<Exp>): string {
    if e.Some? then e.value.mark + (SignText(e.value.sign) + e.value.digits) else ""
  }

  function FracText(frac: Option<string>): string { if frac.Some? then "." + frac.value else "" }

  function Text(n: Numeral): string {
    Zeros(n.zeros) + (SignText(n.sign) + (n.whole + (FracText(n.frac) + ExpText(n.exp))))
  }

  // ----- reading -----

  function ParseExp(y: string): Option<Option<Exp>> {
    if y == "" then Some(None)
    else if !IsMark(y[0]) && !IsSign(y[0]) then None
    else
      var mark, a := if IsMark(y[0]) then y[..1] else "", if IsMark(y[0]) then y[1..] else y;
      var signed := a != "" && IsSign(a[0]);
      var digits := if signed then a[1..] else a;
      if AllDigits(digits) then Some(Some(Exp(mark, if signed then Some(a[0]) else None, digits))) else None
  }

  /** The digits at the head of s, and what follows them. */
  function Digits(s: string): (r: (string, string))
    ensures AllDigits(r.0) && r.0 + r.1 == s && Stops(r.1, IsDigit)
  {
    RunKind(s, IsDigit);
    (s[..Run(s, IsDigit)], s[Run(s, IsDigit)..])
  }

  /** The numeral s spells, if it does. */
  function Parse(s: string): Option<Numeral> {
    var z := Run(s, IsZero);
    var t := s[z..];
    var signed := t != "" && IsSign(t[0]);
    var (whole, w) := Digits(if signed then t[1..] else s);
    var dot := w != "" && w[0] == '.';
    var (frac, y) := Digits(if dot then w[1..] else "");
    match ParseExp(if dot then y else w)
    case None => None
    case Some(exp) =>
      Some(Numeral(if signed then z else 0, if signed then Some(t[0]) else None, whole,
                   if dot then Some(frac) else None, exp))
  }

  lemma DigitsOver(a: string, rest: string)
    requires AllDigits(a) && Stops(rest, IsDigit)
    ensures Digits(a + rest) == (a, rest)
  {
    RunOver(a, rest, IsDigit);
  }

  lemma ExpParses(e: Option<Exp>)
    requires e.Some? ==> ValidExp(e.value)
    ensures ParseExp(ExpText(e)) == Some(e)
    ensures ExpText(e) != "" ==> !IsDigit(ExpText(e)[0]) && ExpText(e)[0] != '.'
  {
    if e.Some? {
      var rest := SignText(e.value.sign) + e.value.digits;
      assert e.value.mark == "" ==> e.value.mark + rest == rest;
      assert e.value.mark != "" ==> (e.value.mark + rest)[..1] == e.value.mark && (e.value.mark + rest)[1..] == rest;
      if e.value.sign.Some? {
        assert rest[1..] == e.value.digits;
      } else {
        assert rest == e.value.digits;
      }
    }
  }

  lemma ExpTextIs(y: string)
    requires ParseExp(y).Some?
    ensures ExpText(ParseExp(y).value) == y && (ParseExp(y).value.Some? ==> ValidExp(ParseExp(y).value.value))
  {}

  /** Everything spelled is read. */
  lemma TextParses(n: Numeral)
    requires Valid(n)
    ensures Parse(Text(n)) == Some(n)
  {
    var rest := FracText(n.frac) + ExpText(n.exp);
    RestStarts(n.frac, n.exp);
    HeadParses(n, n.whole + rest, rest);
    DigitsOver(n.whole, rest);
    RestParses(n.frac, n.exp);
  }

  lemma RestStarts(frac: Option<string>, exp: Option<Exp>)
    requires exp.Some? ==> ValidExp(exp.value)
    ensures var rest := FracText(frac) + ExpText(exp);
            && Stops(rest, IsDigit) && (rest != "" && rest[0] == '.' <==> frac.Some?)
            && (rest != "" && IsSign(rest[0]) ==> frac.None? && exp.Some? && exp.value.mark == "")
  {
    ExpParses(exp);
    if frac.None? {
      assert "" + ExpText(exp) == ExpText(exp);
    }
  }

  lemma RestParses(frac: Option<string>, exp: Option<Exp>)
    requires (exp.Some? ==> ValidExp(exp.value)) && (frac.Some? ==> AllDigits(frac.value))
    ensures var rest := FracText(frac) + ExpText(exp);
            if frac.Some? then Digits(rest[1..]) == (frac.value, ExpText(exp)) else rest == ExpText(exp)
    ensures ParseExp(ExpText(exp)) == Some(exp)
  {
    ExpParses(exp);
    if frac.Some? {
      AppendAssoc(".", frac.value, ExpText(exp));
      assert ("." + (frac.value + ExpText(exp)))[1..] == frac.value + ExpText(exp);
      DigitsOver(frac.value, ExpText(exp));
    } else {
      assert "" + ExpText(exp) == ExpText(exp);
    }
  }

  lemma HeadParses(n: Numeral, body: string, rest: string)
    requires Valid(n) && body == n.whole + rest && rest == FracText(n.frac) + ExpText(n.exp) && Stops(rest, IsDigit)
    requires rest != "" && IsSign(rest[0]) ==> n.frac.None? && n.exp.Some? && n.exp.value.mark == ""
    ensures var s := Text(n);
            var t := s[Run(s, IsZero)..];
            var signed := t != "" && IsSign(t[0]);
            && (signed <==> n.sign.Some?) && (signed ==> t[0] == n.sign.value && Run(s, IsZero) == n.zeros)
            && (if signed then t[1..] else s) == body
  {
    if n.sign.Some? {
      RunOver(Zeros(n.zeros), [n.sign.value] + body, IsZero);
      assert ([n.sign.value] + body)[1..] == body;
    } else {
      assert "" + body == body && Zeros(0) + body == body;
      UnsignedHead(body, n.whole, rest);
    }
  }

  /** No sign is found behind the zeros of a numeral that has none before. */
  lemma UnsignedHead(body: string, whole: string, rest: string)
    requires body == whole + rest && AllDigits(whole) && Stops(rest, IsDigit)
    requires rest != "" && IsSign(rest[0]) ==> !AllZeros(whole)
    ensures var t := body[Run(body, IsZero)..]; t == "" || !IsSign(t[0])
  {
    var k := Run(body, IsZero);
    RunKind(body, IsZero);
    if k < |body| {
      assert body[k..][0] == body[k];
      if k < |whole| {
        assert body[k] == whole[k];
      } else {
        assert k == |whole| by {
          assert rest[0] == body[|whole|];
        }
        assert forall j | 0 <= j < |whole| :: whole[j] == body[j];
      }
    }
  }

  /** What is read is spelled so. */
  lemma ParsedText(s: string)
    requires Parse(s).Some?
    ensures Valid(Parse(s).value) && Text(Parse(s).value) == s
  {
    var n, z := Parse(s).value, Run(s, IsZero);
    var body := if n.sign.Some? then s[z..][1..] else s;
    var w := Digits(body).1;
    BodyText(n, body, w);
    if n.sign.Some? {
      SignedText(s, n.sign.value, body);
    } else {
      assert "" + body == body && Zeros(0) + body == body;
      if Misleading(n) {
        MisleadingHead(s, n, w);
      }
    }
  }

  lemma SignedText(s: string, sign: char, body: string)
    requires var t := s[Run(s, IsZero)..]; t != "" && t[0] == sign && t[1..] == body
    ensures s == Zeros(Run(s, IsZero)) + ([sign] + body)
  {
    var z := Run(s, IsZero);
    RunKind(s, IsZero);
    assert s[..z] == Zeros(z);
    assert s[z..] == [sign] + body;
    assert s == s[..z] + s[z..];
  }

  lemma MisleadingHead(s: string, n: Numeral, w: string)
    requires s == n.whole + w && Misleading(n) && w == ExpText(n.exp) && ValidExp(n.exp.value)
    ensures var t := s[Run(s, IsZero)..]; t != "" && IsSign(t[0])
  {
    assert w[0] == n.exp.value.sign.value;
    RunOver(n.whole, w, IsZero);
  }

  lemma BodyText(n: Numeral, body: string, w: string)
    requires var (whole, v) := Digits(body);
             var dot := v != "" && v[0] == '.';
             var (frac, y) := Digits(if dot then v[1..] else "");
             && w == v && n.whole == whole && n.frac == (if dot then Some(frac) else None)
             && ParseExp(if dot then y else w) == Some(n.exp)
    ensures body == n.whole + (FracText(n.frac) + ExpText(n.exp))
    ensures AllDigits(n.whole) && (n.frac.Some? ==> AllDigits(n.frac.value)) && (n.exp.Some? ==> ValidExp(n.exp.value))
    ensures n.frac.None? ==> w == ExpText(n.exp)
  {
    var dot := w != "" && w[0] == '.';
    var (frac, y) := Digits(if dot then w[1..] else "");
    ExpTextIs(if dot then y else w);
    if dot {
      assert w == "." + (frac + y);
      AppendAssoc(".", frac, y);
    } else {
      assert "" + w == w;
    }
  }
}
