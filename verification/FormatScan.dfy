// The scanning of FORMAT text in ne_d, e_d, gt_num and ap_end of libf2c/fmt.c, as their switches and
// loops do it. What ne_d and e_d emit is left to their callers here.
module FormatScan {
  import opened Options
  import opened FormatCode
  import opened FormatParse

  /** gt_num's loop. */
  method ScanNumber(s: string, i: nat, n1: nat) returns (r: Option<(nat, nat)>)
    ensures r == GtNum(s, i, n1)
  {
    var m: nat, count: nat, j := 0, 0, i;
    while At(s, j) == ' ' || Digit(At(s, j))
      invariant Number(s, i, 0, false) == Number(s, j, m, count > 0)
      decreases |s| - j
    {
      if At(s, j) == ' ' {
        j := j + 1;
        continue;
      }
      m := 10 * m + DigitValue(At(s, j));
      count := count + 1;
      j := j + 1;
    }
    if count == 0 {
      r := if n1 == 0 then None else Some((n1, j));
    } else {
      r := Some((m, j));
    }
  }

  /** ap_end's loop, from the opening quote on. */
  method ScanString(s: string, i: nat) returns (r: Option<nat>)
    ensures r == QuoteEnd(s, i + 1, At(s, i))
  {
    var quote, j := At(s, i), i + 1;
    while At(s, j) != '\0'
      invariant QuoteEnd(s, i + 1, quote) == QuoteEnd(s, j, quote)
      decreases |s| - j
    {
      if At(s, j) == quote {
        j := j + 1;
        if At(s, j) != quote {
          return Some(j);
        }
      }
      j := j + 1;
    }
    r := None;
  }

  /** ne_d's switch. */
  method ScanPlain(s: string, i: nat) returns (l: Lexed)
    ensures l == LexPlain(s, i)
  {
    var c, d := At(s, i), At(s, i + 1);
    if c == ':' {
      l := Got(Once(Stop), i + 1);
    } else if c == '$' {
      l := Got(Once(Flag(Nonl)), i + 1);
    } else if c == 'B' || c == 'b' {
      l := if d == 'z' || d == 'Z' then Got(Once(Flag(BZ)), i + 2) else Got(Once(Flag(BN)), i + 2);
    } else if c == 'S' || c == 's' {
      if d == 's' || d == 'S' {
        l := Got(Once(Flag(SS)), i + 2);
      } else if d == 'p' || d == 'P' {
        l := Got(Once(Flag(SP)), i + 2);
      } else {
        l := Got(Once(Flag(S)), i + 1);
      }
    } else if c == '/' {
      l := Got(Once(Move(Slash)), i + 1);
    } else if c == '-' || c == '+' || '0' <= c <= '9' {
      l := ScanCounted(s, if c == '-' || c == '+' then i + 1 else i, c == '-');
    } else if c == '\U{0002}' || c == '"' || c == '\'' {
      var end := ScanString(s, i);
      l := if end.None? then NotOne else Got(Once(Move(Apos(i))), end.value);
    } else if c == 'T' || c == 't' {
      l := ScanTab(s, i);
    } else if c == 'X' || c == 'x' {
      l := Got(Once(Move(X(1))), i + 1);
    } else if c == 'P' || c == 'p' {
      l := Got(Once(Flag(P(1))), i + 1);
    } else {
      l := NotOne;
    }
  }

  /** A number and P, X or H. */
  method ScanCounted(s: string, i: nat, sign: bool) returns (l: Lexed)
    ensures l == LexCounted(s, i, sign)
  {
    var r := ScanNumber(s, i, 0);
    if r.None? {
      return Bad;
    }
    var (n, j) := r.value;
    var c := At(s, j);
    if c == 'P' || c == 'p' {
      var x: int := n;
      if sign {
        x := -x;
      }
      l := Got(Once(Flag(P(x))), j + 1);
    } else if c == 'X' || c == 'x' {
      l := Got(Once(Move(X(n))), j + 1);
    } else if c == 'H' || c == 'h' {
      l := Got(Once(Move(H(n, j + 1))), j + 1 + n);
    } else {
      l := NotOne;
    }
  }

  /** T, TL or TR at i. */
  method ScanTab(s: string, i: nat) returns (l: Lexed)
    requires At(s, i) == 'T' || At(s, i) == 't'
    ensures l == LexPlain(s, i)
  {
    var d := At(s, i + 1);
    if d == 'l' || d == 'L' {
      var r := ScanNumber(s, i + 2, 0);
      l := if r.None? then Bad else Got(Once(Move(TL(r.value.0))), r.value.1);
    } else if d == 'r' || d == 'R' {
      var r := ScanNumber(s, i + 2, 0);
      l := if r.None? then Bad else Got(Once(Move(TR(r.value.0))), r.value.1);
    } else {
      var r := ScanNumber(s, i + 1, 0);
      l := if r.None? then Bad else Got(Once(Move(T(r.value.0))), r.value.1);
    }
  }

  /** e_d's switch. */
  method ScanEdit(s: string, i: nat) returns (l: Lexed)
    ensures l == LexEdit(s, i)
  {
    var r := ScanNumber(s, i, 1);
    var (n, j) := r.value;
    var c := At(s, j);
    if c == 'E' || c == 'e' || c == 'G' || c == 'g' {
      l := ScanExponent(s, j + 1, n, c == 'E' || c == 'e');
    } else if c == 'O' || c == 'o' {
      l := ScanInteger(s, j + 1, n, 'O');
    } else if c == 'Z' || c == 'z' {
      l := ScanInteger(s, j + 1, n, 'Z');
    } else if c == 'L' || c == 'l' {
      l := ScanLogical(s, j + 1, n);
    } else if c == 'A' || c == 'a' {
      l := ScanCharacter(s, j + 1, n);
    } else if c == 'F' || c == 'f' {
      l := ScanFraction(s, j + 1, n, true);
    } else if c == 'D' || c == 'd' {
      l := ScanFraction(s, j + 1, n, false);
    } else if c == 'I' || c == 'i' {
      l := ScanInteger(s, j + 1, n, 'I');
    } else {
      l := NotOne;
    }
  }

  method ScanLogical(s: string, i: nat, n: nat) returns (l: Lexed)
    ensures l == match GtNum(s, i, 0)
                 case None => Bad
                 case Some((w, k)) => Got(Field(n, w, L(w)), k)
  {
    var r := ScanNumber(s, i, 0);
    if r.None? {
      return Bad;
    }
    var (w, k) := r.value;
    l := if w == 0 then Got(Bare(n), k) else Got(Edit(n, L(w)), k);
  }

  method ScanCharacter(s: string, i: nat, n: nat) returns (l: Lexed)
    ensures l == var a := Skip(s, i);
                 if Digit(At(s, a)) then
                   var (w, k) := GtNum(s, a, 1).value; Got(Field(n, w, AW(w)), k)
                 else Got(Edit(n, A), a)
  {
    var a := i;
    while At(s, a) == ' '
      invariant Skip(s, i) == Skip(s, a)
      decreases |s| - a
    {
      a := a + 1;
    }
    if '0' <= At(s, a) <= '9' {
      var r := ScanNumber(s, a, 1);
      var (w, k) := r.value;
      l := if w == 0 then Got(Bare(n), k) else Got(Edit(n, AW(w)), k);
    } else {
      l := Got(Edit(n, A), a);
    }
  }

  /** A period and a number, if there is a period. */
  method ScanDigits(s: string, i: nat) returns (r: Option<(nat, nat)>)
    ensures r == Fraction(s, i)
  {
    if At(s, i) == '.' {
      r := ScanNumber(s, i + 1, 0);
    } else {
      r := Some((0, i));
    }
  }

  /** From the width of E (x is 1) or G on. */
  method ScanExponent(s: string, i: nat, n: nat, x: bool) returns (l: Lexed)
    ensures l == LexExponent(s, i, n, if x then 'E' else 'G')
  {
    var r := ScanNumber(s, i, 0);
    if r.None? {
      return Bad;
    }
    var (w, j) := r.value;
    if w == 0 {
      return Got(Bare(n), j);
    }
    r := ScanDigits(s, j);
    if r.None? {
      return Bad;
    }
    var (d, k) := r.value;
    if At(s, k) != 'E' && At(s, k) != 'e' {
      l := Got(Edit(n, if x then E(w, d) else G(w, d)), k);
    } else {
      r := ScanNumber(s, k + 1, 0);
      if r.None? {
        return Bad;
      }
      l := Got(Edit(n, if x then EE(w, d, r.value.0) else GE(w, d, r.value.0)), r.value.1);
    }
  }

  /** From the width of I, O or Z on. */
  method ScanInteger(s: string, i: nat, n: nat, letter: char) returns (l: Lexed)
    requires letter == 'I' || letter == 'O' || letter == 'Z'
    ensures l == LexInteger(s, i, n, letter)
  {
    var r := ScanNumber(s, i, 0);
    if r.None? {
      return Bad;
    }
    var (w, j) := r.value;
    if w == 0 {
      return Got(Bare(n), j);
    }
    if At(s, j) != '.' {
      return Got(Edit(n, match letter case 'I' => I(w) case 'O' => O(w) case _ => Z(w)), j);
    }
    r := ScanNumber(s, j + 1, 0);
    if r.None? {
      return Bad;
    }
    var (m, k) := r.value;
    l := Got(Edit(n, match letter case 'I' => IM(w, m) case 'O' => OM(w, m) case _ => ZM(w, m)), k);
  }

  /** From the width of F (fixed) or D on. */
  method ScanFraction(s: string, i: nat, n: nat, fixed: bool) returns (l: Lexed)
    ensures l == LexFraction(s, i, n, if fixed then 'F' else 'D')
  {
    var r := ScanNumber(s, i, 0);
    if r.None? {
      return Bad;
    }
    var (w, j) := r.value;
    if w == 0 {
      return Got(Bare(n), j);
    }
    r := ScanDigits(s, j);
    if r.None? {
      return Bad;
    }
    var (d, k) := r.value;
    l := Got(Edit(n, if fixed then F(w, d) else D(w, d)), k);
  }
}
