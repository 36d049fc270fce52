// The fields of integer editing as values (section 13.5.9.1 of ANSI X3.9-1978): what Iw, Iw.m
// and Ow write, and what such a field is read as.
module IntegerField {
  import opened Numerals
  import opened Options
  import opened Powers
  import opened Words

  function Repeat(c: char, n: int): (r: string)
    ensures |r| == (if n < 0 then 0 else n) && forall k | 0 <= k < |r| :: r[k] == c
  {
    seq(if n < 0 then 0 else n, _ => c)
  }

  // ----- output -----

  function Sign(x: int, plus: bool): string {
    if x < 0 then "-" else if plus then "+" else ""
  }

  /** The digits of n, at least m of them. */
  function Padded(n: nat, m: int, base: Base): string {
    Repeat('0', m - |Show(n, base)|) + Show(n, base)
  }

  /** x with its sign; plus: whether positive signs are asked for (SP). */
  function Written(x: int, m: int, base: Base, plus: bool): string {
    Sign(x, plus) + Padded(Abs(x), m, base)
  }

  lemma WrittenLength(x: int, m: nat, base: Base, plus: bool)
    ensures var n := |Show(Abs(x), base)|;
            |Written(x, m, base, plus)| == (if x < 0 || plus then 1 else 0) + if n >= m then n else m
  {}

  /** The field of Iw or Ow: right-justified, or asterisks if too long. */
  function FieldI(x: int, w: nat, base: Base, plus: bool): string {
    var text := Written(x, 0, base, plus);
    if |text| > w then Repeat('*', w) else Repeat(' ', w - |text|) + text
  }

  /** The field of Iw.m: with m zero the value zero is written as blanks. */
  function FieldIM(x: int, w: nat, m: nat, base: Base, plus: bool): string {
    var text := Written(x, m, base, plus);
    if |text| > w then Repeat('*', w) else if x == 0 && m == 0 then Repeat(' ', w) else Repeat(' ', w - |text|) + text
  }

  // ----- input -----

  predicate EndsField(c: char) { c == ',' || c == '\n' }

  /** Without the blanks in front. */
  function Stripped(s: string): string {
    if s != "" && s[0] == ' ' then Stripped(s[1..]) else s
  }

  predicate IsSign(c: char) { c == '+' || c == '-' }

  predicate Body(s: string) { forall k | 0 <= k < |s| :: IsDigit(s[k]) || s[k] == ' ' }

  /** The blanks among digits are zeros (BZ) or nothing (BN). */
  function Squeezed(s: string, zeros: bool): (r: string)
    requires Body(s)
    ensures AllDigits(r)
  {
    if s == "" then "" else
    var r := Squeezed(s[..|s| - 1], zeros);
    if s[|s| - 1] != ' ' then r + [s[|s| - 1]] else if zeros then r + "0" else r
  }

  /** What they amount to. */
  function Amount(body: string, base: Base, zeros: bool): int
    requires Body(body)
  {
    Value(Squeezed(body, zeros), base)
  }

  function BodyValue(body: string, base: Base, zeros: bool): Option<int> {
    if Body(body) then Some(Amount(body, base, zeros)) else None
  }

  function Negative(value: Option<int>): Option<int> {
    if value.Some? then Some(-value.value) else None
  }

  /** The integer in a field: blank is zero, a sign may come first, and the rest is digits and blanks. */
  function FieldValue(field: string, base: Base, zeros: bool): Option<int> {
    var s := Stripped(field);
    var signed := s != "" && (s[0] == '+' || s[0] == '-');
    var body := if signed then s[1..] else s;
    if signed && s[0] == '-' then Negative(BodyValue(body, base, zeros)) else BodyValue(body, base, zeros)
  }

  lemma {:induction false} StrippedBlanks(k: nat, s: string)
    requires s == "" || s[0] != ' '
    ensures Stripped(Repeat(' ', k) + s) == s
  {
    if k == 0 {
      assert Repeat(' ', k) + s == s;
    } else {
      StrippedBlanks(k - 1, s);
      assert (Repeat(' ', k) + s)[1..] == Repeat(' ', k - 1) + s;
    }
  }

  lemma {:induction false} SqueezedDigits(s: string, zeros: bool)
    requires AllDigits(s)
    ensures Squeezed(s, zeros) == s
  {
    if s != "" {
      SqueezedDigits(s[..|s| - 1], zeros);
    }
  }

  /** One more character of the body, v being the amount so far. */
  function Step(v: int, c: char, base: Base, zeros: bool): int
    requires IsDigit(c) || c == ' '
  {
    if c != ' ' then v * base + DigitOf(c) else if zeros then v * base else v
  }

  lemma AmountSnoc(body: string, c: char, base: Base, zeros: bool)
    requires Body(body) && (IsDigit(c) || c == ' ')
    ensures Body(body + [c]) && Amount(body + [c], base, zeros) == Step(Amount(body, base, zeros), c, base, zeros)
  {
    assert (body + [c])[..|body|] == body;
    ValueSnoc(Squeezed(body, zeros), if c != ' ' then c else '0', base);
  }

  /** It may wrap at every character. */
  lemma WrappedSteps(v: int, c: char, base: Base, zeros: bool)
    requires IsDigit(c) || c == ' '
    ensures Wrap(Step(v, c, base, zeros)) == Wrap(Step(Wrap(v), c, base, zeros))
  {
    WrapStep(v, base, if c != ' ' then DigitOf(c) else 0);
  }

  /** One character more, on numbers that wrap. */
  lemma WrappedSnoc(body: string, c: char, base: Base, zeros: bool)
    requires Body(body) && (IsDigit(c) || c == ' ')
    ensures Body(body + [c])
    ensures Wrap(Amount(body + [c], base, zeros)) == Wrap(Step(Wrap(Amount(body, base, zeros)), c, base, zeros))
  {
    AmountSnoc(body, c, base, zeros);
    WrappedSteps(Amount(body, base, zeros), c, base, zeros);
  }

  /** No characters are zero, and a digit is itself. */
  lemma BodyStarts(c: char, base: Base, zeros: bool)
    ensures Wrap(Amount("", base, zeros)) == 0
    ensures IsDigit(c) ==> Wrap(Amount([c], base, zeros)) == DigitOf(c)
  {
    assert Squeezed("", zeros) == "";
    if IsDigit(c) {
      assert "" + [c] == [c];
      AmountSnoc("", c, base, zeros);
      assert Step(0, c, base, zeros) == DigitOf(c);
    }
  }

  lemma BlanksBefore(k: nat, s: string, base: Base, zeros: bool)
    requires s == "" || s[0] != ' '
    ensures FieldValue(Repeat(' ', k) + s, base, zeros) == FieldValue(s, base, zeros)
  {
    StrippedBlanks(k, s);
  }

  lemma SignedBody(sign: char, body: string, base: Base, zeros: bool)
    requires IsSign(sign)
    ensures FieldValue([sign] + body, base, zeros) ==
            if sign == '-' then Negative(BodyValue(body, base, zeros)) else BodyValue(body, base, zeros)
  {
    assert ([sign] + body)[1..] == body;
  }

  lemma UnsignedBody(body: string, base: Base, zeros: bool)
    requires body != "" && IsDigit(body[0])
    ensures FieldValue(body, base, zeros) == BodyValue(body, base, zeros)
  {}

  lemma PaddedValue(n: nat, m: int, base: Base)
    ensures AllDigits(Padded(n, m, base)) && Padded(n, m, base) != "" && Value(Padded(n, m, base), base) == n
  {
    ShowValue(n, base);
    var pad := Repeat('0', m - |Show(n, base)|);
    ValueZeros(pad, base);
    ValueAppend(pad, Show(n, base), base);
  }

  lemma WrittenReads(x: int, m: int, base: Base, plus: bool, zeros: bool)
    ensures FieldValue(Written(x, m, base, plus), base, zeros) == Some(x)
  {
    var digits := Padded(Abs(x), m, base);
    PaddedBody(Abs(x), m, base, zeros);
    if x < 0 {
      SignedBody('-', digits, base, zeros);
    } else if plus {
      SignedBody('+', digits, base, zeros);
    } else {
      UnsignedBody(digits, base, zeros);
      assert Written(x, m, base, plus) == digits;
    }
  }

  lemma PaddedBody(n: nat, m: int, base: Base, zeros: bool)
    ensures var digits := Padded(n, m, base);
            digits != "" && IsDigit(digits[0]) && BodyValue(digits, base, zeros) == Some(n)
  {
    PaddedValue(n, m, base);
    SqueezedDigits(Padded(n, m, base), zeros);
  }

  lemma WrittenChars(x: int, m: int, base: Base, plus: bool)
    ensures forall k | 0 <= k < |Written(x, m, base, plus)| :: !EndsField(Written(x, m, base, plus)[k])
    ensures Written(x, m, base, plus) != "" && Written(x, m, base, plus)[0] != ' '
  {
    var digits := Padded(Abs(x), m, base);
    PaddedValue(Abs(x), m, base);
    assert IsDigit(digits[0]) && forall k | 0 <= k < |digits| :: IsDigit(digits[k]);
  }

  lemma ValueOfWritten(x: int, k: nat, m: int, base: Base, plus: bool, zeros: bool)
    ensures FieldValue(Repeat(' ', k) + Written(x, m, base, plus), base, zeros) == Some(x)
  {
    WrittenReads(x, m, base, plus, zeros);
    WrittenChars(x, m, base, plus);
    BlanksBefore(k, Written(x, m, base, plus), base, zeros);
  }

  lemma Blank(w: nat, base: Base, zeros: bool)
    ensures FieldValue(Repeat(' ', w), base, zeros) == Some(0)
  {
    StrippedBlanks(w, "");
    assert Repeat(' ', w) + "" == Repeat(' ', w);
  }

  lemma Stars(w: nat, base: Base, zeros: bool)
    requires w > 0
    ensures FieldValue(Repeat('*', w), base, zeros) == None
  {
    assert Repeat('*', w)[0] == '*';
  }

  /** A field has its width, and reading it back at that width gives the integer, in either blank
      mode, if and only if it was wide enough; otherwise it is refused. */
  lemma RoundTripI(x: int, w: nat, base: Base, plus: bool, zeros: bool)
    requires w > 0
    ensures |FieldI(x, w, base, plus)| == w && forall k | 0 <= k < w :: !EndsField(FieldI(x, w, base, plus)[k])
    ensures FieldValue(FieldI(x, w, base, plus), base, zeros) == if |Written(x, 0, base, plus)| <= w then Some(x)
            else None
  {
    var text := Written(x, 0, base, plus);
    if |text| > w {
      Stars(w, base, zeros);
    } else {
      ValueOfWritten(x, w - |text|, 0, base, plus, zeros);
      WrittenChars(x, 0, base, plus);
    }
  }

  lemma RoundTripIM(x: int, w: nat, m: nat, base: Base, plus: bool, zeros: bool)
    requires w > 0
    ensures |FieldIM(x, w, m, base, plus)| == w && forall k | 0 <= k < w :: !EndsField(FieldIM(x, w, m, base, plus)[k])
    ensures FieldValue(FieldIM(x, w, m, base, plus), base, zeros) == if |Written(x, m, base, plus)| <= w then Some(x)
            else None
  {
    var text := Written(x, m, base, plus);
    if |text| > w {
      Stars(w, base, zeros);
    } else if x == 0 && m == 0 {
      Blank(w, base, zeros);
    } else {
      ValueOfWritten(x, w - |text|, m, base, plus, zeros);
      WrittenChars(x, m, base, plus);
    }
  }

  /** Iw.0 should write zero as blanks whatever the sign control; with SP and w = 1 it does not, and
      that is the only case. */
  lemma ZeroAsBlanks(w: nat, base: Base, plus: bool)
    requires w > 0
    ensures FieldIM(0, w, 0, base, plus) == Repeat(' ', w) <==> !(plus && w == 1)
  {
    assert Show(0, base) == [CharOf(0)];
    assert Repeat('*', w)[0] == '*' && Repeat(' ', w)[0] == ' ';
  }
}
