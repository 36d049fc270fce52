// Integer editing: f__icvt of libf2c/fmtlib.c, wrt_I and wrt_IM of wrtfmt.c and rd_I of rdfmt.c.
module IntegerEdit {
  import opened IntegerField
  import opened Numerals
  import opened Options
  import opened Powers
  import opened Seqs
  import opened Words

  const MAXINTLENGTH: nat := 23

  /** The bases in use: ten for I, eight for O. */
  predicate EditBase(b: int) { b == 8 || b == 10 }

  /** No longint has more digits than the buffer has cells. */
  lemma DigitsFit(n: nat, base: Base)
    requires n <= WORD && EditBase(base)
    ensures |Show(n, base)| <= MAXINTLENGTH - 1
  {
    assert n < Power(base, MAXINTLENGTH - 1) by {
      PowerAdd(base, 11, 11);
      assert Power(8, 11) == 0x2_0000_0000 && Power(10, 11) == 100_000_000_000;
    }
    ShowLength(n, base, MAXINTLENGTH - 1);
  }

  /** The absolute value as unsigned bits, also of the one number that has no negative. */
  lemma Bits(value: int)
    requires Longint(value)
    ensures value < 0 ==> Abs(value) == if Wrap(-value) < 0 then Wrap(-value) + 2 * WORD else Wrap(-value)
  {}

  lemma Joined(o: string, a: string, b: string, c: string, d: string)
    ensures (((o + a) + b) + c) + d == o + (a + (b + (c + d)))
  {}

  /** The first w characters, or fewer if a comma or the end of the record comes before. */
  function Cut(s: string, w: nat): string {
    if s == "" || w == 0 || s[0] == ',' || s[0] == '\n' then "" else [s[0]] + Cut(s[1..], w - 1)
  }

  /** Whether the characters to be read are all there. */
  predicate Enough(s: string, w: nat) {
    w == 0 || (s != "" && (s[0] == ',' || s[0] == '\n' || Enough(s[1..], w - 1)))
  }

  lemma {:induction false} CutAfter(a: string, s: string, w: nat)
    requires |a| <= w && forall k | 0 <= k < |a| :: !EndsField(a[k])
    ensures Cut(a + s, w) == a + Cut(s, w - |a|)
    ensures Enough(a + s, w) <==> Enough(s, w - |a|)
    decreases |a|
  {
    if a == "" {
      assert a + s == s;
    } else {
      CutAfter(a[1..], s, w - 1);
      AppendCons(a, s);
      AppendCons(a, Cut(s, w - |a|));
    }
  }

  lemma CutOne(c: char, s: string, w: nat)
    requires w > 0
    ensures Cut([c] + s, w) == if EndsField(c) then "" else [c] + Cut(s, w - 1)
    ensures Enough([c] + s, w) <==> EndsField(c) || Enough(s, w - 1)
  {
    assert ([c] + s)[1..] == s;
  }

  datatype Status = Done | AtEnd | Refused

  /** Reading gives a value, wrapped, exactly if there is enough to read and it has one. */
  ghost predicate Outcome(enough: bool, value: Option<int>, status: Status, x: int) {
    && (status.Done? ==> enough && value.Some? && x == Wrap(value.value))
    && (enough && value.Some? ==> status.Done?)
  }

  /** What reading a field of width w at the head of s may give: the field is what lies before the
      next comma or end of record; without an end there must be w characters. */
  ghost predicate Gives(s: string, w: nat, base: Base, zeros: bool, status: Status, x: int) {
    Outcome(Enough(s, w), FieldValue(Cut(s, w), base, zeros), status, x)
  }

  lemma BlanksSkipped(
    k: nat, tail: string, w: nat, s: string, w0: nat, base: Base, zeros: bool, status: Status, x: int)
    requires Gives(tail, w, base, zeros, status, x) && (Cut(tail, w) == "" || tail[0] != ' ')
    requires s == Repeat(' ', k) + tail && w0 == k + w
    ensures Gives(s, w0, base, zeros, status, x)
  {
    CutAfter(Repeat(' ', k), tail, w0);
    BlanksCut(k, tail, w, base, zeros);
  }

  lemma BlanksCut(k: nat, tail: string, w: nat, base: Base, zeros: bool)
    requires Cut(tail, w) == "" || tail[0] != ' '
    ensures FieldValue(Repeat(' ', k) + Cut(tail, w), base, zeros) == FieldValue(Cut(tail, w), base, zeros)
  {
    BlanksBefore(k, Cut(tail, w), base, zeros);
  }

  lemma OnlyBlanks(k: nat, w: nat, base: Base, zeros: bool)
    requires k < w
    ensures Gives(Repeat(' ', k), w, base, zeros, AtEnd, 0)
  {
    CutAfter(Repeat(' ', k), "", w);
    assert Repeat(' ', k) + "" == Repeat(' ', k);
  }

  lemma NoneLeft(s: string, w: nat, base: Base, zeros: bool)
    requires Cut(s, w) == "" && Enough(s, w)
    ensures Gives(s, w, base, zeros, Done, 0)
  {
    assert Squeezed("", zeros) == "";
  }

  /** What reading on after the characters body of a number may give. */
  ghost predicate GivesRest(body: string, s: string, w: nat, base: Base, zeros: bool, status: Status, x: int) {
    Outcome(Enough(s, w), BodyValue(body + Cut(s, w), base, zeros), status, x)
  }

  /** The field ends after the characters u. */
  lemma RestEnds(body: string, u: string, tail: string, w: nat, base: Base, zeros: bool)
    requires |u| <= w && Body(u) && Body(body + u) && Cut(tail, w - |u|) == "" && Enough(tail, w - |u|)
    ensures GivesRest(body, u + tail, w, base, zeros, Done, Wrap(Amount(body + u, base, zeros)))
  {
    CutAfter(u, tail, w);
    assert u + Cut(tail, w - |u|) == u;
  }

  lemma RestGoesOn(body: string, u: string, c: char, tail: string, base: Base, zeros: bool)
    requires Body(u) && Body(body + u) && (IsDigit(c) || c == ' ')
    ensures u + ([c] + tail) == (u + [c]) + tail && Body(u + [c]) && Body(body + (u + [c]))
    ensures var x := Wrap(Amount(body + u, base, zeros));
            Wrap(Amount(body + (u + [c]), base, zeros)) ==
            if IsDigit(c) then Wrap(x * base + DigitOf(c)) else if zeros then Wrap(x * base) else x
  {
    AppendAssoc(u, [c], tail);
    AppendAssoc(body, u, [c]);
    WrappedSnoc(body + u, c, base, zeros);
  }

  /** There is nothing more, or no digit or blank. */
  lemma RestStops(body: string, u: string, tail: string, w: nat, base: Base, zeros: bool, status: Status, x: int)
    requires |u| < w && Body(u) && !status.Done?
    requires tail == "" || (!IsDigit(tail[0]) && tail[0] != ' ' && !EndsField(tail[0]))
    ensures GivesRest(body, u + tail, w, base, zeros, status, x)
  {
    CutAfter(u, tail, w);
    if tail != "" {
      assert (body + (u + Cut(tail, w - |u|)))[|body| + |u|] == tail[0];
    }
  }

  lemma Negated(enough: bool, value: Option<int>, status: Status, x: int)
    requires Outcome(enough, value, status, x)
    ensures Outcome(enough, Negative(value), status, Wrap(-x))
  {
    if value.Some? {
      WrapNegative(value.value);
    }
  }

  lemma NumberSigned(sign: char, s: string, w: nat, base: Base, zeros: bool, status: Status, got: int, x: int)
    requires w > 0 && IsSign(sign) && GivesRest("", s, w - 1, base, zeros, status, got)
    requires x == if sign == '-' then Wrap(-got) else got
    ensures Gives([sign] + s, w, base, zeros, status, x)
  {
    var rest := Cut(s, w - 1);
    assert "" + rest == rest;
    CutOne(sign, s, w);
    SignedBody(sign, rest, base, zeros);
    Negated(Enough(s, w - 1), BodyValue(rest, base, zeros), status, got);
  }

  lemma NumberUnsigned(c: char, s: string, w: nat, base: Base, zeros: bool, status: Status, x: int)
    requires w > 0 && IsDigit(c) && GivesRest([c], s, w - 1, base, zeros, status, x)
    ensures Gives([c] + s, w, base, zeros, status, x)
  {
    CutOne(c, s, w);
    UnsignedBody([c] + Cut(s, w - 1), base, zeros);
  }

  lemma NoNumber(c: char, s: string, w: nat, base: Base, zeros: bool, status: Status, x: int)
    requires w > 0 && !IsDigit(c) && c != ' ' && !IsSign(c) && !EndsField(c) && !status.Done?
    ensures Gives([c] + s, w, base, zeros, status, x)
  {
    CutOne(c, s, w);
    assert ([c] + Cut(s, w - 1))[0] == c;
  }

  /** Reading at the place of a field of w characters gives what the field holds. */
  lemma FieldGives(field: string, more: string, x: int, w: nat, base: Base, zeros: bool, status: Status, y: int)
    requires |field| == w && (forall k | 0 <= k < w :: !EndsField(field[k]))
             && FieldValue(field, base, zeros) in {Some(x), None} && Longint(x)
    requires Gives(field + more, w, base, zeros, status, y)
    ensures status.Done? <==> FieldValue(field, base, zeros).Some?
    ensures status.Done? ==> y == x
  {
    CutAfter(field, more, w);
    assert field + "" == field;
  }

  /** The field of Iw.m in terms of the number of digits of x. */
  lemma FieldIMParts(x: int, w: nat, m: nat, base: Base, plus: bool, n: nat, sign: nat)
    requires n == |Show(Abs(x), base)| && sign == if x < 0 || plus then 1 else 0
    ensures FieldIM(x, w, m, base, plus) ==
            if n + sign > w || m + sign > w then Repeat('*', w)
            else if x == 0 && m == 0 then Repeat(' ', w)
            else Repeat(' ', if n >= m then w - n - sign else w - m - sign) + Written(x, m, base, plus)
  {
    WrittenLength(x, m, base, plus);
  }

  class Editor {
    const buf: array<char>
    /** f__cplus and f__cblank. */
    var cplus: bool
    var cblank: bool
    /** What f__putn was given. */
    var out: string
    /** What f__getn gives, from pos on. */
    var input: string
    var pos: nat

    constructor ()
      ensures Valid() && fresh(buf)
    {
      buf := new char[MAXINTLENGTH + 1];
      cplus, cblank, out, input, pos := false, false, "", "", 0;
    }

    ghost predicate Valid()
      reads this
    {
      buf.Length == MAXINTLENGTH + 1 && pos <= |input|
    }

    /** f__icvt: the digits of value end at the last cell of the buffer but one. */
    method Icvt(value: int, base: Base) returns (first: nat, ndigit: nat, sign: bool)
      requires Valid() && Longint(value) && EditBase(base)
      modifies buf
      ensures first + ndigit == MAXINTLENGTH && sign == (value < 0)
      ensures buf[first..MAXINTLENGTH] == Show(Abs(value), base)
    {
      if value == 0 {
        buf[MAXINTLENGTH - 1] := '0';
        return MAXINTLENGTH - 1, 1, false;
      }
      sign := value < 0;
      var bits := if sign then Wrap(-value) else value;
      var uvalue: nat := if bits < 0 then bits + 2 * WORD else bits;
      Bits(value);
      DigitsFit(uvalue, base);
      first := Fill(uvalue, base);
      ndigit := MAXINTLENGTH - first;
    }

    static method LastDigit(u: nat, base: Base) returns (quotient: nat, digit: nat)
      requires u > 0
      ensures quotient < u && digit < 10 && Front(u, base) == Front(quotient, base) + [CharOf(digit)]
    {
      ShowLast(u, base);
      quotient, digit := u / base, u % base;
    }

    /** The loop of f__icvt. */
    method Fill(u0: nat, base: Base) returns (i: nat)
      requires Valid() && u0 > 0 && |Show(u0, base)| < MAXINTLENGTH
      modifies buf
      ensures i <= MAXINTLENGTH && buf[i..MAXINTLENGTH] == Show(u0, base)
    {
      var uvalue: nat := u0;
      i := MAXINTLENGTH;
      while uvalue > 0
        invariant i <= MAXINTLENGTH && Show(u0, base) == Front(uvalue, base) + buf[i..MAXINTLENGTH]
        decreases uvalue
      {
        ghost var done := buf[i..MAXINTLENGTH];
        var quotient, digit := LastDigit(uvalue, base);
        assert |Front(uvalue, base)| > 0;
        AppendAssoc(Front(quotient, base), [CharOf(digit)], done);
        i := i - 1;
        buf[i] := CharOf(digit);
        assert buf[i..MAXINTLENGTH] == [CharOf(digit)] + done;
        uvalue := quotient;
      }
      assert Front(0, base) + buf[i..MAXINTLENGTH] == buf[i..MAXINTLENGTH];
    }

    method Put(c: char)
      modifies this`out
      ensures out == old(out) + [c]
    {
      out := out + [c];
    }

    method PutTimes(c: char, n: int)
      modifies this`out
      ensures out == old(out) + Repeat(c, n)
    {
      var i := 0;
      while i < n
        invariant 0 <= i && (i <= n || i == 0) && out == old(out) + Repeat(c, i)
      {
        Put(c);
        assert Repeat(c, i + 1) == Repeat(c, i) + [c];
        i := i + 1;
      }
    }

    method PutDigits(first: nat, n: nat)
      requires first + n <= buf.Length
      modifies this`out
      ensures out == old(out) + buf[first..first + n]
    {
      var i := 0;
      while i < n
        invariant 0 <= i <= n && out == old(out) + buf[first..first + i]
      {
        Put(buf[first + i]);
        assert buf[first..first + i + 1] == buf[first..first + i] + [buf[first + i]];
        i := i + 1;
      }
    }

    method PutSign(sign: bool)
      modifies this`out
      ensures out == old(out) + Sign(if sign then -1 else 1, cplus)
    {
      if sign {
        Put('-');
      } else if cplus {
        Put('+');
      }
    }

    /** Blanks, the sign, zeros up to m digits, and the digits of x, which are in the buffer. */
    method PutNumber(ghost x: int, ghost base: Base, spare: nat, m: int, first: nat, ndigit: nat, sign: bool)
      requires Valid() && sign == (x < 0) && first + ndigit == MAXINTLENGTH
      requires buf[first..MAXINTLENGTH] == Show(Abs(x), base)
      modifies this`out
      ensures out == old(out) + (Repeat(' ', spare) + Written(x, m, base, cplus))
    {
      ghost var digits := buf[first..MAXINTLENGTH];
      Joined(out, Repeat(' ', spare), Sign(x, cplus), Repeat('0', m - ndigit), digits);
      assert Written(x, m, base, cplus) == Sign(x, cplus) + (Repeat('0', m - ndigit) + digits);
      PutTimes(' ', spare);
      PutSign(sign);
      PutTimes('0', m - ndigit);
      PutDigits(first, ndigit);
    }

    /** wrt_I. */
    method Wrt_I(x: int, w: nat, base: Base)
      requires Valid() && Longint(x) && EditBase(base)
      modifies this`out, buf
      ensures Valid() && out == old(out) + FieldI(x, w, base, cplus)
    {
      var first, ndigit, sign := Icvt(x, base);
      var spare := w - ndigit;
      if sign || cplus {
        spare := spare - 1;
      }
      if spare < 0 {
        PutTimes('*', w);
      } else {
        PutNumber(x, base, spare, 0, first, ndigit, sign);
      }
    }

    /** wrt_IM. */
    method Wrt_IM(x: int, w: nat, m: nat, base: Base)
      requires Valid() && Longint(x) && EditBase(base)
      modifies this`out, buf
      ensures Valid() && out == old(out) + FieldIM(x, w, m, base, cplus)
    {
      var first, ndigit, sign := Icvt(x, base);
      var xsign := if sign || cplus then 1 else 0;
      FieldIMParts(x, w, m, base, cplus, ndigit, xsign);
      if ndigit + xsign > w || m + xsign > w {
        PutTimes('*', w);
      } else if x == 0 && m == 0 {
        PutTimes(' ', w);
      } else {
        var spare := if ndigit >= m then w - ndigit - xsign else w - m - xsign;
        PutNumber(x, base, spare, m, first, ndigit, sign);
      }
    }

    /** GET: None if there is nothing more. */
    method Get() returns (ch: Option<char>)
      requires Valid()
      modifies this`pos
      ensures Valid() && ch == if old(pos) < |input| then Some(input[old(pos)]) else None
      ensures pos == old(pos) + if ch.Some? then 1 else 0
    {
      if pos == |input| {
        return None;
      }
      ch := Some(input[pos]);
      pos := pos + 1;
    }

    /** What is left of a refused field is skipped. */
    method SkipField(w0: nat) returns (status: Status)
      requires Valid()
      modifies this`pos
      ensures Valid() && status in {Refused, AtEnd}
    {
      var w := w0;
      while w > 0
        invariant Valid()
      {
        var got := Get();
        if got.None? {
          return AtEnd;
        }
        w := w - 1;
      }
      return Refused;
    }

    /** The loop of rd_I over the characters after the first that is no blank; body is what was read
        after the sign, if any, and x0 its value. */
    method Rest(w0: nat, x0: int, ghost body: string, base: Base) returns (status: Status, x: int)
      requires Valid() && Body(body) && x0 == Wrap(Amount(body, base, cblank))
      modifies this`pos
      ensures Valid()
      ensures GivesRest(body, input[old(pos)..], w0, base, cblank, status, x)
    {
      ghost var s, u := input[pos..], "";
      var w := w0;
      x := x0;
      assert body + u == body;
      while w > 0
        invariant Valid() && |u| + w == w0 && s == u + input[pos..]
        invariant Body(u) && Body(body + u) && x == Wrap(Amount(body + u, base, cblank))
      {
        ghost var ahead := input[pos..];
        var got := Get();
        if got.None? {
          RestStops(body, u, ahead, w0, base, cblank, AtEnd, x);
          return AtEnd, x;
        }
        var ch := got.value;
        assert ahead == [ch] + input[pos..];
        if EndsField(ch) {
          RestEnds(body, u, ahead, w0, base, cblank);
          return Done, x;
        }
        if !IsDigit(ch) && ch != ' ' {
          status := SkipField(w - 1);
          RestStops(body, u, ahead, w0, base, cblank, status, x);
          return;
        }
        RestGoesOn(body, u, ch, input[pos..], base, cblank);
        if IsDigit(ch) {
          x := Wrap(x * base + DigitOf(ch));
        } else if cblank {
          x := Wrap(x * base);
        }
        w, u := w - 1, u + [ch];
      }
      RestEnds(body, u, input[pos..], w0, base, cblank);
      status := Done;
    }

    /** rd_I from its switch on, with ch the first character that is no blank and w0 counting it. */
    method Number(ch: char, w0: nat, base: Base) returns (status: Status, x: int)
      requires Valid() && w0 > 0 && ch != ' '
      modifies this`pos
      ensures Valid() && Gives([ch] + input[old(pos)..], w0, base, cblank, status, x)
    {
      ghost var ahead := input[pos..];
      if EndsField(ch) {
        CutOne(ch, ahead, w0);
        NoneLeft([ch] + ahead, w0, base, cblank);
        return Done, 0;
      }
      if IsSign(ch) {
        BodyStarts(ch, base, cblank);
        status, x := Rest(w0 - 1, 0, "", base);
        ghost var got := x;
        if ch == '-' {
          x := Wrap(-x);
        }
        NumberSigned(ch, ahead, w0, base, cblank, status, got, x);
      } else if IsDigit(ch) {
        BodyStarts(ch, base, cblank);
        status, x := Rest(w0 - 1, DigitOf(ch), [ch], base);
        NumberUnsigned(ch, ahead, w0, base, cblank, status, x);
      } else {
        status := SkipField(w0 - 1);
        x := 0;
        NoNumber(ch, ahead, w0, base, cblank, status, x);
      }
    }

    /** rd_I. GET fails if there is no more input. */
    method Rd_I(w0: nat, base: Base) returns (status: Status, x: int)
      requires Valid()
      modifies this`pos
      ensures Valid() && Gives(input[old(pos)..], w0, base, cblank, status, x)
    {
      ghost var s, k := input[pos..], 0;
      var w := w0;
      while w > 0
        invariant Valid() && k + w == w0 && s == Repeat(' ', k) + input[pos..]
      {
        ghost var ahead := input[pos..];
        var got := Get();
        if got.None? {
          OnlyBlanks(k, w0, base, cblank);
          assert s == Repeat(' ', k);
          return AtEnd, 0;
        }
        assert ahead == [got.value] + input[pos..];
        if got.value != ' ' {
          status, x := Number(got.value, w, base);
          BlanksSkipped(k, ahead, w, s, w0, base, cblank, status, x);
          return;
        }
        assert Repeat(' ', k) + ([' '] + input[pos..]) == Repeat(' ', k + 1) + input[pos..];
        w, k := w - 1, k + 1;
      }
      NoneLeft(input[pos..], w, base, cblank);
      BlanksSkipped(k, input[pos..], w, s, w0, base, cblank, Done, 0);
      return Done, 0;
    }

    /** A value written by Iw or Ow and read back at the same width, whatever follows in the record. */
    method WriteReadI(x: int, w: nat, base: Base, more: string) returns (status: Status, y: int)
      requires Valid() && Longint(x) && (base == 8 || base == 10) && w > 0
      modifies this, buf
      ensures status.Done? <==> |Written(x, 0, base, old(cplus))| <= w
      ensures status.Done? ==> y == x
    {
      ghost var plus := cplus;
      out := "";
      Wrt_I(x, w, base);
      input, pos := out + more, 0;
      assert input[pos..] == FieldI(x, w, base, plus) + more;
      status, y := Rd_I(w, base);
      RoundTripI(x, w, base, plus, cblank);
      FieldGives(FieldI(x, w, base, plus), more, x, w, base, cblank, status, y);
    }

    /** The same with Iw.m. */
    method WriteReadIM(x: int, w: nat, m: nat, base: Base, more: string) returns (status: Status, y: int)
      requires Valid() && Longint(x) && (base == 8 || base == 10) && w > 0
      modifies this, buf
      ensures status.Done? <==> |Written(x, m, base, old(cplus))| <= w
      ensures status.Done? ==> y == x
    {
      ghost var plus := cplus;
      out := "";
      Wrt_IM(x, w, m, base);
      input, pos := out + more, 0;
      assert input[pos..] == FieldIM(x, w, m, base, plus) + more;
      status, y := Rd_I(w, base);
      RoundTripIM(x, w, m, base, plus, cblank);
      FieldGives(FieldIM(x, w, m, base, plus), more, x, w, base, cblank, status, y);
    }
  }
}
