// What has been written to the intermediate file is read back.
module Pass1RoundTrip {
  import opened Numerals
  import opened Options
  import opened Pass1
  import opened Scanning
  import opened Seqs

  predicate Spaces(s: string) { forall k | 0 <= k < |s| :: Space(s[k]) }

  lemma {:induction false} SkipSpaces(ws: string, s: string)
    requires Spaces(ws)
    ensures Skip(ws + s) == Skip(s)
  {
    if ws == "" {
      assert ws + s == s;
    } else {
      SkipSpaces(ws[1..], s);
      assert (ws + s)[1..] == ws[1..] + s;
    }
  }

  lemma ScanSpaces(ws: string, s: string, kind: char -> bool)
    requires Spaces(ws)
    ensures ScanInt(ws + s) == ScanInt(s) && ScanRun(ws + s, kind) == ScanRun(s, kind)
  {
    SkipSpaces(ws, s);
  }

  lemma RunScans(a: string, rest: string, kind: char -> bool)
    requires a != "" && (forall k | 0 <= k < |a| :: kind(a[k])) && !Space(a[0]) && Stops(rest, kind)
    ensures ScanRun(a + rest, kind) == Some((a, rest))
  {
    RunOver(a, rest, kind);
  }

  lemma NatScans(n: nat, rest: string)
    requires Stops(rest, IsDigit)
    ensures var v: int := n;
            && ScanInt(Show(n, 10) + rest) == Some((v, rest))
            && ScanInt("-" + (Show(n, 10) + rest)) == Some((-v, rest))
  {
    var a := Show(n, 10);
    ShowValue(n, 10);
    RunOver(a, rest, IsDigit);
    assert IsDigit((a + rest)[0]);
    assert ("-" + (a + rest))[1..] == a + rest;
    assert (a + rest)[..|a|] == a && (a + rest)[|a|..] == rest;
  }

  lemma IntScans(n: int, rest: string)
    requires Stops(rest, IsDigit)
    ensures ScanInt(ShowInt(n) + rest) == Some((n, rest))
  {
    NatScans(if n < 0 then -n else n, rest);
    if n < 0 {
      AppendAssoc("-", Show(-n, 10), rest);
    }
  }

  /** The next number of a line. */
  lemma FieldScans(ns: seq<int>, rest: string)
    requires ns != [] && Stops(Fields(ns[1..]) + rest, IsDigit)
    ensures ScanInt(Fields(ns) + rest) == Some((ns[0], Fields(ns[1..]) + rest))
  {
    var n, more := ShowInt(ns[0]), Fields(ns[1..]);
    AppendAssoc(" ", n + more, rest);
    AppendAssoc(n, more, rest);
    ScanSpaces(" ", n + (more + rest), IsDigit);
    IntScans(ns[0], more + rest);
  }

  /** What follows the token of a line. */
  function Tail(ns: seq<int>, text: string, rest: string): string { Fields(ns) + (text + ("\n" + rest)) }

  lemma LineApart(token: int, ns: seq<int>, text: string, rest: string)
    ensures Line(token, ns, text) + rest == ShowInt(token) + (":" + Tail(ns, text, rest))
  {
    var body := Fields(ns) + (text + "\n");
    AppendAssoc(ShowInt(token), ":" + body, rest);
    AppendAssoc(":", body, rest);
    AppendAssoc(Fields(ns), text + "\n", rest);
    AppendAssoc(text, "\n", rest);
  }

  /** The token of a line and the blank behind it are skipped, and the blank would be anyway. */
  lemma TokenScans(ws: string, token: int, ns: seq<int>, text: string, rest: string) returns (x: string)
    requires Spaces(ws) && (ns != [] || (text != "" && text[0] == ' '))
    ensures ScanToken(ws + (Line(token, ns, text) + rest)) == Some((token, x))
    ensures " " + x == Tail(ns, text, rest) && ScanInt(x) == ScanInt(Tail(ns, text, rest))
    ensures ScanRun(x, HexDigit) == ScanRun(Tail(ns, text, rest), HexDigit)
    ensures Skip(ws + (Line(token, ns, text) + rest)) != ""
  {
    var tail := Tail(ns, text, rest);
    TailStarts(ns, text, rest);
    x := tail[1..];
    assert " " + x == tail;
    LineApart(token, ns, text, rest);
    TokenApart(ws, token, x);
    ScanSpaces(" ", x, HexDigit);
  }

  lemma TailStarts(ns: seq<int>, text: string, rest: string)
    requires ns != [] || (text != "" && text[0] == ' ')
    ensures Tail(ns, text, rest) != "" && Tail(ns, text, rest)[0] == ' '
  {
    if ns == [] {
      assert Tail(ns, text, rest) == text + ("\n" + rest);
    }
  }

  lemma TokenApart(ws: string, token: int, x: string)
    requires Spaces(ws)
    ensures ScanToken(ws + (ShowInt(token) + (":" + (" " + x)))) == Some((token, x))
    ensures Skip(ws + (ShowInt(token) + (":" + (" " + x)))) != ""
  {
    var t := ":" + (" " + x);
    ScanSpaces(ws, ShowInt(token) + t, IsDigit);
    IntScans(token, t);
    assert t[2..] == x;
  }

  /** Two numbers behind a token. */
  lemma TwoScan(a: int, b: int, rest: string)
    requires Stops(rest, IsDigit)
    ensures var one := Fields([b]) + rest;
            ScanInt(Fields([a, b]) + rest) == Some((a, one)) && ScanInt(one) == Some((b, rest))
  {
    assert [a, b][1..] == [b] && [b][1..] == [];
    assert Fields([]) + rest == rest;
    FieldScans([b], rest);
    FieldScans([a, b], rest);
  }

  lemma {:induction false} ReadsBy(s: string, token: int, x: string)
    requires Skip(s) != "" && ScanToken(s) == Some((token, x))
    ensures token == P1_NAME_POINTER ==> Read(s) == ReadName(x)
    ensures token == P1_CONST ==> Read(s) == ReadConst(x)
    ensures token == P1_EXPR ==> Read(s) == ReadExpr(x)
    ensures token == P1_IDENT ==> Read(s) == ReadIdent(x)
    ensures token == P1_LIST ==> Read(s) == ReadList(x)
  {}

  // ----- one line -----

  lemma NullReads(ws: string, rest: string)
    requires Spaces(ws)
    ensures Read(ws + (Text(Null) + rest)) == Some((Null, "\n" + rest))
  {
    var x := TokenScans(ws, P1_EXPR, [0, 0], "", rest);
    ReadsBy(ws + (Text(Null) + rest), P1_EXPR, x);
    assert "" + ("\n" + rest) == "\n" + rest;
    TwoScan(0, 0, "\n" + rest);
  }

  lemma NameReads(ws: string, addr: string, rest: string)
    requires Spaces(ws) && HexNumeral(addr)
    ensures Read(ws + (Text(Name(addr)) + rest)) == Some((Name(addr), "\n" + rest))
  {
    var x := TokenScans(ws, P1_NAME_POINTER, [], " " + addr, rest);
    ReadsBy(ws + (Text(Name(addr)) + rest), P1_NAME_POINTER, x);
    BareTail(addr, rest);
    WordScans(addr, "\n" + rest, HexDigit);
    NameBy(x, addr, "\n" + rest);
  }

  lemma NameBy(x: string, addr: string, t: string)
    requires ScanRun(x, HexDigit) == Some((addr, t))
    ensures ReadName(x) == Some((Name(addr), t))
  {}

  /** Text behind a blank, with the end of the line. */
  lemma BlankText(text: string, rest: string)
    ensures " " + text + ("\n" + rest) == " " + (text + ("\n" + rest))
  {}

  lemma BareTail(text: string, rest: string)
    ensures Tail([], " " + text, rest) == " " + (text + ("\n" + rest))
  {
    BlankText(text, rest);
    assert "" + (" " + (text + ("\n" + rest))) == " " + (text + ("\n" + rest));
  }

  lemma ConstReads(ws: string, ty: int, ci: int, rest: string)
    requires Spaces(ws) && IntType(ty)
    ensures Read(ws + (Text(Const(ty, ci)) + rest)) == Some((Const(ty, ci), "\n" + rest))
  {
    var x := TokenScans(ws, P1_CONST, [ty, ci], "", rest);
    ReadsBy(ws + (Text(Const(ty, ci)) + rest), P1_CONST, x);
    assert "" + ("\n" + rest) == "\n" + rest;
    TwoScan(ty, ci, "\n" + rest);
  }

  /** A type, and what follows it in the line. */
  lemma TypeScans(ty: int, text: string, rest: string)
    ensures var more := " " + (text + ("\n" + rest));
            Tail([ty], " " + text, rest) == Fields([ty]) + more && ScanInt(Fields([ty]) + more) == Some((ty, more))
  {
    assert [ty][1..] == [] && Fields([]) + (" " + (text + ("\n" + rest))) == " " + (text + ("\n" + rest));
    BlankText(text, rest);
    FieldScans([ty], " " + (text + ("\n" + rest)));
  }

  /** A numeral behind a blank. */
  lemma WordScans(text: string, rest: string, kind: char -> bool)
    requires text != "" && forall k | 0 <= k < |text| :: kind(text[k]) && !Space(text[k])
    requires Stops(rest, kind)
    ensures ScanRun(" " + (text + rest), kind) == Some((text, rest))
  {
    ScanSpaces(" ", text + rest, kind);
    RunScans(text, rest, kind);
  }

  lemma HexReads(ws: string, ty: int, digits: string, rest: string)
    requires Spaces(ws) && HexType(ty) && HexNumeral(digits)
    ensures Read(ws + (Text(Hex(ty, digits)) + rest)) == Some((Hex(ty, digits), "\n" + rest))
  {
    var x := TokenScans(ws, P1_CONST, [ty], " " + digits, rest);
    ReadsBy(ws + (Text(Hex(ty, digits)) + rest), P1_CONST, x);
    TypeScans(ty, digits, rest);
    WordScans(digits, "\n" + rest, HexDigit);
  }

  lemma RealReads(ws: string, ty: int, cds: string, rest: string)
    requires Spaces(ws) && RealType(ty) && Word(cds)
    ensures Read(ws + (Text(Real(ty, cds)) + rest)) == Some((Real(ty, cds), "\n" + rest))
  {
    var x := TokenScans(ws, P1_CONST, [ty], " " + cds, rest);
    ReadsBy(ws + (Text(Real(ty, cds)) + rest), P1_CONST, x);
    TypeScans(ty, cds, rest);
    WordScans(cds, "\n" + rest, NoSpace);
  }

  lemma ComplexReads(ws: string, ty: int, re: string, im: string, rest: string)
    requires Spaces(ws) && ComplexType(ty) && Word(re) && Word(im)
    ensures Read(ws + (Text(Complex(ty, re, im)) + rest)) == Some((Complex(ty, re, im), "\n" + rest))
  {
    var text := re + (" " + im);
    var x := TokenScans(ws, P1_CONST, [ty], " " + text, rest);
    ReadsBy(ws + (Text(Complex(ty, re, im)) + rest), P1_CONST, x);
    TypeScans(ty, text, rest);
    TwoWords(re, im, rest);
    ComplexBy(x, ty, " " + (text + ("\n" + rest)), re, " " + (im + ("\n" + rest)), im, "\n" + rest);
  }

  lemma TwoWords(re: string, im: string, rest: string)
    requires Word(re) && Word(im)
    ensures var t, u := " " + (re + (" " + im) + ("\n" + rest)), " " + (im + ("\n" + rest));
            ScanRun(t, NoSpace) == Some((re, u)) && ScanRun(u, NoSpace) == Some((im, "\n" + rest))
  {
    var u := " " + (im + ("\n" + rest));
    assert re + (" " + im) + ("\n" + rest) == re + u;
    WordScans(re, u, NoSpace);
    WordScans(im, "\n" + rest, NoSpace);
  }

  lemma ComplexBy(x: string, ty: int, t: string, re: string, u: string, im: string, v: string)
    requires ScanInt(x) == Some((ty, t)) && ComplexType(ty)
    requires ScanRun(t, NoSpace) == Some((re, u)) && ScanRun(u, NoSpace) == Some((im, v))
    ensures ReadConst(x) == Some((Complex(ty, re, im), v))
  {}

  lemma LineScans(ident: string, rest: string) returns (ws: string)
    requires |ident| < IDENT_LEN && forall k | 0 <= k < |ident| :: NotEol(ident[k])
    ensures Spaces(ws) && ScanLine(" " + (ident + ("\n" + rest)), IDENT_LEN) == (ident, ws + rest)
  {
    assert (" " + (ident + ("\n" + rest)))[1..] == ident + ("\n" + rest);
    RunOver(ident, "\n" + rest, NotEol);
    assert (ident + ("\n" + rest))[..|ident|] == ident && (ident + ("\n" + rest))[|ident|..] == "\n" + rest;
    assert (ident + ("\n" + rest))[|ident| + 1..] == rest;
    ws := if |ident| == IDENT_LEN - 1 then "\n" else "";
    assert "" + rest == rest;
  }

  lemma IdentReads(ws: string, ty: int, stg: int, ident: string, rest: string) returns (ws': string)
    requires Spaces(ws) && Valid(Ident(ty, stg, ident))
    ensures Spaces(ws') && Read(ws + (Text(Ident(ty, stg, ident)) + rest)) == Some((Ident(ty, stg, ident), ws' + rest))
  {
    var x := TokenScans(ws, P1_IDENT, [ty, stg], " " + ident, rest);
    ReadsBy(ws + (Text(Ident(ty, stg, ident)) + rest), P1_IDENT, x);
    var t := " " + (ident + ("\n" + rest));
    BlankText(ident, rest);
    TwoScan(ty, stg, t);
    ws' := LineScans(ident, rest);
    IdentBy(x, ty, Fields([stg]) + t, stg, t, ident, ws' + rest);
  }

  lemma IdentBy(x: string, ty: int, t: string, stg: int, u: string, ident: string, v: string)
    requires ScanInt(x) == Some((ty, t)) && ScanInt(t) == Some((stg, u)) && 0 <= ty < NTYPES && 0 <= stg <= STGNULL
    requires ScanLine(u, IDENT_LEN) == (ident, v)
    ensures ReadIdent(x) == Some((Ident(ty, stg, ident), v))
  {}

  // ----- trees -----

  function Size(t: Tree): nat
    decreases t
  {
    match t
    case Unary(_, _, vleng, l) => 3 + Size(vleng) + Size(l)
    case Binary(_, _, vleng, l, r) => 4 + Size(vleng) + Size(l) + Size(r)
    case List(_, _, items) => 1 + Sizes(items)
    case _ => 1
  }

  function Sizes(items: seq<Tree>): nat
    decreases items
  {
    if items == [] then 0 else 1 + Size(items[0]) + Sizes(items[1..])
  }

  lemma TwoParts(a: Tree, b: Tree)
    ensures Texts([a, b]) == Text(a) + Text(b) && Sizes([a, b]) == 2 + Size(a) + Size(b)
    ensures ValidAll([a, b]) <==> Valid(a) && Valid(b)
  {
    assert [a, b][1..] == [b] && [b][1..] == [];
    assert Texts([b]) == Text(b) + "" == Text(b);
    assert Sizes([b]) == 1 + Size(b) && (ValidAll([b]) <==> Valid(b));
  }

  lemma ThreeParts(a: Tree, b: Tree, c: Tree)
    ensures Texts([a, b, c]) == Text(a) + (Text(b) + Text(c)) && Sizes([a, b, c]) == 3 + Size(a) + Size(b) + Size(c)
    ensures ValidAll([a, b, c]) <==> Valid(a) && Valid(b) && Valid(c)
  {
    assert [a, b, c][1..] == [b, c];
    TwoParts(b, c);
  }

  /** do_p1_expr behind a token: the opcode and the type. */
  lemma ExprScans(ws: string, op: int, ty: int, body: string) returns (x: string)
    requires Spaces(ws)
    ensures Skip(ws + (Line(P1_EXPR, [op, ty], "") + body)) != ""
    ensures ScanToken(ws + (Line(P1_EXPR, [op, ty], "") + body)) == Some((P1_EXPR, x))
    ensures var t := Fields([ty]) + ("\n" + body);
            ScanInt(x) == Some((op, t)) && ScanInt(t) == Some((ty, "\n" + body))
  {
    x := TokenScans(ws, P1_EXPR, [op, ty], "", body);
    assert "" + ("\n" + body) == "\n" + body;
    TwoScan(op, ty, "\n" + body);
  }

  lemma {:induction false} UnaryBy(
    x: string, op: int, t: string, ty: int, u: string, vleng: Tree, l: Tree, v: string)
    requires ScanInt(x) == Some((op, t)) && ScanInt(t) == Some((ty, u)) && IsUnary(op)
    requires ReadAll(u, 2) == Some(([vleng, l], v))
    ensures ReadExpr(x) == Some((Unary(op, ty, vleng, l), v))
  {}

  lemma {:induction false} BinaryBy(
    x: string, op: int, t: string, ty: int, u: string, vleng: Tree, l: Tree, r: Tree, v: string)
    requires ScanInt(x) == Some((op, t)) && ScanInt(t) == Some((ty, u)) && IsBinary(op)
    requires ReadAll(u, 3) == Some(([vleng, l, r], v))
    ensures ReadExpr(x) == Some((Binary(op, ty, vleng, l, r), v))
  {}

  lemma {:induction false} UnaryReads(ws: string, t: Tree, rest: string) returns (ws': string)
    requires Spaces(ws) && Valid(t) && t.Unary?
    ensures Spaces(ws') && Read(ws + (Text(t) + rest)) == Some((t, ws' + rest))
    decreases Size(t), 0
  {
    var parts := [t.vleng, t.leftp];
    TwoParts(t.vleng, t.leftp);
    var body := Texts(parts) + rest;
    AppendAssoc(Line(P1_EXPR, [t.opcode, t.vtype], ""), Texts(parts), rest);
    var x := ExprScans(ws, t.opcode, t.vtype, body);
    ws' := AllRead("\n", parts, rest);
    UnaryBy(x, t.opcode, Fields([t.vtype]) + ("\n" + body), t.vtype, "\n" + body, t.vleng, t.leftp, ws' + rest);
    ReadsBy(ws + (Text(t) + rest), P1_EXPR, x);
  }

  lemma {:induction false} BinaryReads(ws: string, t: Tree, rest: string) returns (ws': string)
    requires Spaces(ws) && Valid(t) && t.Binary?
    ensures Spaces(ws') && Read(ws + (Text(t) + rest)) == Some((t, ws' + rest))
    decreases Size(t), 0
  {
    var parts := [t.vleng, t.leftp, t.rightp];
    ThreeParts(t.vleng, t.leftp, t.rightp);
    var body := Texts(parts) + rest;
    AppendAssoc(Line(P1_EXPR, [t.opcode, t.vtype], ""), Texts(parts), rest);
    var x := ExprScans(ws, t.opcode, t.vtype, body);
    ws' := AllRead("\n", parts, rest);
    BinaryBy(x, t.opcode, Fields([t.vtype]) + ("\n" + body), t.vtype, "\n" + body, t.vleng, t.leftp, t.rightp,
             ws' + rest);
    ReadsBy(ws + (Text(t) + rest), P1_EXPR, x);
  }

  lemma {:induction false} ListBy(
    x: string, tag: int, t: string, ty: int, u: string, items: seq<Tree>, v: string, w: string)
    requires ScanInt(x) == Some((tag, t)) && ScanInt(t) == Some((ty, u)) && ScanInt(u) == Some((|items|, v))
    requires ReadAll(v, |items|) == Some((items, w))
    ensures ReadList(x) == Some((List(tag, ty, items), w))
  {}

  lemma ThreeScan(a: int, b: int, c: int, rest: string)
    requires Stops(rest, IsDigit)
    ensures var two, one := Fields([b, c]) + rest, Fields([c]) + rest;
            && ScanInt(Fields([a, b, c]) + rest) == Some((a, two)) && ScanInt(two) == Some((b, one))
            && ScanInt(one) == Some((c, rest))
  {
    assert [a, b, c][1..] == [b, c];
    TwoScan(b, c, rest);
    FieldScans([a, b, c], rest);
  }

  lemma {:induction false} ListReads(ws: string, t: Tree, rest: string) returns (ws': string)
    requires Spaces(ws) && Valid(t) && t.List?
    ensures Spaces(ws') && Read(ws + (Text(t) + rest)) == Some((t, ws' + rest))
    decreases Size(t), 0
  {
    var body := Texts(t.items) + rest;
    AppendAssoc(Line(P1_LIST, [t.tag, t.vtype, |t.items|], ""), Texts(t.items), rest);
    ws' := AllRead("\n", t.items, rest);
    ListLine(ws, t, body, ws' + rest);
  }

  /** The line that starts a list whose items are read from the newline on. */
  lemma {:induction false} ListLine(ws: string, t: Tree, body: string, after: string)
    requires Spaces(ws) && t.List? && ReadAll("\n" + body, |t.items|) == Some((t.items, after))
    ensures Read(ws + (Line(P1_LIST, [t.tag, t.vtype, |t.items|], "") + body)) == Some((t, after))
  {
    var ns := [t.tag, t.vtype, |t.items|];
    var x := TokenScans(ws, P1_LIST, ns, "", body);
    assert "" + ("\n" + body) == "\n" + body;
    ThreeScan(t.tag, t.vtype, |t.items|, "\n" + body);
    ListBy(x, t.tag, Fields([t.vtype, |t.items|]) + ("\n" + body), t.vtype, Fields([|t.items|]) + ("\n" + body),
           t.items, "\n" + body, after);
    ReadsBy(ws + (Line(P1_LIST, ns, "") + body), P1_LIST, x);
  }

  /** Reading at the text of a tree gives the tree and leaves what follows it, up to the newline that the next
      token skips. */
  lemma {:induction false} ReadsBack(ws: string, t: Tree, rest: string) returns (ws': string)
    requires Spaces(ws) && Valid(t)
    ensures Spaces(ws') && Read(ws + (Text(t) + rest)) == Some((t, ws' + rest))
    decreases Size(t), 1
  {
    ws' := "\n";
    match t {
      case Null => NullReads(ws, rest);
      case Name(addr) => NameReads(ws, addr, rest);
      case Const(ty, ci) => ConstReads(ws, ty, ci, rest);
      case Hex(ty, digits) => HexReads(ws, ty, digits, rest);
      case Real(ty, cds) => RealReads(ws, ty, cds, rest);
      case Complex(ty, re, im) => ComplexReads(ws, ty, re, im, rest);
      case Ident(ty, stg, ident) => ws' := IdentReads(ws, ty, stg, ident, rest);
      case Unary(_, _, _, _) => ws' := UnaryReads(ws, t, rest);
      case Binary(_, _, _, _, _) => ws' := BinaryReads(ws, t, rest);
      case List(_, _, _) => ws' := ListReads(ws, t, rest);
    }
  }

  lemma {:induction false} MoreRead(s: string, t: Tree, u: string, ts: seq<Tree>, v: string)
    requires Read(s) == Some((t, u)) && ReadAll(u, |ts|) == Some((ts, v))
    ensures ReadAll(s, |ts| + 1) == Some(([t] + ts, v))
  {}

  /** So do any number of trees in a row: none runs into the next. */
  lemma {:induction false} AllRead(ws: string, items: seq<Tree>, rest: string) returns (ws': string)
    requires Spaces(ws) && ValidAll(items)
    ensures Spaces(ws') && ReadAll(ws + (Texts(items) + rest), |items|) == Some((items, ws' + rest))
    decreases Sizes(items), 2
  {
    if items == [] {
      ws' := ws;
      assert "" + rest == rest;
    } else {
      var more := Texts(items[1..]) + rest;
      AppendAssoc(Text(items[0]), Texts(items[1..]), rest);
      var ws1 := ReadsBack(ws, items[0], more);
      ws' := AllRead(ws1, items[1..], rest);
      MoreRead(ws + (Texts(items) + rest), items[0], ws1 + more, items[1..], ws' + rest);
      assert items == [items[0]] + items[1..];
    }
  }

  /** The text of a tree determines it, and where it ends. */
  lemma TextsDiffer(a: Tree, b: Tree, r: string, s: string)
    requires Valid(a) && Valid(b) && Text(a) + r == Text(b) + s
    ensures a == b && r == s
  {
    var va := ReadsBack("", a, r);
    var vb := ReadsBack("", b, s);
    assert (Text(a) + r)[|Text(a)|..] == r && (Text(b) + s)[|Text(b)|..] == s;
  }
}
