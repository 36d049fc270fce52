// The intermediate file between the passes of the translator, as values: what p1output.c writes
// for an expression, what do_format and its helpers in format.c read, and that the one undoes the
// other.
module Pass1 {
  import opened Numerals
  import opened Options
  import opened Scanning

  const P1_NAME_POINTER: int := 5
  const P1_CONST: int := 6
  const P1_EXPR: int := 7
  const P1_IDENT: int := 8
  const P1_LIST: int := 18

  const IDENT_LEN: nat := 31
  const NTYPES: int := 22
  const STGNULL: int := 13

  /** Expression trees. Hex is an INTEGER*8 or character constant, the latter by its address; addresses
      and INTEGER*8 values are their hexadecimal numerals, real constants their decimal ones. */
  datatype Tree =
    | Null
    | Name(addr: string)
    | Const(vtype: int, ci: int)
    | Hex(vtype: int, digits: string)
    | Real(vtype: int, cds: string)
    | Complex(vtype: int, re: string, im: string)
    | Ident(vtype: int, vstg: int, ident: string)
    | Unary(opcode: int, vtype: int, vleng: Tree, leftp: Tree)
    | Binary(opcode: int, vtype: int, vleng: Tree, leftp: Tree, rightp: Tree)
    | List(tag: int, vtype: int, items: seq<Tree>)

  /** opcode_table. */
  predicate IsUnary(op: int) {
    op == 6 || op == 11 || op == 30 || op == 33 || op == 38 || op == 40 || op == 49 || op == 50 || op == 53
    || op == 57 || op == 58 || op == 59 || op == 67
  }

  predicate IsBinary(op: int) { 0 < op < 67 && !IsUnary(op) }

  /** The types TYINT1, TYSHORT, TYLONG and TYLOGICAL*; TYQUAD and TYCHAR; TYREAL and TYDREAL; TYCOMPLEX and
      TYDCOMPLEX. */
  predicate IntType(ty: int) { 2 <= ty <= 4 || 10 <= ty <= 12 }
  predicate HexType(ty: int) { ty == 5 || ty == 13 }
  predicate RealType(ty: int) { ty == 6 || ty == 7 }
  predicate ComplexType(ty: int) { ty == 8 || ty == 9 }

  // ----- what is written -----

  predicate Space(c: char) { c == ' ' || '\t' <= c <= '\r' }

  predicate NoSpace(c: char) { !Space(c) }

  predicate NotEol(c: char) { c != '\n' }

  predicate HexDigit(c: char) { IsDigit(c) || 'a' <= c <= 'f' }

  predicate HexNumeral(s: string) { s != "" && forall k | 0 <= k < |s| :: '0' <= s[k] <= '9' || 'a' <= s[k] <= 'f' }

  /** Neither blanks nor the control characters 9 to 13: tabs and the ends of lines and pages. */
  predicate Word(s: string) { s != "" && forall k | 0 <= k < |s| :: s[k] != ' ' && !(9 <= s[k] as int <= 13) }

  /** Numbers with a blank before each. */
  function Fields(ns: seq<int>): string {
    if ns == [] then "" else " " + (ShowInt(ns[0]) + Fields(ns[1..]))
  }

  /** A line with a token, numbers, and more text. */
  function Line(token: int, ns: seq<int>, text: string): string {
    ShowInt(token) + (":" + (Fields(ns) + (text + "\n")))
  }

  function Text(t: Tree): string
    decreases t
  {
    match t
    case Null => Line(P1_EXPR, [0, 0], "")
    case Name(addr) => Line(P1_NAME_POINTER, [], " " + addr)
    case Const(ty, ci) => Line(P1_CONST, [ty, ci], "")
    case Hex(ty, digits) => Line(P1_CONST, [ty], " " + digits)
    case Real(ty, cds) => Line(P1_CONST, [ty], " " + cds)
    case Complex(ty, re, im) => Line(P1_CONST, [ty], " " + (re + (" " + im)))
    case Ident(ty, stg, ident) => Line(P1_IDENT, [ty, stg], " " + ident)
    case Unary(op, ty, vleng, l) => Line(P1_EXPR, [op, ty], "") + (Text(vleng) + Text(l))
    case Binary(op, ty, vleng, l, r) => Line(P1_EXPR, [op, ty], "") + (Text(vleng) + (Text(l) + Text(r)))
    case List(tag, ty, items) => Line(P1_LIST, [tag, ty, |items|], "") + Texts(items)
  }

  function Texts(items: seq<Tree>): string
    decreases items
  {
    if items == [] then "" else Text(items[0]) + Texts(items[1..])
  }

  predicate Valid(t: Tree)
    decreases t
  {
    match t
    case Null => true
    case Name(addr) => HexNumeral(addr)
    case Const(ty, _) => ty in {2, 3, 4, 10, 11, 12}
    case Hex(ty, digits) => (ty == 5 || ty == 13) && HexNumeral(digits)
    case Real(ty, cds) => (ty == 6 || ty == 7) && Word(cds)
    case Complex(ty, re, im) => (ty == 8 || ty == 9) && Word(re) && Word(im)
    case Ident(ty, stg, ident) =>
      && 0 <= ty < 22 && 0 <= stg <= 13 && |ident| < 31
      && forall k | 0 <= k < |ident| :: ident[k] != '\n'
    case Unary(op, _, vleng, l) => Written(op, vleng, l) && Valid(vleng) && Valid(l)
    case Binary(op, _, vleng, l, r) => BinaryCode(op) && Valid(vleng) && Valid(l) && Valid(r)
    case List(_, _, items) => ValidAll(items)
  }

  /** OPNEG, OPNOT, OPABS, OPADDR, OPBITNOT, OPPREINC, OPPREDEC, OPNEG1, OPIDENTITY, OPCHARCAST and OPDABS;
      and OPWHATSIN, which p1_addr puts before a name. */
  predicate Written(op: int, vleng: Tree, l: Tree) {
    op in {6, 11, 30, 33, 38, 49, 50, 53, 57, 58, 59} || (op == 40 && vleng.Null? && (l.Name? || l.Ident?))
  }

  /** The other operators from OPPLUS to OPQBITSET. */
  predicate BinaryCode(op: int) { 1 <= op <= 66 && op !in {6, 11, 30, 33, 38, 40, 49, 50, 53, 57, 58, 59} }

  predicate ValidAll(items: seq<Tree>)
    decreases items
  {
    items == [] || (Valid(items[0]) && ValidAll(items[1..]))
  }

  // ----- what is read -----

  function Skip(s: string): (t: string)
    ensures |t| <= |s| && (t != "" ==> t[0] != ' ' && !(9 <= t[0] as int <= 13))
  {
    if s != "" && Space(s[0]) then Skip(s[1..]) else s
  }

  /** %d and %ld of fscanf: the number and what follows it. */
  function ScanInt(s: string): (r: Option<(int, string)>)
    ensures r.Some? ==> |r.value.1| < |s|
  {
    var t := Skip(s);
    var signed := t != "" && (t[0] == '-' || t[0] == '+');
    var u := if signed then t[1..] else t;
    var k := Run(u, IsDigit);
    RunKind(u, IsDigit);
    if k == 0 then None
    else
      var v: int := Value(u[..k], 10);
      Some((if signed && t[0] == '-' then -v else v, u[k..]))
  }

  /** %lx and %s. */
  function ScanRun(s: string, kind: char -> bool): (r: Option<(string, string)>)
    ensures r.Some? ==> |r.value.1| < |s|
  {
    var t := Skip(s);
    var k := Run(t, kind);
    if k == 0 then None else Some((t[..k], t[k..]))
  }

  /** get_p1_token: a number, and the two characters after it, or one if that is a newline. */
  function ScanToken(s: string): (r: Option<(int, string)>)
    ensures r.Some? ==> |r.value.1| < |s|
  {
    match ScanInt(s)
    case None => None
    case Some((token, t)) =>
      Some((token, if t == "" then t else if t[0] == '\n' || |t| == 1 then t[1..] else t[2..]))
  }

  /** p1gets: up to size - 1 characters, or the rest of the line without its newline. */
  function ScanLine(s: string, size: nat): (r: (string, string))
    requires size > 0
    ensures |r.1| <= |s|
  {
    var t := if s != "" && s[0] == ' ' then s[1..] else s;
    var k := Run(t, NotEol);
    if k >= size - 1 then (t[..size - 1], t[size - 1..])
    else (t[..k], if k < |t| then t[k + 1..] else "")
  }

  /** do_format on an expression; None: an error is reported, or it is a statement. At the end of the file
      nothing is read. */
  function Read(s: string): (r: Option<(Tree, string)>)
    ensures r.Some? ==> |r.value.1| <= |s|
    decreases |s|, 0, 0
  {
    if Skip(s) == "" then Some((Null, ""))
    else
      match ScanToken(s)
      case None => None
      case Some((token, t)) =>
        if token == P1_NAME_POINTER then ReadName(t)
        else if token == P1_CONST then ReadConst(t)
        else if token == P1_EXPR then ReadExpr(t)
        else if token == P1_IDENT then ReadIdent(t)
        else if token == P1_LIST then ReadList(t)
        else None
  }

  function ReadName(s: string): (r: Option<(Tree, string)>)
    ensures r.Some? ==> |r.value.1| <= |s|
  {
    match ScanRun(s, HexDigit)
    case None => None
    case Some((addr, t)) => Some((Name(addr), t))
  }

  function ReadConst(s: string): (r: Option<(Tree, string)>)
    ensures r.Some? ==> |r.value.1| <= |s|
  {
    match ScanInt(s)
    case None => None
    case Some((ty, t)) =>
      if IntType(ty) then
        match ScanInt(t)
        case None => None
        case Some((ci, u)) => Some((Const(ty, ci), u))
      else if HexType(ty) then
        match ScanRun(t, HexDigit)
        case None => None
        case Some((digits, u)) => Some((Hex(ty, digits), u))
      else if RealType(ty) then
        match ScanRun(t, NoSpace)
        case None => None
        case Some((cds, u)) => Some((Real(ty, cds), u))
      else if ComplexType(ty) then
        match ScanRun(t, NoSpace)
        case None => None
        case Some((re, u)) =>
          match ScanRun(u, NoSpace)
          case None => None
          case Some((im, v)) => Some((Complex(ty, re, im), v))
      else None
  }

  function ReadIdent(s: string): (r: Option<(Tree, string)>)
    ensures r.Some? ==> |r.value.1| <= |s|
  {
    match ScanInt(s)
    case None => None
    case Some((ty, t)) =>
      match ScanInt(t)
      case None => None
      case Some((stg, u)) =>
        if !(0 <= ty < NTYPES && 0 <= stg <= STGNULL) then None
        else var (ident, v) := ScanLine(u, IDENT_LEN); Some((Ident(ty, stg, ident), v))
  }

  function ReadExpr(s: string): (r: Option<(Tree, string)>)
    ensures r.Some? ==> |r.value.1| <= |s|
    decreases |s|, 1, 0
  {
    match ScanInt(s)
    case None => None
    case Some((op, t)) =>
      match ScanInt(t)
      case None => None
      case Some((ty, u)) =>
        if op == 0 then Some((Null, u))
        else
          match ReadAll(u, if IsUnary(op) then 2 else 3)
          case None => None
          case Some((parts, v)) =>
            if IsUnary(op) then Some((Unary(op, ty, parts[0], parts[1]), v))
            else if IsBinary(op) then Some((Binary(op, ty, parts[0], parts[1], parts[2]), v))
            else None
  }

  function ReadList(s: string): (r: Option<(Tree, string)>)
    ensures r.Some? ==> |r.value.1| <= |s|
    decreases |s|, 1, 0
  {
    match ScanInt(s)
    case None => None
    case Some((tag, t)) =>
      match ScanInt(t)
      case None => None
      case Some((ty, u)) =>
        match ScanInt(u)
        case None => None
        case Some((count, v)) =>
          if count < 0 then None
          else
            match ReadAll(v, count)
            case None => None
            case Some((items, w)) => Some((List(tag, ty, items), w))
  }

  /** n expressions in a row. */
  function ReadAll(s: string, n: nat): (r: Option<(seq<Tree>, string)>)
    ensures r.Some? ==> |r.value.0| == n && |r.value.1| <= |s|
    decreases |s|, 1, n
  {
    if n == 0 then Some(([], s))
    else
      match Read(s)
      case None => None
      case Some((t, u)) =>
        match ReadAll(u, n - 1)
        case None => None
        case Some((ts, v)) => Some(([t] + ts, v))
  }
}
