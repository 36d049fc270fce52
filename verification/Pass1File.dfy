// The procedures of p1output.c, which append to the intermediate file, and those of format.c, which
// consume it.
module Pass1File {
  import opened Numerals
  import opened Options
  import opened Pass1
  import opened Pass1RoundTrip
  import opened Seqs

  const P1_FOR: int := 24

  class Writer {
    var file: string

    constructor ()
      ensures file == ""
    {
      file := "";
    }

    /** p1putd, p1putdd, p1putddd, p1puta, p1putdds and the fprintf of p1_const. */
    method Put(token: int, ns: seq<int>, text: string)
      modifies this
      ensures file == old(file) + Line(token, ns, text)
    {
      file := file + Line(token, ns, text);
    }

    /** p1_expr. */
    method P1_expr(t: Tree)
      requires Valid(t)
      modifies this
      ensures file == old(file) + Text(t)
      decreases Size(t), 1
    {
      match t {
        case Null => Put(P1_EXPR, [0, 0], "");
        case Name(addr) => Put(P1_NAME_POINTER, [], " " + addr);
        case Const(_, _) => P1_const(t);
        case Hex(_, _) => P1_const(t);
        case Real(_, _) => P1_const(t);
        case Complex(_, _, _) => P1_const(t);
        case Ident(ty, stg, ident) => Put(P1_IDENT, [ty, stg], " " + ident);
        case Unary(_, _, _, _) => P1_operands(t, [t.vleng, t.leftp]);
        case Binary(_, _, _, _, _) => P1_operands(t, [t.vleng, t.leftp, t.rightp]);
        case List(_, _, _) => P1_list(t);
      }
    }

    /** p1_const. */
    method P1_const(t: Tree)
      requires Valid(t) && (t.Const? || t.Hex? || t.Real? || t.Complex?)
      modifies this
      ensures file == old(file) + Text(t)
    {
      if IntType(t.vtype) {
        Put(P1_CONST, [t.vtype, t.ci], "");
      } else if HexType(t.vtype) {
        Put(P1_CONST, [t.vtype], " " + t.digits);
      } else if RealType(t.vtype) {
        Put(P1_CONST, [t.vtype], " " + t.cds);
      } else {
        Put(P1_CONST, [t.vtype], " " + (t.re + (" " + t.im)));
      }
    }

    /** p1_unary and p1_binary. */
    method P1_operands(t: Tree, ghost parts: seq<Tree>)
      requires Valid(t) && (t.Unary? || t.Binary?)
      requires parts == if t.Unary? then [t.vleng, t.leftp] else [t.vleng, t.leftp, t.rightp]
      modifies this
      ensures file == old(file) + Text(t)
      decreases Size(t), 0
    {
      ghost var was := file;
      var line := Line(P1_EXPR, [t.opcode, t.vtype], "");
      Put(P1_EXPR, [t.opcode, t.vtype], "");
      P1_expr(t.vleng);
      P1_expr(t.leftp);
      if t.Binary? {
        P1_expr(t.rightp);
        Joined(was, line, Text(t.vleng), Text(t.leftp), Text(t.rightp));
      } else {
        Joined(was, line, Text(t.vleng), Text(t.leftp), "");
      }
    }

    /** p1_list. */
    method P1_list(t: Tree)
      requires Valid(t) && t.List?
      modifies this
      ensures file == old(file) + Text(t)
      decreases Size(t), 0
    {
      ghost var was := file;
      var line := Line(P1_LIST, [t.tag, t.vtype, |t.items|], "");
      Put(P1_LIST, [t.tag, t.vtype, |t.items|], "");
      var i := 0;
      while i < |t.items|
        invariant 0 <= i <= |t.items| && ValidAll(t.items[i..]) && Sizes(t.items[i..]) <= Sizes(t.items)
        invariant file + Texts(t.items[i..]) == was + line + Texts(t.items)
      {
        assert t.items[i..][0] == t.items[i] && t.items[i..][1..] == t.items[i + 1..];
        AppendAssoc(file, Text(t.items[i]), Texts(t.items[i + 1..]));
        P1_expr(t.items[i]);
        i := i + 1;
      }
      AppendAssoc(was, line, Texts(t.items));
      assert file + "" == file;
    }

    /** p1_for. */
    method P1_for(init: Tree, test: Tree, inc: Tree)
      requires Valid(init) && Valid(test) && Valid(inc)
      modifies this
      ensures file == old(file) + (Line(P1_FOR, [], "") + Texts([init, test, inc]))
    {
      ghost var was := file;
      Put(P1_FOR, [], "");
      P1_expr(init);
      P1_expr(test);
      P1_expr(inc);
      ThreeParts(init, test, inc);
      Joined(was, Line(P1_FOR, [], ""), Text(init), Text(test), Text(inc));
    }
  }

  lemma Joined(a: string, b: string, c: string, d: string, e: string)
    ensures (((a + b) + c) + d) + e == a + (b + (c + (d + e)))
    ensures ((a + b) + c) + d == a + (b + (c + d))
  {}

  class Reader {
    /** What has not been read of the file. */
    var ahead: string

    constructor (file: string)
      ensures ahead == file
    {
      ahead := file;
    }

    /** p1getd. */
    method P1getd() returns (n: Option<int>)
      modifies this
      ensures match ScanInt(old(ahead)) case None => n == None case Some((v, rest)) => n == Some(v) && ahead == rest
    {
      var r := ScanInt(ahead);
      if r.None? {
        return None;
      }
      ahead := r.value.1;
      n := Some(r.value.0);
    }

    /** fscanf with %lx, %llx or %s. */
    method P1getrun(kind: char -> bool) returns (word: Option<string>)
      modifies this
      ensures match ScanRun(old(ahead), kind)
              case None => word == None
              case Some((w, rest)) => word == Some(w) && ahead == rest
    {
      var r := ScanRun(ahead, kind);
      if r.None? {
        return None;
      }
      ahead := r.value.1;
      word := Some(r.value.0);
    }

    /** A result, and that it and what is left to read are those of Read. */
    ghost predicate Reads(r: Option<Tree>, got: Option<(Tree, string)>)
      reads this
    {
      match got case None => r == None case Some((t, rest)) => r == Some(t) && ahead == rest
    }

    /** do_format. */
    method Do_format() returns (r: Option<Tree>)
      modifies this
      ensures Reads(r, Read(old(ahead)))
      decreases |ahead|, 0, 0
    {
      if Skip(ahead) == "" {
        ahead := "";
        return Some(Null);
      }
      var token := Get_p1_token();
      if token.None? {
        return None;
      }
      if token.value == P1_NAME_POINTER {
        r := Do_p1_name_pointer();
      } else if token.value == P1_CONST {
        r := Do_p1_const();
      } else if token.value == P1_EXPR {
        r := Do_p1_expr();
      } else if token.value == P1_IDENT {
        r := Do_p1_ident();
      } else if token.value == P1_LIST {
        r := Do_p1_list();
      } else {
        r := None;
      }
    }

    /** get_p1_token. */
    method Get_p1_token() returns (token: Option<int>)
      modifies this
      ensures match ScanToken(old(ahead))
              case None => token == None
              case Some((v, rest)) => token == Some(v) && ahead == rest
    {
      token := P1getd();
      if token.Some? && ahead != "" {
        if ahead[0] == '\n' || |ahead| == 1 {
          ahead := ahead[1..];
        } else {
          ahead := ahead[2..];
        }
      }
    }

    method Do_p1_name_pointer() returns (r: Option<Tree>)
      modifies this
      ensures Reads(r, ReadName(old(ahead)))
    {
      var addr := P1getrun(HexDigit);
      r := if addr.Some? then Some(Name(addr.value)) else None;
    }

    /** do_p1_const with p1get_const. */
    method Do_p1_const() returns (r: Option<Tree>)
      modifies this
      ensures Reads(r, ReadConst(old(ahead)))
    {
      r := None;
      var ty := P1getd();
      if ty.None? {
        return;
      }
      if IntType(ty.value) {
        var ci := P1getd();
        r := if ci.Some? then Some(Const(ty.value, ci.value)) else None;
      } else if HexType(ty.value) {
        var digits := P1getrun(HexDigit);
        r := if digits.Some? then Some(Hex(ty.value, digits.value)) else None;
      } else if RealType(ty.value) {
        var cds := P1getrun(NoSpace);
        r := if cds.Some? then Some(Real(ty.value, cds.value)) else None;
      } else if ComplexType(ty.value) {
        var re := P1getrun(NoSpace);
        if re.Some? {
          var im := P1getrun(NoSpace);
          r := if im.Some? then Some(Complex(ty.value, re.value, im.value)) else None;
        }
      }
    }

    method Do_p1_ident() returns (r: Option<Tree>)
      modifies this
      ensures Reads(r, ReadIdent(old(ahead)))
    {
      r := None;
      var ty := P1getd();
      if ty.None? {
        return;
      }
      var stg := P1getd();
      if stg.None? || !(0 <= ty.value < NTYPES && 0 <= stg.value <= STGNULL) {
        return;
      }
      var (ident, rest) := ScanLine(ahead, IDENT_LEN);
      ahead := rest;
      r := Some(Ident(ty.value, stg.value, ident));
    }

    method Do_p1_expr() returns (r: Option<Tree>)
      modifies this
      ensures Reads(r, ReadExpr(old(ahead)))
      decreases |ahead|, 1, 0
    {
      r := None;
      var op := P1getd();
      if op.None? {
        return;
      }
      var ty := P1getd();
      if ty.None? {
        return;
      }
      if op.value == 0 {
        return Some(Null);
      }
      var parts := Do_all(if IsUnary(op.value) then 2 else 3);
      if parts.Some? {
        var p := parts.value;
        if IsUnary(op.value) {
          r := Some(Unary(op.value, ty.value, p[0], p[1]));
        } else if IsBinary(op.value) {
          r := Some(Binary(op.value, ty.value, p[0], p[1], p[2]));
        }
      }
    }

    method Do_p1_list() returns (r: Option<Tree>)
      modifies this
      ensures Reads(r, ReadList(old(ahead)))
      decreases |ahead|, 1, 0
    {
      r := None;
      var tag := P1getd();
      if tag.None? {
        return;
      }
      var ty := P1getd();
      if ty.None? {
        return;
      }
      var count := P1getd();
      if count.None? || count.value < 0 {
        return;
      }
      var items := Do_all(count.value);
      r := if items.Some? then Some(List(tag.value, ty.value, items.value)) else None;
    }

    /** n calls of do_format. */
    method Do_all(n: nat) returns (ts: Option<seq<Tree>>)
      modifies this
      ensures match ReadAll(old(ahead), n)
              case None => ts == None
              case Some((all, rest)) => ts == Some(all) && ahead == rest
      decreases |ahead|, 1, n
    {
      if n == 0 {
        return Some([]);
      }
      var t := Do_format();
      if t.None? {
        return None;
      }
      var more := Do_all(n - 1);
      ts := if more.Some? then Some([t.value] + more.value) else None;
    }
  }

  /** A FOR line and its three expressions, written and read back, whatever was in the file before and comes
      after. */
  method ForAndBack(init: Tree, test: Tree, inc: Tree, after: string)
    returns (token: Option<int>, parts: Option<seq<Tree>>)
    requires Valid(init) && Valid(test) && Valid(inc)
    ensures token == Some(P1_FOR) && parts == Some([init, test, inc])
  {
    var w := new Writer();
    w.P1_for(init, test, inc);
    ghost var body := Texts([init, test, inc]) + after;
    var file := w.file + after;
    ForToken(file, Texts([init, test, inc]), after);
    var r := new Reader(file);
    token := r.Get_p1_token();
    ThreeParts(init, test, inc);
    ghost var ws := AllRead("", [init, test, inc], after);
    assert "" + body == body;
    parts := r.Do_all(3);
  }

  lemma ForToken(file: string, texts: string, after: string)
    requires file == "" + (Line(P1_FOR, [], "") + texts) + after
    ensures ScanToken(file) == Some((P1_FOR, texts + after))
  {
    var rest := ":" + ("\n" + (texts + after));
    assert Line(P1_FOR, [], "") == ShowInt(P1_FOR) + ":\n";
    assert file == ShowInt(P1_FOR) + rest;
    IntScans(P1_FOR, rest);
    assert rest[2..] == texts + after;
  }
}
