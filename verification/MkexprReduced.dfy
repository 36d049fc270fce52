// What mkexpr simplifies: no expression it builds contains one of the forms its rules are for, and it
// never makes an expression larger.
module MkexprReduced {
  import opened Options
  import opened Powers
  import opened Mkexpr
  import opened MkexprValue

  /** x * c or x << c for an integer constant c: the factor. */
  function Factor(e: Expr): Option<int> {
    if Grouping(e, OPSTAR) then Some(e.rightp.ci)
    else if Grouping(e, OPLSHIFT) && 0 <= e.rightp.ci < 31 then Some(Power(2, e.rightp.ci))
    else None
  }

  /** i or i + c for a name i without arguments. */
  function Base(e: Expr): Option<nat> {
    match e
    case Prim(_, namep, None) => Some(namep)
    case Bin(OPPLUS, _, Prim(_, namep, None), Con(_, _)) => Some(namep)
    case _ => None
  }

  /** Two constants whose operation can be computed. */
  predicate Constants(op: BinOp, l: Expr, r: Expr) {
    l.Con? && r.Con? && !(op.OPSLASH? && r.ci == 0) && !(op.OPPOWER? && r.ci < 0 && l.ci == 0)
  }

  /** Operations that are not left as they are: on constants, on neutral elements, with a constant where it
      does not belong or that can be joined with one inside, and differences of places in one array. */
  predicate Redex(op: BinOp, l: Expr, r: Expr) {
    Constants(op, l, r) ||
    match op
    case OPSTAR => IntCon(l) || (IntCon(r) && (-1 <= r.ci <= 1 || Factor(l).Some?))
    case OPSLASH =>
      IntCon(r) && r.ci != 0 && (-1 <= r.ci <= 1 || (Factor(l).Some? && Rem(Factor(l).value, r.ci) == 0))
    case OPPLUS => IntCon(l) || (IntCon(r) && (r.ci == 0 || Grouping(l, OPPLUS)))
    case OPMINUS =>
      || (IntCon(l) && l.ci == 0)
      || (IntCon(r) && (r.ci >= -Greatest(r.vtype) || Grouping(l, OPPLUS)))
      || (Base(l).Some? && Base(l) == Base(r))
    case OPAND | OPOR => l.Con? || r.Con?
    case _ => false
  }

  predicate RedexUn(op: UnOp, l: Expr) {
    l.Con? || (l.Una? && l.un == if op == OPNOT then OPNOT else OPNEG)
  }

  predicate Reduced(e: Expr) {
    match e
    case Una(op, _, l) => Reduced(l) && !RedexUn(op, l)
    case Bin(op, _, l, r) => Reduced(l) && Reduced(r) && !Redex(op, l, r)
    case _ => true
  }

  // ----- sizes -----

  predicate Small(b: Built, n: nat) { b.Made? ==> Size(b.expr) <= n }

  lemma UnaryShrinks(op: UnOp, l: Expr)
    ensures Size(MkUnary(false, op, l)) <= 1 + Size(l)
  {}

  /** An operation simplified is not larger than it was. */
  lemma {:induction false} MkShrinks(op: BinOp, l: Expr, r: Expr)
    ensures Small(MkBinary(false, op, l, r), 1 + Size(l) + Size(r))
    decreases Size(l) + Size(r), 2
  {
    var etype := Cktype(op, TypeOf(l), TypeOf(r));
    match op {
      case OPSTAR => StarShrinks(etype, l, r);
      case OPSLASH => MulopShrinks(op, etype, l, r);
      case OPPLUS =>
        AddopShrinks(op, etype, l, r);
        AddopShrinks(op, etype, r, l);
      case OPMINUS =>
        AddopShrinks(op, etype, l, r);
        if r.Con? {
          AddopShrinks(OPPLUS, etype, l, r.(ci := -r.ci));
        }
      case _ =>
    }
  }

  lemma {:induction false} StarShrinks(etype: Ty, l: Expr, r: Expr)
    requires etype == Cktype(OPSTAR, TypeOf(l), TypeOf(r))
    ensures Small(MkBinary(false, OPSTAR, l, r), 1 + Size(l) + Size(r))
    decreases Size(l) + Size(r), 1, 1
  {
    if !etype.TYERROR? {
      StarIs(l, r);
      if IsIcon(l) && l.ci != 0 {
        MulopShrinks(OPSTAR, etype, r, l);
      } else if IsIcon(r) && r.ci != 0 {
        MulopShrinks(OPSTAR, etype, l, r);
      }
    }
  }

  lemma {:induction false} MulopUnit(op: BinOp, etype: Ty, l: Expr, r: Expr)
    requires IsIcon(r) && (r.ci == 1 || r.ci == -1) && (op.OPSTAR? || op.OPSLASH?)
    ensures Small(Mulop(op, etype, l, r), 1 + Size(l))
  {
    UnaryShrinks(OPNEG, l);
  }

  lemma {:induction false} MulopNode(op: BinOp, etype: Ty, l: Expr, r: Expr)
    requires op.OPSLASH? || (op.OPSTAR? && IsIcon(r) && r.ci != 0)
    requires IsIcon(r) && r.ci != 0 ==> r.ci != 1 && r.ci != -1 && Factor(l).None?
    ensures Small(Mulop(op, etype, l, r), 1 + Size(l) + Size(r))
  {}

  lemma {:induction false} MulopShrinks(op: BinOp, etype: Ty, l: Expr, r: Expr)
    requires op.OPSLASH? || (op.OPSTAR? && IsIcon(r) && r.ci != 0)
    ensures Small(Mulop(op, etype, l, r), 1 + Size(l) + Size(r))
    decreases Size(l) + Size(r), 1, 0
  {
    if IsIcon(r) && (r.ci == 1 || r.ci == -1) {
      MulopUnit(op, etype, l, r);
    } else if IsIcon(r) && r.ci != 0 && Factor(l).Some? {
      JoinShrinks(op, etype, l, r);
    } else {
      MulopNode(op, etype, l, r);
    }
  }

  /** The constant r may be joined with the factor of l. */
  predicate Joins(op: BinOp, l: Expr, r: Expr)
    requires r.Con? && r.ci != 0
  {
    Factor(l).Some? && (op.OPSTAR? || Rem(Factor(l).value, r.ci) == 0)
  }

  /** It is, and the result is smaller. */
  lemma {:induction false} JoinShrinks(op: BinOp, etype: Ty, l: Expr, r: Expr)
    requires IsIcon(r) && r.ci != 0 && (op.OPSTAR? || op.OPSLASH?) && Factor(l).Some?
    ensures Small(Mulop(op, etype, l, r), 1 + Size(l) + Size(r))
    ensures Joins(op, l, r) && IsInt(etype) && !(-1 <= r.ci <= 1) ==>
              Small(Mulop(op, etype, l, r), Size(l) + Size(r))
    decreases Size(l) + Size(r), 0
  {
    FactorsShrink(op, etype, l.leftp, Con(l.rightp.vtype, Factor(l).value), r);
    UnaryShrinks(OPNEG, l);
    assert l.opcode.OPSTAR? ==> Con(l.rightp.vtype, Factor(l).value) == l.rightp;
  }

  lemma {:induction false} FactorsShrink(op: BinOp, etype: Ty, x: Expr, c: Expr, d: Expr)
    requires IsIcon(c) && IsIcon(d) && d.ci != 0 && (op.OPSTAR? || op.OPSLASH?)
    ensures Small(Factors(op, etype, x, c, d), 2 + Size(x))
    decreases Size(x) + Size(c) + Size(d), 3
  {
    MkShrinks(OPSTAR, x, MkBinary(false, op, c, d).expr);
  }

  lemma {:induction false} AddopShrinks(op: BinOp, etype: Ty, l: Expr, r: Expr)
    requires op.OPPLUS? || op.OPMINUS?
    ensures Small(Addop(op, etype, l, r), 1 + Size(l) + Size(r))
    ensures IsIcon(r) && WithIcon(l, OPPLUS) ==> Small(Addop(op, etype, l, r), Size(l) + Size(r))
    decreases Size(l) + Size(r), 1
  {
    if IsIcon(r) && WithIcon(l, OPPLUS) {
      MkShrinks(OPPLUS, l.leftp, MkBinary(false, OPPLUS, l.rightp, r).expr);
    }
  }

  // ----- what is left alone is no redex -----

  /** mkexpr leaves the operation as it is. */
  predicate Left(op: BinOp, ty: Ty, l: Expr, r: Expr) {
    MkBinary(false, op, l, r) == Made(Bin(op, ty, l, r), false)
  }

  lemma WholeSize(op: BinOp, ty: Ty, l: Expr, r: Expr)
    ensures Size(Bin(op, ty, l, r)) == 1 + Size(l) + Size(r)
  {}

  lemma {:induction false} LeftStar(ty: Ty, l: Expr, r: Expr)
    requires Left(OPSTAR, ty, l, r)
    ensures !Redex(OPSTAR, l, r)
  {
    WholeSize(OPSTAR, ty, l, r);
    StarIs(l, r);
    if IntCon(l) {
      ConstantFactor(ty, l, r, r, l);
    } else if IntCon(r) {
      ConstantFactor(ty, l, r, l, r);
    }
  }

  /** mulop does not give back x * c, nor c * x, if c is 0, 1 or -1, or x has a factor; nor c * x at all. */
  lemma {:induction false} ConstantFactor(ty: Ty, l: Expr, r: Expr, x: Expr, c: Expr)
    requires IntCon(c) && Left(OPSTAR, ty, l, r) && ((x == l && c == r && !l.Con?) || (x == r && c == l))
    ensures c == r && !(-1 <= c.ci <= 1) && Factor(x).None?
  {
    var etype := Cktype(OPSTAR, TypeOf(l), TypeOf(r));
    WholeSize(OPSTAR, ty, l, r);
    StarIs(l, r);
    if c.ci == 1 || c.ci == -1 {
      MulopUnit(OPSTAR, etype, x, c);
    } else if c.ci != 0 && Factor(x).Some? {
      JoinShrinks(OPSTAR, etype, x, c);
    }
  }

  lemma {:induction false} SlashIs(l: Expr, r: Expr)
    requires !Cktype(OPSLASH, TypeOf(l), TypeOf(r)).TYERROR?
    ensures MkBinary(false, OPSLASH, l, r) == Mulop(OPSLASH, Cktype(OPSLASH, TypeOf(l), TypeOf(r)), l, r)
  {}

  lemma {:induction false} LeftSlash(ty: Ty, l: Expr, r: Expr)
    requires Left(OPSLASH, ty, l, r)
    ensures !Redex(OPSLASH, l, r)
  {
    var etype := Cktype(OPSLASH, TypeOf(l), TypeOf(r));
    WholeSize(OPSLASH, ty, l, r);
    SlashIs(l, r);
    if IntCon(r) && (r.ci == 1 || r.ci == -1) {
      MulopUnit(OPSLASH, etype, l, r);
    } else if IntCon(r) && r.ci != 0 && Factor(l).Some? {
      JoinShrinks(OPSLASH, etype, l, r);
    }
  }

  lemma {:induction false} LeftPlus(ty: Ty, l: Expr, r: Expr)
    requires Left(OPPLUS, ty, l, r)
    ensures !Redex(OPPLUS, l, r)
  {
    WholeSize(OPPLUS, ty, l, r);
    var etype := Cktype(OPPLUS, TypeOf(l), TypeOf(r));
    AddopShrinks(OPPLUS, etype, l, r);
    AddopShrinks(OPPLUS, etype, r, l);
  }

  lemma {:induction false} LeftMinus(ty: Ty, l: Expr, r: Expr)
    requires Left(OPMINUS, ty, l, r)
    ensures !Redex(OPMINUS, l, r)
  {
    WholeSize(OPMINUS, ty, l, r);
    UnaryShrinks(OPNEG, r);
    var etype := Cktype(OPMINUS, TypeOf(l), TypeOf(r));
    AddopShrinks(OPMINUS, etype, l, r);
    if r.Con? {
      var c := r.(ci := -r.ci);
      AddopShrinks(OPPLUS, etype, l, c);
      MkShrinks(OPPLUS, l, c);
    }
  }

  lemma {:induction false} LeftOther(op: BinOp, ty: Ty, l: Expr, r: Expr)
    requires Left(op, ty, l, r) && !op.OPSTAR? && !op.OPSLASH? && !op.OPPLUS? && !op.OPMINUS?
    ensures !Redex(op, l, r)
  {
    WholeSize(op, ty, l, r);
  }

  lemma {:induction false} LeftNoRedex(op: BinOp, ty: Ty, l: Expr, r: Expr)
    requires Left(op, ty, l, r)
    ensures !Redex(op, l, r)
  {
    match op {
      case OPSTAR => LeftStar(ty, l, r);
      case OPSLASH => LeftSlash(ty, l, r);
      case OPPLUS => LeftPlus(ty, l, r);
      case OPMINUS => LeftMinus(ty, l, r);
      case _ => LeftOther(op, ty, l, r);
    }
  }

  lemma {:induction false} LeftUnary(op: UnOp, ty: Ty, l: Expr)
    requires MkUnary(false, op, l) == Una(op, ty, l)
    ensures !RedexUn(op, l)
  {
    assert Size(Una(op, ty, l)) == 1 + Size(l);
  }

  /** What mkexpr leaves as it is contains nothing its rules are for. */
  lemma {:induction false} SettledReduced(e: Expr)
    requires Settled(e)
    ensures Reduced(e)
  {
    match e {
      case Una(op, ty, l) =>
        SettledReduced(l);
        LeftUnary(op, ty, l);
      case Bin(op, ty, l, r) =>
        SettledReduced(l);
        SettledReduced(r);
        LeftNoRedex(op, ty, l, r);
      case _ =>
    }
  }

  /** So an expression built by mkexpr contains none. */
  lemma BuildReduced(t: Expr)
    requires Build(false, t).Made? && !Build(false, t).error
    ensures Reduced(Build(false, t).expr)
  {
    BuildSettled(t);
    SettledReduced(Build(false, t).expr);
  }
}
