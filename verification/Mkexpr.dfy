// mkexpr and fold of src/expr.c on integer and logical trees, as immutable trees:
// the value of the source expression is kept, or exactly where it is not.
module Mkexpr {
  import opened Options
  import opened Powers

  datatype Ty = TYINT1 | TYSHORT | TYLONG | TYLOGICAL | TYERROR

  datatype UnOp = OPNEG | OPNEG1 | OPNOT

  datatype BinOp =
    | OPPLUS | OPMINUS | OPSTAR | OPSLASH | OPMOD | OPPOWER | OPLSHIFT
    | OPAND | OPOR | OPEQV | OPNEQV
    | OPLT | OPGT | OPLE | OPGE | OPEQ | OPNE

  /** TCONST, TPRIM (a name and perhaps its arguments), TEXPR and TERROR. */
  datatype Expr =
    | Con(vtype: Ty, ci: int)
    | Prim(vtype: Ty, namep: nat, argsp: Option<nat>)
    | Una(un: UnOp, vtype: Ty, leftp: Expr)
    | Bin(opcode: BinOp, vtype: Ty, leftp: Expr, rightp: Expr)
    | Errnode

  function TypeOf(e: Expr): Ty { if e.Errnode? then TYERROR else e.vtype }

  predicate IsInt(t: Ty) { t.TYINT1? || t.TYSHORT? || t.TYLONG? }

  function Rank(t: Ty): nat {
    match t case TYINT1 => 2 case TYSHORT => 3 case TYLONG => 4 case TYLOGICAL => 11 case TYERROR => 15
  }

  function Maxtype(s: Ty, t: Ty): Ty { if Rank(s) >= Rank(t) then s else t }

  /** cktype. */
  function CktypeUn(op: UnOp, t: Ty): Ty {
    if (if op.OPNOT? then t.TYLOGICAL? else IsInt(t)) then t else TYERROR
  }

  function Cktype(op: BinOp, s: Ty, t: Ty): Ty {
    if s.TYERROR? || t.TYERROR? then TYERROR
    else match op
      case OPPLUS | OPMINUS | OPSTAR | OPSLASH | OPMOD | OPPOWER =>
        if IsInt(s) && IsInt(t) then Maxtype(s, t) else TYERROR
      case OPLSHIFT => s
      case OPAND | OPOR | OPEQV | OPNEQV =>
        if s.TYLOGICAL? && t.TYLOGICAL? then Maxtype(s, t) else TYERROR
      case _ => if (s.TYLOGICAL? || t.TYLOGICAL?) && s != t then TYERROR else TYLOGICAL
  }

  // ----- what an expression means -----

  /** The value of a name with given arguments. */
  type Env = (nat, Option<nat>) -> int

  function Bit(b: bool): int { if b then 1 else 0 }

  /** Shifts of an int by fewer places than it has bits. */
  predicate Shiftable(k: int) { 0 <= k < 31 }

  ghost function ApplyUn(op: UnOp, a: int): int {
    match op case OPNEG => -a case OPNEG1 => -a case OPNOT => Bit(a == 0)
  }

  /** None if the operation has no value. */
  ghost function Apply(op: BinOp, a: int, b: int): Option<int> {
    match op
    case OPPLUS => Some(a + b)
    case OPMINUS => Some(a - b)
    case OPSTAR => Some(a * b)
    case OPSLASH => if b == 0 then None else Some(Quot(a, b))
    case OPMOD => if b == 0 then None else Some(Rem(a, b))
    case OPPOWER => if HasPower(a, b) then Some(PowerOf(a, b)) else None
    case OPLSHIFT => if 0 <= b < 31 then Some(a * Power(2, b)) else None
    case OPAND => Some(Bit(a != 0 && b != 0))
    case OPOR => Some(Bit(a != 0 || b != 0))
    case OPEQV => Some(Bit((a != 0) == (b != 0)))
    case OPNEQV => Some(Bit((a != 0) != (b != 0)))
    case OPLT => Some(Bit(a < b))
    case OPGT => Some(Bit(a > b))
    case OPLE => Some(Bit(a <= b))
    case OPGE => Some(Bit(a >= b))
    case OPEQ => Some(Bit(a == b))
    case OPNE => Some(Bit(a != b))
  }

  ghost function Apply2(op: BinOp, a: Option<int>, b: Option<int>): Option<int> {
    if a.Some? && b.Some? then Apply(op, a.value, b.value) else None
  }

  ghost function Eval(e: Expr, env: Env): Option<int> {
    match e
    case Con(_, ci) => Some(ci)
    case Prim(ty, namep, argsp) => Some(if ty.TYLOGICAL? then Bit(env(namep, argsp) != 0) else env(namep, argsp))
    case Una(op, _, l) =>
      var a := Eval(l, env);
      if a.Some? then Some(ApplyUn(op, a.value)) else None
    case Bin(op, _, l, r) => Apply2(op, Eval(l, env), Eval(r, env))
    case Errnode => None
  }

  // ----- fold -----

  /** What building an expression comes to: the expression, with or without an error message
      about an integer ** negative number; or a division by zero or an undefined shift in the
      translator itself. */
  datatype Built = Made(expr: Expr, error: bool) | Undefined

  /** consbinop; the divisor of OPSLASH and OPMOD is not zero. */
  function Consbinop(op: BinOp, a: int, b: int): int
    requires op.OPSLASH? || op.OPMOD? ==> b != 0
  {
    var k := if a < b then -1 else if a == b then 0 else 1;
    match op
    case OPPLUS => a + b
    case OPMINUS => a - b
    case OPSTAR => a * b
    case OPSLASH => Quot(a, b)
    case OPMOD => Rem(a, b)
    case OPEQ => Bit(k == 0)
    case OPNE => Bit(k != 0)
    case OPGT => Bit(k == 1)
    case OPLT => Bit(k == -1)
    case OPGE => Bit(k >= 0)
    case OPLE => Bit(k <= 0)
    case _ => 0
  }

  /** fold on two constants. */
  function Fold(op: BinOp, etype: Ty, l: Expr, r: Expr): Built
    requires l.Con? && r.Con?
  {
    match op
    case OPAND => Made(Con(etype, Bit(l.ci != 0 && r.ci != 0)), false)
    case OPOR => Made(Con(etype, Bit(l.ci != 0 || r.ci != 0)), false)
    case OPEQV => Made(Con(etype, Bit(l.ci == r.ci)), false)
    case OPNEQV => Made(Con(etype, Bit(l.ci != r.ci)), false)
    case OPLSHIFT => if Shiftable(r.ci) then Made(Con(etype, l.ci * Power(2, r.ci)), false) else Undefined
    case OPPOWER =>
      if r.ci < 0 && l.ci == 0 then Made(Bin(op, etype, l, r), false)
      else var (p, error) := ConsPower(l.ci, r.ci); Made(Con(etype, p), error)
    case OPSLASH =>
      if r.ci == 0 then Made(Bin(op, etype, l, r), false)
      else Made(Con(etype, Consbinop(op, l.ci, r.ci)), false)
    case OPMOD =>
      if r.ci == 0 then Undefined else Made(Con(etype, Consbinop(op, l.ci, r.ci)), false)
    case _ => Made(Con(etype, Consbinop(op, l.ci, r.ci)), false)
  }

  /** The end of mkexpr: a node, folded if its operands are constants. */
  function Node(op: BinOp, etype: Ty, l: Expr, r: Expr): Built {
    if l.Con? && r.Con? then Fold(op, etype, l, r) else Made(Bin(op, etype, l, r), false)
  }

  // ----- mkexpr -----

  predicate IsIcon(e: Expr) { e.Con? && IsInt(e.vtype) }

  /** is_negatable. */
  predicate IsNegatable(e: Expr)
    requires e.Con?
  {
    match e.vtype
    case TYINT1 => e.ci >= -0x7f
    case TYSHORT => e.ci >= -0x7fff
    case TYLONG => e.ci >= -0x7fffffff
    case _ => false
  }

  function Size(e: Expr): (n: nat)
    ensures n > 0 && (e.Con? ==> n == 1)
  {
    match e
    case Una(_, _, l) => 1 + Size(l)
    case Bin(_, _, l, r) => 1 + Size(l) + Size(r)
    case _ => 1
  }

  /** mkexpr for a unary operator. before says that the first executable statement has not been reached. */
  function MkUnary(before: bool, op: UnOp, lp: Expr): (r: Expr)
    ensures IsIcon(lp) && !op.OPNOT? ==> IsIcon(r)
  {
    var etype := CktypeUn(op, TypeOf(lp));
    if etype.TYERROR? then Errnode
    else if lp.Con? then lp.(ci := ApplyUnCon(op, lp.ci))
    else if !before && lp.Una? && (if op.OPNOT? then lp.un.OPNOT? else lp.un.OPNEG?) then lp.leftp
    else Una(op, etype, lp)
  }

  function ApplyUnCon(op: UnOp, a: int): int { if op.OPNOT? then Bit(a == 0) else -a }

  /** mkexpr for a binary operator. */
  function MkBinary(before: bool, op: BinOp, lp: Expr, rp: Expr): (r: Built)
    ensures IsIcon(lp) && IsIcon(rp) && (op.OPPLUS? || op.OPSTAR? || (op.OPSLASH? && rp.ci != 0)) ==>
              r.Made? && IsIcon(r.expr) && !r.error
    decreases Size(lp) + Size(rp), 2
  {
    var etype := Cktype(op, TypeOf(lp), TypeOf(rp));
    if etype.TYERROR? then Made(Errnode, false)
    else if before then Node(op, etype, lp, rp)
    else
      match op
      case OPSTAR =>
        var (l, r) := if lp.Con? then (rp, lp) else (lp, rp);
        if IsIcon(r) then if r.ci == 0 then Made(r, false) else Mulop(op, etype, l, r)
        else Node(op, etype, l, r)
      case OPSLASH => Mulop(op, etype, lp, rp)
      case OPPLUS => if lp.Con? then Addop(op, etype, rp, lp) else Addop(op, etype, lp, rp)
      case OPMINUS =>
        if IsIcon(lp) && lp.ci == 0 then Made(MkUnary(false, OPNEG, rp), false)
        else if rp.Con? && IsNegatable(rp) then Addop(OPPLUS, etype, lp, rp.(ci := -rp.ci))
        else Addop(op, etype, lp, rp)
      case OPAND | OPOR =>
        var (l, r) := if lp.Con? then (rp, lp) else (lp, rp);
        if r.Con? then Made(if (r.ci == 0) == op.OPOR? then l else r, false)
        else Node(op, etype, l, r)
      case _ => Node(op, etype, lp, rp)
  }

  /** e is x op c for an integer constant c. */
  predicate WithIcon(e: Expr, op: BinOp) { e.Bin? && e.opcode == op && IsIcon(e.rightp) }

  /** mulop: multiplying or dividing by 1 and -1, and grouping constant factors. */
  function Mulop(op: BinOp, etype: Ty, lp: Expr, rp: Expr): (r: Built)
    requires op.OPSTAR? || op.OPSLASH?
    requires op.OPSTAR? ==> IsIcon(rp) && rp.ci != 0
    ensures IsIcon(lp) && IsIcon(rp) && IsInt(etype) && rp.ci != 0 ==> r.Made? && IsIcon(r.expr) && !r.error
    decreases Size(lp) + Size(rp), 1
  {
    if IsIcon(rp) && rp.ci == 1 then Made(lp, false)
    else if IsIcon(rp) && rp.ci == -1 then Made(MkUnary(false, OPNEG, lp), false)
    else if !IsInt(etype) then Node(op, etype, lp, rp)
    else if WithIcon(lp, OPLSHIFT) then
      var c := lp.rightp.ci;
      if !Shiftable(c) || (op.OPSLASH? && IsIcon(rp) && rp.ci == 0) then Undefined
      else if op.OPSTAR? || (IsIcon(rp) && Rem(Power(2, c), rp.ci) == 0) then
        Factors(op, etype, lp.leftp, Con(lp.rightp.vtype, Power(2, c)), rp)
      else Node(op, etype, lp, rp)
    else if WithIcon(lp, OPSTAR) then
      if op.OPSTAR? then Factors(op, etype, lp.leftp, lp.rightp, rp)
      else if !IsIcon(rp) then Node(op, etype, lp, rp)
      else if rp.ci == 0 then Undefined
      else if Rem(lp.rightp.ci, rp.ci) == 0 then Factors(op, etype, lp.leftp, lp.rightp, rp)
      else Node(op, etype, lp, rp)
    else Node(op, etype, lp, rp)
  }

  /** (x * c) op d regrouped as x * (c op d). */
  function Factors(op: BinOp, etype: Ty, x: Expr, c: Expr, d: Expr): (r: Built)
    requires IsIcon(c) && IsIcon(d) && d.ci != 0 && (op.OPSTAR? || op.OPSLASH?)
    decreases Size(x) + Size(c) + Size(d), 3
  {
    var e := MkBinary(false, op, c, d);
    MkBinary(false, OPSTAR, x, e.expr)
  }

  /** addop: adding zero, grouping constant terms, and (i + c) - (i + d). */
  function Addop(op: BinOp, etype: Ty, lp: Expr, rp: Expr): (r: Built)
    requires op.OPPLUS? || op.OPMINUS?
    ensures IsIcon(lp) && IsIcon(rp) && IsInt(etype) ==> r.Made? && IsIcon(r.expr) && !r.error
    decreases Size(lp) + Size(rp), 1
  {
    if IsIcon(rp) && rp.ci == 0 then Made(lp, false)
    else if IsIcon(rp) && WithIcon(lp, OPPLUS) then
      var e := MkBinary(false, OPPLUS, lp.rightp, rp);
      MkBinary(false, OPPLUS, lp.leftp, e.expr)
    else if op.OPMINUS? && IsInt(etype) && Plain(lp).Some? && Plain(rp).Some?
      && Plain(lp).value.0 == Plain(rp).value.0 then
      Made(Con(TYLONG, Plain(lp).value.1 - Plain(rp).value.1), false)
    else Node(op, etype, lp, rp)
  }

  /** i or i + c for a name i without arguments: the name and c. */
  function Plain(e: Expr): Option<(nat, int)> {
    if e.Prim? then if e.argsp.None? then Some((e.namep, 0)) else None
    else if e.Bin? && e.opcode.OPPLUS? && e.rightp.Con? && e.leftp.Prim? && e.leftp.argsp.None? then
      Some((e.leftp.namep, e.rightp.ci))
    else None
  }
}
