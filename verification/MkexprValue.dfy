// What mkexpr keeps: the value of the expression in every environment, where it
// fails to, and that its results are not simplified any further.
module MkexprValue {
  import opened Options
  import opened Powers
  import opened Mkexpr

  /** TYINT1, TYSHORT and TYLONG are the integer types, from the shortest to the longest. */
  predicate Integral(t: Ty) { t == TYINT1 || t == TYSHORT || t == TYLONG }

  /** The type of an operation: that of the longer operand for arithmetic, that of the left one for a shift,
      LOGICAL for logical operations and comparisons; an error where the kinds of the operands do not go with
      the operation or with each other. */
  function Result(op: BinOp, s: Ty, t: Ty): Ty {
    match op
    case OPPLUS | OPMINUS | OPSTAR | OPSLASH | OPMOD | OPPOWER =>
      if !Integral(s) || !Integral(t) then TYERROR
      else if TYLONG in {s, t} then TYLONG else if TYSHORT in {s, t} then TYSHORT else TYINT1
    case OPLSHIFT => if TYERROR in {s, t} then TYERROR else s
    case OPAND | OPOR | OPEQV | OPNEQV => if s == t == TYLOGICAL then TYLOGICAL else TYERROR
    case _ => if s == t == TYLOGICAL || (Integral(s) && Integral(t)) then TYLOGICAL else TYERROR
  }

  lemma CktypeIs(op: BinOp, s: Ty, t: Ty)
    ensures Cktype(op, s, t) == Result(op, s, t)
  {}

  lemma CktypeUnIs(op: UnOp, t: Ty)
    ensures CktypeUn(op, t) == if op == OPNOT then (if t == TYLOGICAL then TYLOGICAL else TYERROR)
                               else if Integral(t) then t else TYERROR
  {}

  /** An integer constant. */
  predicate IntCon(e: Expr) { e.Con? && Integral(e.vtype) }

  /** x op c for an integer constant c. */
  predicate Grouping(e: Expr, op: BinOp) { e.Bin? && e.opcode == op && IntCon(e.rightp) }

  /** Every node has the type cktype gives it, logical constants are 0 or 1, and shifts are of
      integers and by counts an int allows. */
  predicate Sound(e: Expr) {
    match e
    case Con(ty, ci) => !ty.TYERROR? && (ty.TYLOGICAL? ==> ci == 0 || ci == 1)
    case Prim(ty, _, _) => !ty.TYERROR?
    case Una(op, ty, l) => Sound(l) && !ty.TYERROR? && ty == CktypeUn(op, TypeOf(l))
    case Bin(op, ty, l, r) => Sound(l) && Sound(r) && Legal(op, l, r) && ty == Cktype(op, TypeOf(l), TypeOf(r))
    case Errnode => false
  }

  predicate Legal(op: BinOp, l: Expr, r: Expr) {
    && !Cktype(op, TypeOf(l), TypeOf(r)).TYERROR?
    && (op.OPLSHIFT? ==> Integral(TypeOf(l)) && Integral(TypeOf(r)) && (r.Con? ==> 0 <= r.ci < 31))
  }

  /** r is an expression of the kind of etype whose value is v, if that is a value. */
  ghost predicate Gives(r: Expr, etype: Ty, env: Env, v: Option<int>) {
    && Sound(r) && (TypeOf(r).TYLOGICAL? <==> etype.TYLOGICAL?)
    && (v.Some? ==> Eval(r, env) == v)
  }

  ghost predicate Keeps(r: Built, etype: Ty, env: Env, v: Option<int>) {
    r.Made? && !r.error && Gives(r.expr, etype, env, v)
  }

  lemma {:induction false} LogicalBit(e: Expr, env: Env)
    requires Sound(e) && TypeOf(e).TYLOGICAL? && Eval(e, env).Some?
    ensures Eval(e, env).value == 0 || Eval(e, env).value == 1
  {
    match e
    case Bin(op, ty, l, r) =>
    case _ =>
  }

  // ----- fold -----

  /** fold would divide by zero. */
  predicate ModZero(op: BinOp, l: Expr, r: Expr) { op.OPMOD? && l.Con? && r.Con? && r.ci == 0 }

  /** conspower reports an integer to a negative power. */
  predicate PowerError(op: BinOp, l: Expr, r: Expr) {
    op.OPPOWER? && l.Con? && r.Con? && r.ci < 0 && Abs(l.ci) > 1
  }

  ghost predicate Folded(op: BinOp, l: Expr, r: Expr, env: Env)
    requires l.Con? && r.Con?
  {
    var etype := Cktype(op, TypeOf(l), TypeOf(r));
    Keeps(Fold(op, etype, l, r), etype, env, Apply(op, l.ci, r.ci))
  }

  lemma FoldKeeps(op: BinOp, l: Expr, r: Expr, env: Env)
    requires l.Con? && r.Con? && Sound(l) && Sound(r) && Legal(op, l, r)
    requires !ModZero(op, l, r) && !PowerError(op, l, r)
    ensures Folded(op, l, r, env)
  {
    match op {
      case OPPOWER => FoldPower(l, r, env);
      case OPLSHIFT => FoldShift(l, r, env);
      case OPAND => FoldLogical(op, l, r, env);
      case OPOR => FoldLogical(op, l, r, env);
      case OPEQV => FoldLogical(op, l, r, env);
      case OPNEQV => FoldLogical(op, l, r, env);
      case _ => FoldConsbinop(op, l, r, env);
    }
  }

  lemma FoldPower(l: Expr, r: Expr, env: Env)
    requires l.Con? && r.Con? && Sound(l) && Sound(r) && Legal(OPPOWER, l, r) && !PowerError(OPPOWER, l, r)
    ensures Folded(OPPOWER, l, r, env)
  {
    PowerFolds(l.ci, r.ci);
  }

  lemma FoldShift(l: Expr, r: Expr, env: Env)
    requires l.Con? && r.Con? && Sound(l) && Sound(r) && Legal(OPLSHIFT, l, r)
    ensures Folded(OPLSHIFT, l, r, env)
  {}

  lemma FoldLogical(op: BinOp, l: Expr, r: Expr, env: Env)
    requires l.Con? && r.Con? && Sound(l) && Sound(r) && Legal(op, l, r)
    requires op.OPAND? || op.OPOR? || op.OPEQV? || op.OPNEQV?
    ensures Folded(op, l, r, env)
  {}

  lemma FoldConsbinop(op: BinOp, l: Expr, r: Expr, env: Env)
    requires l.Con? && r.Con? && Sound(l) && Sound(r) && Legal(op, l, r) && ByConsbinop(op) && !ModZero(op, l, r)
    ensures Folded(op, l, r, env)
  {
    if !(op.OPSLASH? || op.OPMOD?) || r.ci != 0 {
      ConsbinopApplies(op, l.ci, r.ci);
    }
  }

  lemma PowerFolds(a: int, b: int)
    requires b >= 0 || Abs(a) <= 1
    ensures HasPower(a, b) <==> b >= 0 || a != 0
    ensures HasPower(a, b) ==> ConsPower(a, b) == (PowerOf(a, b), false)
  {
    if b < 0 {
      NegativePower(a, -b);
    }
  }

  predicate ByConsbinop(op: BinOp) {
    !op.OPPOWER? && !op.OPLSHIFT? && !op.OPAND? && !op.OPOR? && !op.OPEQV? && !op.OPNEQV?
  }

  lemma ConsbinopApplies(op: BinOp, a: int, b: int)
    requires ByConsbinop(op)
    requires op.OPSLASH? || op.OPMOD? ==> b != 0
    ensures Apply(op, a, b) == Some(Consbinop(op, a, b))
    ensures op.OPLT? || op.OPGT? || op.OPLE? || op.OPGE? || op.OPEQ? || op.OPNE? ==> 0 <= Consbinop(op, a, b) <= 1
  {}

  lemma NodeKeeps(op: BinOp, l: Expr, r: Expr, env: Env)
    requires Sound(l) && Sound(r) && Legal(op, l, r) && !ModZero(op, l, r) && !PowerError(op, l, r)
    ensures var etype := Cktype(op, TypeOf(l), TypeOf(r));
            Keeps(Node(op, etype, l, r), etype, env, Apply2(op, Eval(l, env), Eval(r, env)))
  {
    if l.Con? && r.Con? {
      FoldKeeps(op, l, r, env);
    }
  }

  // ----- mkexpr -----

  lemma UnaryKeeps(before: bool, op: UnOp, lp: Expr, env: Env)
    requires Sound(lp) && !CktypeUn(op, TypeOf(lp)).TYERROR?
    ensures var v := Eval(lp, env);
            Gives(MkUnary(before, op, lp), TypeOf(lp), env, if v.Some? then Some(ApplyUn(op, v.value)) else None)
  {
    if op.OPNOT? && lp.Una? && lp.un.OPNOT? && Eval(lp.leftp, env).Some? {
      LogicalBit(lp.leftp, env);
    }
  }

  function Grouped(op: BinOp, c: int, d: int): int
    requires d != 0
  {
    if op.OPSTAR? then c * d else Quot(c, d)
  }

  lemma GroupedValue(op: BinOp, v: int, c: int, d: int)
    requires d != 0 && (op.OPSTAR? || (op.OPSLASH? && Rem(c, d) == 0))
    ensures v * Grouped(op, c, d) == if op.OPSTAR? then v * c * d else Quot(v * c, d)
  {
    if op.OPSLASH? {
      QuotRegroup(v, c, d);
    } else {
      assert v * (c * d) == v * c * d;
    }
  }

  /** (x * c) op d is x * (c op d). */
  lemma {:induction false} FactorsKeeps(op: BinOp, etype: Ty, x: Expr, c: Expr, d: Expr, env: Env)
    requires Sound(x) && IsInt(TypeOf(x)) && IsIcon(c) && IsIcon(d) && IsInt(etype) && d.ci != 0
    requires op.OPSTAR? || (op.OPSLASH? && Rem(c.ci, d.ci) == 0)
    ensures var v := Eval(x, env);
            Keeps(Factors(op, etype, x, c, d), etype, env,
                  if v.Some? then Some(if op.OPSTAR? then v.value * c.ci * d.ci else Quot(v.value * c.ci, d.ci))
                    else None)
    decreases Size(x) + Size(c) + Size(d), 3, 0
  {
    var e := GroupedConstant(op, c, d, env);
    BinaryKeeps(OPSTAR, x, e, env);
    var v := Eval(x, env);
    if v.Some? {
      GroupedValue(op, v.value, c.ci, d.ci);
      assert Apply2(OPSTAR, v, Eval(e, env)) == Some(v.value * Grouped(op, c.ci, d.ci));
    }
  }

  lemma {:induction false} GroupedConstant(op: BinOp, c: Expr, d: Expr, env: Env) returns (e: Expr)
    requires IsIcon(c) && IsIcon(d) && d.ci != 0 && (op.OPSTAR? || op.OPSLASH?)
    ensures MkBinary(false, op, c, d) == Made(e, false) && Sound(e) && IsIcon(e) && e.ci == Grouped(op, c.ci, d.ci)
    decreases Size(c) + Size(d), 3, 0
  {
    BinaryKeeps(op, c, d, env);
    e := MkBinary(false, op, c, d).expr;
  }

  /** (x * c) / 0 with constants c and 0 makes the translator divide by zero. */
  predicate SlashZero(op: BinOp, l: Expr, r: Expr) {
    op.OPSLASH? && IntCon(r) && r.ci == 0 && (Grouping(l, OPSTAR) || Grouping(l, OPLSHIFT))
  }

  ghost predicate MulKept(op: BinOp, lp: Expr, rp: Expr, env: Env)
    requires op.OPSLASH? || (op.OPSTAR? && IsIcon(rp) && rp.ci != 0)
  {
    var etype := Cktype(op, TypeOf(lp), TypeOf(rp));
    Keeps(Mulop(op, etype, lp, rp), etype, env, Apply2(op, Eval(lp, env), Eval(rp, env)))
  }

  lemma {:induction false} MulopKeeps(op: BinOp, lp: Expr, rp: Expr, env: Env)
    requires Sound(lp) && Sound(rp) && Legal(op, lp, rp) && (op.OPSLASH? || (op.OPSTAR? && IsIcon(rp) && rp.ci != 0))
    requires !SlashZero(op, lp, rp)
    ensures MulKept(op, lp, rp, env)
    decreases Size(lp) + Size(rp), 1, 0
  {
    if IsIcon(rp) && rp.ci == -1 {
      UnaryKeeps(false, OPNEG, lp, env);
    } else if IsIcon(rp) && rp.ci != 1 && rp.ci != 0 && (WithIcon(lp, OPSTAR) || WithIcon(lp, OPLSHIFT)) {
      MulopGroups(op, lp, rp, env);
    } else {
      NodeKeeps(op, lp, rp, env);
    }
  }

  lemma {:induction false} MulopGroups(op: BinOp, lp: Expr, rp: Expr, env: Env)
    requires Sound(lp) && Sound(rp) && Legal(op, lp, rp) && (op.OPSLASH? || op.OPSTAR?)
    requires IsIcon(rp) && rp.ci != 0 && rp.ci != 1 && rp.ci != -1 && (WithIcon(lp, OPSTAR) || WithIcon(lp, OPLSHIFT))
    ensures MulKept(op, lp, rp, env)
    decreases Size(lp) + Size(rp), 0, 0
  {
    var c := if lp.opcode.OPSTAR? then lp.rightp else Con(lp.rightp.vtype, Power(2, lp.rightp.ci));
    if op.OPSTAR? || Rem(c.ci, rp.ci) == 0 {
      FactorsKeeps(op, Cktype(op, TypeOf(lp), TypeOf(rp)), lp.leftp, c, rp, env);
    } else {
      NodeKeeps(op, lp, rp, env);
    }
  }

  /** (x + c) - d with a constant d too low to be negated is regrouped as x + (c + d). */
  predicate Lossy(op: BinOp, l: Expr, r: Expr) {
    op.OPMINUS? && IntCon(r) && r.ci < -Greatest(r.vtype) && Grouping(l, OPPLUS)
  }

  /** The greatest number of an integer type of 8, 16 or 32 bits. */
  function Greatest(t: Ty): int
    requires Integral(t)
  {
    match t case TYINT1 => 0x7f case TYSHORT => 0x7fff case _ => 0x7fff_ffff
  }

  lemma {:induction false} AddopKeeps(op: BinOp, lp: Expr, rp: Expr, env: Env)
    requires Sound(lp) && Sound(rp) && Legal(op, lp, rp)
    requires op.OPPLUS? || (op.OPMINUS? && (rp.Con? ==> !IsNegatable(rp)))
    ensures var etype, v := Cktype(op, TypeOf(lp), TypeOf(rp)), Apply2(op, Eval(lp, env), Eval(rp, env));
            Keeps(Addop(op, etype, lp, rp), etype, env,
                  if Lossy(op, lp, rp) && v.Some? then Some(v.value + 2 * rp.ci) else v)
    decreases Size(lp) + Size(rp), 1, 0
  {
    if IsIcon(rp) && rp.ci == 0 {
    } else if IsIcon(rp) && WithIcon(lp, OPPLUS) {
      AddopGroups(op, lp, rp, env);
    } else {
      NodeKeeps(op, lp, rp, env);
      if op.OPMINUS? && Plain(lp).Some? && Plain(rp).Some? {
        PlainValue(lp, env);
        PlainValue(rp, env);
      }
    }
  }

  lemma {:induction false} AddopGroups(op: BinOp, lp: Expr, rp: Expr, env: Env)
    requires Sound(lp) && Sound(rp) && Legal(op, lp, rp) && (op.OPPLUS? || op.OPMINUS?)
    requires IsIcon(rp) && rp.ci != 0 && WithIcon(lp, OPPLUS)
    ensures var etype, v := Cktype(op, TypeOf(lp), TypeOf(rp)), Apply2(op, Eval(lp, env), Eval(rp, env));
            Keeps(Addop(op, etype, lp, rp), etype, env,
                  if op.OPMINUS? && v.Some? then Some(v.value + 2 * rp.ci) else v)
    decreases Size(lp) + Size(rp), 0, 0
  {
    BinaryKeeps(OPPLUS, lp.rightp, rp, env);
    var e := MkBinary(false, OPPLUS, lp.rightp, rp);
    BinaryKeeps(OPPLUS, lp.leftp, e.expr, env);
  }

  lemma PlainValue(e: Expr, env: Env)
    requires Sound(e) && IsInt(TypeOf(e)) && Plain(e).Some?
    ensures Eval(e, env) == Some(env(Plain(e).value.0, None) + Plain(e).value.1)
  {
    assert e.Bin? ==> IsInt(TypeOf(e.leftp));
  }

  /** mkexpr on a binary operator keeps the value, or, in the lossy case, adds twice the constant. */
  ghost predicate Kept(op: BinOp, lp: Expr, rp: Expr, env: Env) {
    var etype, v := Cktype(op, TypeOf(lp), TypeOf(rp)), Apply2(op, Eval(lp, env), Eval(rp, env));
    Keeps(MkBinary(false, op, lp, rp), etype, env,
          if Lossy(op, lp, rp) && v.Some? then Some(v.value + 2 * rp.ci) else v)
  }

  /** mkexpr on a binary operator, after the first executable statement. */
  lemma {:induction false} BinaryKeeps(op: BinOp, lp: Expr, rp: Expr, env: Env)
    requires Sound(lp) && Sound(rp) && Legal(op, lp, rp)
    requires !ModZero(op, lp, rp) && !PowerError(op, lp, rp) && !SlashZero(op, lp, rp)
    ensures Kept(op, lp, rp, env)
    decreases Size(lp) + Size(rp), 2, 0
  {
    match op {
      case OPSTAR => StarKeeps(lp, rp, env);
      case OPSLASH => SlashKeeps(lp, rp, env);
      case OPPLUS => PlusKeeps(lp, rp, env);
      case OPMINUS => MinusKeeps(lp, rp, env);
      case OPAND => AndOrKeeps(op, lp, rp, env);
      case OPOR => AndOrKeeps(op, lp, rp, env);
      case _ => OtherKeeps(op, lp, rp, env);
    }
  }

  lemma {:induction false} StarKeeps(lp: Expr, rp: Expr, env: Env)
    requires Sound(lp) && Sound(rp) && Legal(OPSTAR, lp, rp)
    ensures Kept(OPSTAR, lp, rp, env)
    decreases Size(lp) + Size(rp), 1, 1
  {
    var (l, r) := if lp.Con? then (rp, lp) else (lp, rp);
    TimesSwaps(lp, rp, env);
    if !IsIcon(r) {
      NodeKeeps(OPSTAR, l, r, env);
    } else if r.ci != 0 {
      MulopKeeps(OPSTAR, l, r, env);
    } else {
      TimesZero(l, r, env);
    }
    StarIs(lp, rp);
  }

  lemma TimesSwaps(lp: Expr, rp: Expr, env: Env)
    ensures Cktype(OPSTAR, TypeOf(lp), TypeOf(rp)) == Cktype(OPSTAR, TypeOf(rp), TypeOf(lp))
    ensures Apply2(OPSTAR, Eval(lp, env), Eval(rp, env)) == Apply2(OPSTAR, Eval(rp, env), Eval(lp, env))
  {}

  lemma TimesZero(l: Expr, r: Expr, env: Env)
    requires Sound(l) && Legal(OPSTAR, l, r) && IsIcon(r) && r.ci == 0
    ensures Keeps(Made(r, false), Cktype(OPSTAR, TypeOf(l), TypeOf(r)), env,
                  Apply2(OPSTAR, Eval(l, env), Eval(r, env)))
  {}

  lemma {:induction false} StarIs(lp: Expr, rp: Expr)
    requires !Cktype(OPSTAR, TypeOf(lp), TypeOf(rp)).TYERROR?
    ensures var (l, r) := if lp.Con? then (rp, lp) else (lp, rp);
            var etype := Cktype(OPSTAR, TypeOf(lp), TypeOf(rp));
            MkBinary(false, OPSTAR, lp, rp) ==
              if !IsIcon(r) then Node(OPSTAR, etype, l, r)
              else if r.ci == 0 then Made(r, false) else Mulop(OPSTAR, etype, l, r)
  {}

  lemma {:induction false} SlashKeeps(lp: Expr, rp: Expr, env: Env)
    requires Sound(lp) && Sound(rp) && Legal(OPSLASH, lp, rp) && !SlashZero(OPSLASH, lp, rp)
    ensures Kept(OPSLASH, lp, rp, env)
    decreases Size(lp) + Size(rp), 1, 1
  {
    MulopKeeps(OPSLASH, lp, rp, env);
  }

  lemma {:induction false} PlusKeeps(lp: Expr, rp: Expr, env: Env)
    requires Sound(lp) && Sound(rp) && Legal(OPPLUS, lp, rp)
    ensures Kept(OPPLUS, lp, rp, env)
    decreases Size(lp) + Size(rp), 1, 1
  {
    if lp.Con? {
      AddopKeeps(OPPLUS, rp, lp, env);
    } else {
      AddopKeeps(OPPLUS, lp, rp, env);
    }
  }

  lemma {:induction false} MinusKeeps(lp: Expr, rp: Expr, env: Env)
    requires Sound(lp) && Sound(rp) && Legal(OPMINUS, lp, rp)
    ensures Kept(OPMINUS, lp, rp, env)
    decreases Size(lp) + Size(rp), 1, 1
  {
    if IsIcon(lp) && lp.ci == 0 {
      UnaryKeeps(false, OPNEG, rp, env);
    } else if rp.Con? && IsNegatable(rp) {
      AddopKeeps(OPPLUS, lp, rp.(ci := -rp.ci), env);
    } else {
      AddopKeeps(OPMINUS, lp, rp, env);
    }
  }

  lemma AndOrKeeps(op: BinOp, lp: Expr, rp: Expr, env: Env)
    requires Sound(lp) && Sound(rp) && Legal(op, lp, rp) && (op.OPAND? || op.OPOR?)
    ensures Kept(op, lp, rp, env)
  {
    NodeKeeps(op, lp, rp, env);
    NodeKeeps(op, rp, lp, env);
    if Eval(lp, env).Some? { LogicalBit(lp, env); }
    if Eval(rp, env).Some? { LogicalBit(rp, env); }
  }

  lemma OtherKeeps(op: BinOp, lp: Expr, rp: Expr, env: Env)
    requires Sound(lp) && Sound(rp) && Legal(op, lp, rp) && !ModZero(op, lp, rp) && !PowerError(op, lp, rp)
    requires !op.OPSTAR? && !op.OPSLASH? && !op.OPPLUS? && !op.OPMINUS? && !op.OPAND? && !op.OPOR?
    ensures Kept(op, lp, rp, env)
  {
    NodeKeeps(op, lp, rp, env);
  }

  /** The cases in which mkexpr divides by zero itself. */
  predicate Faults(before: bool, op: BinOp, l: Expr, r: Expr) {
    ModZero(op, l, r) || (!before && SlashZero(op, l, r))
  }

  /** Exactly when mkexpr faults, exactly when it reports an error, and otherwise exactly when the value
      is kept. */
  ghost predicate Exact(before: bool, op: BinOp, lp: Expr, rp: Expr, env: Env, r: Built) {
    var v := Apply2(op, Eval(lp, env), Eval(rp, env));
    && (r == Undefined <==> Faults(before, op, lp, rp))
    && (r.Made? ==> (r.error <==> PowerError(op, lp, rp)))
    && (r.Made? && !r.error ==> Sound(r.expr))
    && (r.Made? && !r.error && v.Some? ==> (Eval(r.expr, env) == v <==> before || !Lossy(op, lp, rp)))
  }

  /** mkexpr on a binary operator. */
  lemma MkexprKeepsValue(before: bool, op: BinOp, lp: Expr, rp: Expr, env: Env)
    requires Sound(lp) && Sound(rp) && Legal(op, lp, rp)
    ensures Exact(before, op, lp, rp, env, MkBinary(before, op, lp, rp))
  {
    if Faults(before, op, lp, rp) {
      FaultsUndefined(before, op, lp, rp);
    } else if PowerError(op, lp, rp) {
      PowerReported(before, lp, rp);
    } else {
      StepExact(before, op, lp, rp, env);
    }
  }

  lemma StepExact(before: bool, op: BinOp, lp: Expr, rp: Expr, env: Env)
    requires Sound(lp) && Sound(rp) && Legal(op, lp, rp) && !Faults(before, op, lp, rp) && !PowerError(op, lp, rp)
    ensures Exact(before, op, lp, rp, env, MkBinary(before, op, lp, rp))
  {
    StepKeeps(before, op, lp, rp, env);
  }

  lemma FaultsUndefined(before: bool, op: BinOp, l: Expr, r: Expr)
    requires Sound(l) && Sound(r) && Legal(op, l, r) && Faults(before, op, l, r)
    ensures MkBinary(before, op, l, r).Undefined?
  {}

  lemma PowerReported(before: bool, l: Expr, r: Expr)
    requires Sound(l) && Sound(r) && Legal(OPPOWER, l, r) && PowerError(OPPOWER, l, r)
    ensures var b := MkBinary(before, OPPOWER, l, r); b.Made? && b.error
  {}

  lemma StepKeeps(before: bool, op: BinOp, lp: Expr, rp: Expr, env: Env)
    requires Sound(lp) && Sound(rp) && Legal(op, lp, rp) && !Faults(before, op, lp, rp) && !PowerError(op, lp, rp)
    ensures var etype, v := Cktype(op, TypeOf(lp), TypeOf(rp)), Apply2(op, Eval(lp, env), Eval(rp, env));
            Keeps(MkBinary(before, op, lp, rp), etype, env,
                  if !before && Lossy(op, lp, rp) && v.Some? then Some(v.value + 2 * rp.ci) else v)
  {
    if before {
      NodeKeeps(op, lp, rp, env);
    } else {
      BinaryKeeps(op, lp, rp, env);
    }
  }

  /** (i + 1) - (-2147483648) becomes i + (-2147483647). */
  lemma LossyExample(env: Env)
    ensures var i := Prim(TYLONG, 0, None);
            var lp, rp := Bin(OPPLUS, TYLONG, i, Con(TYLONG, 1)), Con(TYLONG, -0x8000_0000);
            && MkBinary(false, OPMINUS, lp, rp) == Made(Bin(OPPLUS, TYLONG, i, Con(TYLONG, -0x7fff_ffff)), false)
            && Apply2(OPMINUS, Eval(lp, env), Eval(rp, env)) != Eval(Bin(OPPLUS, TYLONG, i, Con(TYLONG, -0x7fff_ffff)),
                                                                     env)
  {
    var i := Prim(TYLONG, 0, None);
    var lp, rp := Bin(OPPLUS, TYLONG, i, Con(TYLONG, 1)), Con(TYLONG, -0x8000_0000);
    assert MkBinary(false, OPPLUS, lp.rightp, rp) == Made(Con(TYLONG, -0x7fff_ffff), false);
    assert Eval(lp, env) == Some(env(0, None) + 1);
  }

  // ----- whole expressions -----

  /** An expression built bottom up by mkexpr, as the parser does. */
  function Build(before: bool, t: Expr): Built {
    match t
    case Una(op, _, l) =>
      var b := Build(before, l);
      if b.Undefined? then b else Made(MkUnary(before, op, b.expr), b.error)
    case Bin(op, _, l, r) =>
      var b, c := Build(before, l), Build(before, r);
      if b.Undefined? then b else if c.Undefined? then c
      else
        var d := MkBinary(before, op, b.expr, c.expr);
        if d.Undefined? then d else Made(d.expr, b.error || c.error || d.error)
    case _ => Made(t, false)
  }

  /** No step of building t meets the lossy case, a power the translator reports, or a constant
      shift an int does not allow. */
  predicate Faithful(before: bool, t: Expr) {
    match t
    case Una(_, _, l) => Faithful(before, l)
    case Bin(op, _, l, r) =>
      && Faithful(before, l) && Faithful(before, r)
      && var b, c := Build(before, l), Build(before, r);
         b.Made? && c.Made? ==> FaithfulStep(before, op, b.expr, c.expr)
    case _ => true
  }

  predicate FaithfulStep(before: bool, op: BinOp, l: Expr, r: Expr) {
    && (before || !Lossy(op, l, r)) && !PowerError(op, l, r)
    && (op.OPLSHIFT? && r.Con? ==> 0 <= r.ci < 31)
  }

  /** cktype only asks whether operands are logical. */
  lemma KindsCount(op: BinOp, l: Expr, r: Expr, l': Expr, r': Expr)
    requires Legal(op, l, r) && Sound(l') && Sound(r') && (op.OPLSHIFT? && r'.Con? ==> 0 <= r'.ci < 31)
    requires (TypeOf(l).TYLOGICAL? <==> TypeOf(l').TYLOGICAL?) && (TypeOf(r).TYLOGICAL? <==> TypeOf(r').TYLOGICAL?)
    ensures Legal(op, l', r')
    ensures Cktype(op, TypeOf(l), TypeOf(r)).TYLOGICAL? <==> Cktype(op, TypeOf(l'), TypeOf(r')).TYLOGICAL?
  {}

  lemma BuildStepMade(before: bool, op: BinOp, l: Expr, r: Expr, l': Expr, r': Expr, env: Env)
    requires Legal(op, l, r) && FaithfulStep(before, op, l', r')
    requires Gives(l', TypeOf(l), env, Eval(l, env)) && Gives(r', TypeOf(r), env, Eval(r, env))
    ensures Apply2(op, Eval(l, env), Eval(r, env)).Some? ==> MkBinary(before, op, l', r').Made?
  {
    KindsCount(op, l, r, l', r');
    var v' := OperandsAgree(op, l, r, l', r', env);
    if Faults(before, op, l', r') {
      FaultsValueless(before, op, l', r', env);
    } else {
      StepKept(before, op, l', r', env);
    }
  }

  lemma BuildStepKeeps(before: bool, op: BinOp, l: Expr, r: Expr, l': Expr, r': Expr, env: Env)
    requires Legal(op, l, r) && FaithfulStep(before, op, l', r') && MkBinary(before, op, l', r').Made?
    requires Gives(l', TypeOf(l), env, Eval(l, env)) && Gives(r', TypeOf(r), env, Eval(r, env))
    ensures var b, v := MkBinary(before, op, l', r'), Apply2(op, Eval(l, env), Eval(r, env));
            !b.error && Gives(b.expr, Cktype(op, TypeOf(l), TypeOf(r)), env, v)
  {
    KindsCount(op, l, r, l', r');
    var v' := OperandsAgree(op, l, r, l', r', env);
    MadeKept(before, op, l', r', env);
    GivesOn(MkBinary(before, op, l', r').expr, Cktype(op, TypeOf(l'), TypeOf(r')), Cktype(op, TypeOf(l), TypeOf(r)),
            env, v', Apply2(op, Eval(l, env), Eval(r, env)));
  }

  lemma OperandsAgree(op: BinOp, l: Expr, r: Expr, l': Expr, r': Expr, env: Env) returns (v': Option<int>)
    requires Gives(l', TypeOf(l), env, Eval(l, env)) && Gives(r', TypeOf(r), env, Eval(r, env))
    ensures var v := Apply2(op, Eval(l, env), Eval(r, env)); v.Some? ==> v' == v
    ensures v' == Apply2(op, Eval(l', env), Eval(r', env))
  {
    v' := Apply2(op, Eval(l', env), Eval(r', env));
  }

  lemma GivesOn(e: Expr, s: Ty, t: Ty, env: Env, v: Option<int>, v': Option<int>)
    requires Gives(e, s, env, v) && (s.TYLOGICAL? <==> t.TYLOGICAL?) && (v'.Some? ==> v == v')
    ensures Gives(e, t, env, v')
  {}

  lemma StepKept(before: bool, op: BinOp, l: Expr, r: Expr, env: Env)
    requires Sound(l) && Sound(r) && Legal(op, l, r) && FaithfulStep(before, op, l, r) && !Faults(before, op, l, r)
    ensures var etype, v := Cktype(op, TypeOf(l), TypeOf(r)), Apply2(op, Eval(l, env), Eval(r, env));
            Keeps(MkBinary(before, op, l, r), etype, env, v)
  {
    StepKeeps(before, op, l, r, env);
  }

  lemma MadeKept(before: bool, op: BinOp, l: Expr, r: Expr, env: Env)
    requires Sound(l) && Sound(r) && Legal(op, l, r) && FaithfulStep(before, op, l, r)
    requires MkBinary(before, op, l, r).Made?
    ensures var etype, v := Cktype(op, TypeOf(l), TypeOf(r)), Apply2(op, Eval(l, env), Eval(r, env));
            Keeps(MkBinary(before, op, l, r), etype, env, v)
  {
    if Faults(before, op, l, r) {
      FaultsValueless(before, op, l, r, env);
      assert false;
    }
    StepKept(before, op, l, r, env);
  }

  lemma FaultsValueless(before: bool, op: BinOp, l: Expr, r: Expr, env: Env)
    requires Sound(l) && Sound(r) && Legal(op, l, r) && Faults(before, op, l, r)
    ensures MkBinary(before, op, l, r).Undefined? && Apply2(op, Eval(l, env), Eval(r, env)).None?
  {}

  /** The expression built has the value of the source expression wherever that has one, and then
      building it has not faulted. */
  lemma {:induction false} BuildKeepsValue(before: bool, t: Expr, env: Env)
    requires Sound(t) && Faithful(before, t)
    ensures var b := Build(before, t);
            && (Eval(t, env).Some? ==> b.Made?)
            && (b.Made? ==> !b.error && Gives(b.expr, TypeOf(t), env, Eval(t, env)))
  {
    match t {
      case Una(op, _, l) =>
        BuildKeepsValue(before, l, env);
        var b := Build(before, l);
        if b.Made? {
          UnaryKeeps(before, op, b.expr, env);
        }
      case Bin(op, _, l, r) =>
        BuildKeepsValue(before, l, env);
        BuildKeepsValue(before, r, env);
        var b, c := Build(before, l), Build(before, r);
        if b.Made? && c.Made? {
          BuildStepMade(before, op, l, r, b.expr, c.expr, env);
          if MkBinary(before, op, b.expr, c.expr).Made? {
            BuildStepKeeps(before, op, l, r, b.expr, c.expr, env);
          }
        }
      case _ =>
    }
  }

  /** An expression of constants is built into one constant, its value, if it has one. */
  lemma {:induction false} ConstantsFold(before: bool, t: Expr, env: Env)
    requires Sound(t) && Faithful(before, t) && Ground(t) && Eval(t, env).Some?
    ensures var b := Build(before, t);
            b.Made? && !b.error && b.expr.Con? && b.expr.ci == Eval(t, env).value
  {
    BuildKeepsValue(before, t, env);
    match t {
      case Una(op, _, l) =>
        ConstantsFold(before, l, env);
      case Bin(op, _, l, r) =>
        ConstantsFold(before, l, env);
        ConstantsFold(before, r, env);
        var b, c := Build(before, l).expr, Build(before, r).expr;
        ConstantStep(before, op, b, c);
      case _ =>
    }
  }

  predicate Ground(t: Expr) {
    match t
    case Con(_, _) => true
    case Una(_, _, l) => Ground(l)
    case Bin(_, _, l, r) => Ground(l) && Ground(r)
    case _ => false
  }

  lemma ConstantStep(before: bool, op: BinOp, l: Expr, r: Expr)
    requires l.Con? && r.Con? && Apply(op, l.ci, r.ci).Some?
    requires MkBinary(before, op, l, r).Made? && !MkBinary(before, op, l, r).expr.Errnode?
    ensures MkBinary(before, op, l, r).expr.Con?
  {
    if op.OPPOWER? && r.ci < 0 {
      NegativePower(l.ci, -r.ci);
    }
  }

  // ----- nothing is left to simplify -----

  /** Every node is what mkexpr makes of its operands. */
  predicate Settled(e: Expr) {
    match e
    case Una(op, _, l) => Settled(l) && MkUnary(false, op, l) == e
    case Bin(op, _, l, r) => Settled(l) && Settled(r) && MkBinary(false, op, l, r) == Made(e, false)
    case _ => true
  }

  lemma UnarySettled(op: UnOp, l: Expr)
    requires Settled(l)
    ensures Settled(MkUnary(false, op, l))
  {}

  lemma {:induction false} BinarySettled(op: BinOp, l: Expr, r: Expr)
    requires Settled(l) && Settled(r)
    requires MkBinary(false, op, l, r).Made? && !MkBinary(false, op, l, r).error
    ensures Settled(MkBinary(false, op, l, r).expr)
    decreases Size(l) + Size(r), 2
  {
    var etype := Cktype(op, TypeOf(l), TypeOf(r));
    if !etype.TYERROR? {
      match op {
        case OPSTAR =>
          if IsIcon(r) && !l.Con? && r.ci != 0 {
            MulopSettled(op, l, r);
          } else if IsIcon(l) && l.ci != 0 {
            MulopSettled(op, r, l);
          }
        case OPSLASH => MulopSettled(op, l, r);
        case OPPLUS =>
          if l.Con? { AddopSettled(op, r, l); } else { AddopSettled(op, l, r); }
        case OPMINUS =>
          if IsIcon(l) && l.ci == 0 {
            UnarySettled(OPNEG, r);
          } else if r.Con? && IsNegatable(r) {
            AddopSettled(OPPLUS, l, r.(ci := -r.ci));
          } else {
            AddopSettled(op, l, r);
          }
        case _ =>
      }
    }
  }

  lemma {:induction false} FactorsSettled(op: BinOp, etype: Ty, x: Expr, c: Expr, d: Expr)
    requires Settled(x) && IsIcon(c) && IsIcon(d) && d.ci != 0 && (op.OPSTAR? || op.OPSLASH?)
    requires Factors(op, etype, x, c, d).Made? && !Factors(op, etype, x, c, d).error
    ensures Settled(Factors(op, etype, x, c, d).expr)
    decreases Size(x) + Size(c) + Size(d), 3
  {
    BinarySettled(OPSTAR, x, MkBinary(false, op, c, d).expr);
  }

  lemma {:induction false} MulopSettled(op: BinOp, l: Expr, r: Expr)
    requires Settled(l) && Settled(r) && !Cktype(op, TypeOf(l), TypeOf(r)).TYERROR?
    requires op.OPSLASH? || (op.OPSTAR? && IsIcon(r) && r.ci != 0)
    requires var m := Mulop(op, Cktype(op, TypeOf(l), TypeOf(r)), l, r); m.Made? && !m.error
    ensures Settled(Mulop(op, Cktype(op, TypeOf(l), TypeOf(r)), l, r).expr)
    decreases Size(l) + Size(r), 1
  {
    var etype := Cktype(op, TypeOf(l), TypeOf(r));
    if IsIcon(r) && r.ci == 1 {
    } else if IsIcon(r) && r.ci == -1 {
      UnarySettled(OPNEG, l);
    } else if IsIcon(r) && r.ci != 0 && (WithIcon(l, OPSTAR) || (WithIcon(l, OPLSHIFT) && Shiftable(l.rightp.ci))) {
      var c := if l.opcode.OPSTAR? then l.rightp else Con(l.rightp.vtype, Power(2, l.rightp.ci));
      if op.OPSTAR? || Rem(c.ci, r.ci) == 0 {
        FactorsSettled(op, etype, l.leftp, c, r);
      }
    }
  }

  lemma {:induction false} AddopSettled(op: BinOp, l: Expr, r: Expr)
    requires Settled(l) && Settled(r) && !Cktype(op, TypeOf(l), TypeOf(r)).TYERROR?
    requires (op.OPPLUS? && (l.Con? ==> r.Con?)) || (op.OPMINUS? && !(IsIcon(l) && l.ci == 0)
                                                     && !(r.Con? && IsNegatable(r)))
    requires var a := Addop(op, Cktype(op, TypeOf(l), TypeOf(r)), l, r); a.Made? && !a.error
    ensures Settled(Addop(op, Cktype(op, TypeOf(l), TypeOf(r)), l, r).expr)
    decreases Size(l) + Size(r), 1
  {
    if IsIcon(r) && r.ci != 0 && WithIcon(l, OPPLUS) {
      BinarySettled(OPPLUS, l.leftp, MkBinary(false, OPPLUS, l.rightp, r).expr);
    }
  }

  lemma {:induction false} BuildSettled(t: Expr)
    requires Build(false, t).Made? && !Build(false, t).error
    ensures Settled(Build(false, t).expr)
  {
    match t {
      case Una(op, _, l) =>
        BuildSettled(l);
        UnarySettled(op, Build(false, l).expr);
      case Bin(op, _, l, r) =>
        BuildSettled(l);
        BuildSettled(r);
        BinarySettled(op, Build(false, l).expr, Build(false, r).expr);
      case _ =>
    }
  }

  lemma {:induction false} SettledBuilds(e: Expr)
    requires Settled(e)
    ensures Build(false, e) == Made(e, false)
  {
    match e {
      case Una(op, _, l) => SettledBuilds(l);
      case Bin(op, _, l, r) =>
        SettledBuilds(l);
        SettledBuilds(r);
      case _ =>
    }
  }

  /** Simplifying what has been simplified changes nothing. */
  lemma BuildTwice(t: Expr)
    requires Build(false, t).Made? && !Build(false, t).error
    ensures Build(false, Build(false, t).expr) == Build(false, t)
  {
    BuildSettled(t);
    SettledBuilds(Build(false, t).expr);
  }
}
