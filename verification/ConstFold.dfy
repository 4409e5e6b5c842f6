/** Integer expressions that change variables: folding their constants into literals, and their code. */
module ConstFold {
  import opened IntTypes
  import opened FoldOps

  datatype Var = Var(global: bool, ts: TS, id: nat)

  datatype Exp =
    | Lit(ts: TS, v: int)
    | Read(x: Var)
    | Assign(x: Var, e: Exp)     // `x += e` is `x = x + e`, `++x` is `x = x + 1`
    | Post(x: Var, up: bool)     // `x++` and `x--`
    | Other(ts: TS, id: nat)     // a call or a memory access, which may change anything
    | Un(op: UnOp, e: Exp)
    | Bin(bop: BinOp, l: Exp, r: Exp)
    | Cast(to: TS, e: Exp)
    | Cond(c: Exp, t: Exp, f: Exp)
    | Logical(and: bool, l: Exp, r: Exp)   // && and ||

  // ---------- compile time ----------

  predicate WellTyped(e: Exp) {
    match e
    case Lit(ts, v) => InType(ts, v)
    case Read(_) => true
    case Assign(_, x) => WellTyped(x)
    case Post(_, _) => true
    case Other(_, _) => true
    case Un(_, x) => WellTyped(x)
    case Bin(_, x, y) => WellTyped(x) && WellTyped(y)
    case Cast(_, x) => WellTyped(x)
    case Cond(c, x, y) => WellTyped(c) && WellTyped(x) && WellTyped(y)
    case Logical(_, x, y) => WellTyped(x) && WellTyped(y)
  }

  /** `arithmetic_constant_expr`: logical operators never count as constant. */
  predicate Constant(e: Exp) {
    match e
    case Lit(_, _) => true
    case Read(_) => false
    case Assign(_, _) => false
    case Post(_, _) => false
    case Other(_, _) => false
    case Un(_, x) => Constant(x)
    case Bin(_, x, y) => Constant(x) && Constant(y)
    case Cast(_, x) => Constant(x)
    case Cond(c, x, y) => Constant(c) && Constant(x) && Constant(y)
    case Logical(_, _, _) => false
  }

  /** `x` is a part of `e`, or all of it. */
  ghost predicate Occurs(x: Exp, e: Exp)
    decreases e
  {
    x == e ||
    match e
    case Assign(_, y) => Occurs(x, y)
    case Un(_, y) => Occurs(x, y)
    case Bin(_, y, z) => Occurs(x, y) || Occurs(x, z)
    case Cast(_, y) => Occurs(x, y)
    case Cond(c, y, z) => Occurs(x, c) || Occurs(x, y) || Occurs(x, z)
    case Logical(_, y, z) => Occurs(x, y) || Occurs(x, z)
    case _ => false
  }

  /** Constant expressions are those without variables, assignments, calls, memory accesses and logical operators. */
  lemma {:induction false} ConstantIff(e: Exp)
    ensures Constant(e) <==> forall x :: Occurs(x, e) ==> x.Lit? || x.Un? || x.Bin? || x.Cast? || x.Cond?
    decreases e
  {
    assert Occurs(e, e);
    match e
    case Un(_, y) => ConstantIff(y);
    case Bin(_, y, z) => ConstantIff(y); ConstantIff(z);
    case Cast(_, y) => ConstantIff(y);
    case Cond(c, y, z) => ConstantIff(c); ConstantIff(y); ConstantIff(z);
    case _ =>
  }

  /** Well-typed expressions are those whose literals are values of their types. */
  lemma {:induction false} WellTypedIff(e: Exp)
    ensures WellTyped(e) <==> forall x :: Occurs(x, e) && x.Lit? ==> InType(x.ts, x.v)
    decreases e
  {
    hide InType;
    assert Occurs(e, e);
    match e
    case Assign(_, y) => WellTypedIff(y);
    case Un(_, y) => WellTypedIff(y);
    case Bin(_, y, z) => WellTypedIff(y); WellTypedIff(z);
    case Cast(_, y) => WellTypedIff(y);
    case Cond(c, y, z) => WellTypedIff(c); WellTypedIff(y); WellTypedIff(z);
    case Logical(_, y, z) => WellTypedIff(y); WellTypedIff(z);
    case _ =>
  }

  /** `static_eval`; an open host result makes everything built on it open. */
  function Evaluate(e: Exp): (r: Folded)
    requires WellTyped(e)
    ensures r.Number? ==> InType(r.ts, r.v)
  {
    match e
    case Lit(ts, v) => Number(ts, v)
    case Read(_) => NotConstant
    case Assign(_, _) => NotConstant
    case Post(_, _) => NotConstant
    case Other(_, _) => NotConstant
    case Un(op, x) =>
      var a := Evaluate(x);
      if a.Number? then NumUnop(op, a.ts, a.v) else a
    case Bin(op, x, y) =>
      var a, b := Evaluate(x), Evaluate(y);
      if a.NotConstant? || b.NotConstant? then NotConstant
      else if a.Number? && b.Number? then NumBinop(op, a.ts, a.v, b.ts, b.v)
      else if a.Open? then a else b
    case Cast(to, x) =>
      var a := Evaluate(x);
      if a.Number? then Number(to, Convert(to, a.ts, a.v)) else a
    case Cond(c, x, y) =>
      var a := Evaluate(c);
      if a.Number? then (if Convert(Int, a.ts, a.v) != 0 then Evaluate(x) else Evaluate(y)) else a
    case Logical(_, _, _) => NotConstant
  }

  /** The static type of an expression as the code generator sees it. */
  function TypeOf(e: Exp): TS {
    match e
    case Lit(ts, _) => ts
    case Read(x) => x.ts
    case Assign(x, _) => x.ts
    case Post(x, _) => x.ts
    case Other(ts, _) => ts
    case Un(op, x) => if op == UNot then Int else Promote(TypeOf(x))
    case Bin(op, x, y) => if Comparison(op) then Int else Common(TypeOf(x), TypeOf(y))
    case Cast(to, _) => to
    case Cond(_, x, y) => Common(TypeOf(x), TypeOf(y))
    case Logical(and, _, y) => LogicalType(and, TypeOf(y))
  }

  /** `x && y` is compiled as `x ? y : 0`, `x || y` as `x ? 1 : y`. */
  function LogicalType(and: bool, ty: TS): TS { if and then Common(ty, Int) else Common(Int, ty) }

  /** `expr_fold_constants`: constant subtrees become literals where they can be evaluated. */
  function Fold(e: Exp): (r: Exp)
    requires WellTyped(e)
    ensures WellTyped(r)
  {
    if Constant(e) then
      var a := Evaluate(e);
      match a
      case Number(ts, v) => Lit(ts, v)
      case NotConstant => e
      case Open(ts) => Lit(ts, 0)  // some value
    else match e
      case Lit(_, _) => e
      case Read(_) => e
      case Assign(v, x) => Assign(v, Fold(x))
      case Post(_, _) => e
      case Other(_, _) => e
      case Un(op, x) => Un(op, Fold(x))
      case Bin(op, x, y) => Bin(op, Fold(x), Fold(y))
      case Cast(to, x) => Cast(to, Fold(x))
      case Cond(c, x, y) => Cond(Fold(c), Fold(x), Fold(y))
      case Logical(and, x, y) => Logical(and, Fold(x), Fold(y))
  }

  /** `r` is `e` with any number of constant subtrees, not inside one another, replaced by what they evaluate to. */
  predicate FoldsTo(e: Exp, r: Exp)
    requires WellTyped(e)
  {
    || (Constant(e) && Evaluate(e).Number? && r == Lit(Evaluate(e).ts, Evaluate(e).v))
    || match e
       case Lit(_, _) => r == e
       case Read(_) => r == e
       case Assign(v, x) => r.Assign? && r.x == v && FoldsTo(x, r.e)
       case Post(_, _) => r == e
       case Other(_, _) => r == e
       case Un(op, x) => r.Un? && r.op == op && FoldsTo(x, r.e)
       case Bin(op, x, y) => r.Bin? && r.bop == op && FoldsTo(x, r.l) && FoldsTo(y, r.r)
       case Cast(to, x) => r.Cast? && r.to == to && FoldsTo(x, r.e)
       case Cond(c, x, y) => r.Cond? && FoldsTo(c, r.c) && FoldsTo(x, r.t) && FoldsTo(y, r.f)
       case Logical(and, x, y) => r.Logical? && r.and == and && FoldsTo(x, r.l) && FoldsTo(y, r.r)
  }

  /** The conditions under which evaluation is tied to the generated code, at every node evaluated:
      operators in the range where host and target agree, and conditionals whose chosen branch already
      has the common type and whose condition does not vanish when narrowed to 32 bits. */
  predicate Agreed(e: Exp)
    requires WellTyped(e)
  {
    match e
    case Lit(_, _) => true
    case Read(_) => true
    case Assign(_, x) => Agreed(x)
    case Post(_, _) => true
    case Other(_, _) => true
    case Un(_, x) => Agreed(x)
    case Cast(_, x) => Agreed(x)
    case Bin(op, x, y) =>
      && Agreed(x) && Agreed(y)
      && var a, b := Evaluate(x), Evaluate(y);
      && (a.Number? && b.Number? ==>
           var tz := Common(a.ts, b.ts); Tied(op, tz, Convert(tz, a.ts, a.v), Convert(tz, b.ts, b.v)))
    case Cond(c, x, y) =>
      && Agreed(c) && Agreed(x) && Agreed(y)
      && var a := Evaluate(c);
      && (a.Number? ==>
            && (a.v != 0 ==> Convert(Int, a.ts, a.v) != 0)
            && TypeOf(if a.v != 0 then x else y) == Common(TypeOf(x), TypeOf(y)))
    case Logical(_, x, y) => Agreed(x) && Agreed(y)
  }

  // ---------- generated code ----------

  datatype WVal = WVal(wide: bool, bits: nat)

  datatype Instr =
    | Const(w: WVal)
    | Get(x: Var) | Set(x: Var) | Tee(x: Var)
    | Invoke(ts: TS, id: nat)
    | Op(op: BinOp, signed: bool, wide: bool)
    | Eqz(wide: bool)
    | Ext8 | Ext16
    | WrapWide | ExtendS | ExtendU
    | Select
    | IfElse(yes: Code, no: Code)

  /** Code as the generator builds it: code blocks nested inside code blocks. */
  datatype Code = Empty | One(i: Instr) | Cat(a: Code, b: Code)

  /** The variables that have been set; the others are 0. */
  datatype State = State(vars: map<Var, nat>, memory: map<nat, nat>)

  function VarWord(st: State, x: Var): nat {
    (if x in st.vars then st.vars[x] else 0) % WordSize(Wide(x.ts))
  }

  function With(st: State, x: Var, w: nat): State { st.(vars := st.vars[x := w]) }

  datatype Outcome = Done(bits: nat, st: State) | Traps

  /** What the other operands do: any word, any change. */
  type Env = (nat, State) -> Outcome

  datatype Out = Stack(s: seq<WVal>, st: State) | Trap

  function OfWidth(wide: bool, n: nat): WVal { WVal(wide, n % WordSize(wide)) }

  function Literal(ts: TS, v: int): WVal { WVal(Wide(ts), v % WordSize(Wide(ts))) }

  function Step(E: Env, i: Instr, st: State, s: seq<WVal>): Out
    decreases i
  {
    var n := |s|;
    match i
    case Const(w) => Stack(s + [w], st)
    case Get(x) => Stack(s + [WVal(Wide(x.ts), VarWord(st, x))], st)
    case Set(x) =>
      if n < 1 || s[n - 1].wide != Wide(x.ts) then Trap
      else Stack(s[..n - 1], With(st, x, s[n - 1].bits))
    case Tee(x) =>
      if n < 1 || s[n - 1].wide != Wide(x.ts) then Trap
      else Stack(s, With(st, x, s[n - 1].bits))
    case Invoke(ts, id) =>
      var r := E(id, st);
      if r.Traps? then Trap else Stack(s + [OfWidth(Wide(ts), r.bits)], r.st)
    case Op(op, signed, wide) =>
      if n < 2 || s[n - 1].wide != wide || s[n - 2].wide != wide then Trap
      else
        var (ok, r) := WordOp(op, signed, wide, s[n - 2].bits, s[n - 1].bits);
        if ok then Stack(s[..n - 2] + [WVal(wide && !Comparison(op), r)], st) else Trap
    case Eqz(wide) =>
      if n < 1 || s[n - 1].wide != wide then Trap
      else Stack(s[..n - 1] + [WVal(false, if s[n - 1].bits == 0 then 1 else 0)], st)
    case Ext8 => Unary(st, s, false, false, x => Sext(M8, x) % M32)
    case Ext16 => Unary(st, s, false, false, x => Sext(M16, x) % M32)
    case WrapWide => Unary(st, s, true, false, x => x % M32)
    case ExtendS => Unary(st, s, false, true, x => SignedWord(M32, x) % M64)
    case ExtendU => Unary(st, s, false, true, x => x)
    case Select =>
      if n < 3 || s[n - 1].wide || s[n - 2].wide != s[n - 3].wide then Trap
      else Stack(s[..n - 3] + [if s[n - 1].bits != 0 then s[n - 3] else s[n - 2]], st)
    case IfElse(x, y) =>
      if n < 1 || s[n - 1].wide then Trap
      else if s[n - 1].bits != 0 then Run(E, x, st, s[..n - 1]) else Run(E, y, st, s[..n - 1])
  }

  function Unary(st: State, s: seq<WVal>, from: bool, to: bool, f: nat -> nat): Out {
    if s == [] || s[|s| - 1].wide != from then Trap
    else Stack(s[..|s| - 1] + [WVal(to, f(s[|s| - 1].bits))], st)
  }

  function Run(E: Env, c: Code, st: State, s: seq<WVal>): Out
    decreases c
  {
    match c
    case Empty => Stack(s, st)
    case One(i) => Step(E, i, st, s)
    case Cat(a, b) =>
      var o := Run(E, a, st, s);
      if o.Stack? then Run(E, b, o.st, o.s) else Trap
  }

  /** `asm_numerical_cast` between integer types. */
  function CastCode(to: TS, from: TS): Code
    decreases to == Char || to == Short || to == UChar || to == UShort
  {
    if to == from then Empty
    else match to
      case Bool => Cat(One(Eqz(Wide(from))), One(Eqz(false)))
      case Char => Cat(CastCode(Int, from), One(Ext8))
      case Short => Cat(CastCode(Int, from), One(Ext16))
      case UChar => Cat(CastCode(UInt, from), Cat(One(Const(Literal(UInt, 0xFF))), One(Op(And, false, false))))
      case UShort => Cat(CastCode(UInt, from), Cat(One(Const(Literal(UInt, 0xFFFF))), One(Op(And, false, false))))
      case LLong => WidenCode(from)
      case ULLong => WidenCode(from)
      case _ =>
        if from == Char then One(Ext8)
        else if from == Short then One(Ext16)
        else if Wide(from) then One(WrapWide)
        else Empty
  }

  function WidenCode(from: TS): Code {
    match from
    case Char => Cat(One(Ext8), One(ExtendS))
    case Short => Cat(One(Ext16), One(ExtendS))
    case Int => One(ExtendS)
    case Long => One(ExtendS)
    case LLong => Empty
    case ULLong => Empty
    case _ => One(ExtendU)
  }

  /** Code and a cast to another type, when there is one to do. */
  function Converted(c: Code, to: TS, from: TS): Code {
    if to == from then c else Cat(c, CastCode(to, from))
  }

  function BinCode(op: BinOp, c: Code, tc: TS, d: Code, td: TS): Code {
    var tz := Common(tc, td);
    Cat(Converted(c, tz, tc), Cat(Converted(d, tz, td), One(Op(op, !Unsigned(tz), Wide(tz)))))
  }

  function UnCode(op: UnOp, c: Code, tc: TS): Code {
    var tz := Promote(tc);
    match op
    case UPlus => Cat(Converted(c, tz, tc), Empty)
    case UNot => Cat(Converted(c, tz, tc), One(Eqz(Wide(tz))))
    case UMinus => Cat(One(Const(Literal(tz, 0))), Cat(Converted(c, tz, tc), One(Op(Minus, !Unsigned(tz), Wide(tz)))))
    case UTilde => Cat(One(Const(Literal(tz, -1))), Cat(Converted(c, tz, tc), One(Op(Xor, !Unsigned(tz), Wide(tz)))))
  }

  /** A condition as an i32: other types are compared to zero. */
  function TestCode(c: Code, tc: TS): Code {
    if tc == Int || tc == UInt || tc == Long || tc == ULong then c
    else BinCode(Ne, c, tc, One(Const(Literal(ULong, 0))), ULong)
  }

  /** `acode_simple_noeff`: a single constant or variable access. */
  predicate SimpleCode(c: Code) { c.One? && (c.i.Const? || c.i.Get?) }

  /** With two simple branches, `select` over both, which come before the condition. */
  function CondCode(c: Code, tc: TS, x: Code, tx: TS, y: Code, ty: TS): Code {
    var tz := Common(tx, ty);
    var cx, cy := Converted(x, tz, tx), Converted(y, tz, ty);
    if SimpleCode(x) && SimpleCode(y) then Cat(cx, Cat(cy, Cat(TestCode(c, tc), One(Select))))
    else Cat(TestCode(c, tc), One(IfElse(cx, cy)))
  }

  /** `compile_asncombo`: a local keeps its new value on the stack, a global is fetched again. */
  function AssignCode(x: Var, c: Code, tc: TS): Code {
    var d := Converted(c, x.ts, tc);
    if x.global then Cat(d, Cat(One(Set(x)), One(Get(x)))) else Cat(d, One(Tee(x)))
  }

  function PostCode(x: Var, up: bool): Code {
    var sum := BinCode(if up then Plus else Minus, One(Get(x)), x.ts, One(Const(Literal(Int, 1))), Int);
    Cat(One(Get(x)), Cat(Converted(sum, x.ts, Common(x.ts, Int)), One(Set(x))))
  }

  /** The code of an expression. */
  function Compile(e: Exp): Code {
    match e
    case Lit(ts, v) => One(Const(Literal(ts, v)))
    case Read(x) => One(Get(x))
    case Assign(x, y) => AssignCode(x, Compile(y), TypeOf(y))
    case Post(x, up) => PostCode(x, up)
    case Other(ts, id) => One(Invoke(ts, id))
    case Un(op, x) => UnCode(op, Compile(x), TypeOf(x))
    case Bin(op, x, y) => BinCode(op, Compile(x), TypeOf(x), Compile(y), TypeOf(y))
    case Cast(to, x) => Cat(Compile(x), CastCode(to, TypeOf(x)))
    case Cond(c, x, y) => CondCode(Compile(c), TypeOf(c), Compile(x), TypeOf(x), Compile(y), TypeOf(y))
    case Logical(and, x, y) =>
      if and then CondCode(Compile(x), TypeOf(x), Compile(y), TypeOf(y), One(Const(Literal(Int, 0))), Int)
      else CondCode(Compile(x), TypeOf(x), One(Const(Literal(Int, 1))), Int, Compile(y), TypeOf(y))
  }
}
