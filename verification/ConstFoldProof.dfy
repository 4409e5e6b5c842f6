/** What the code of an expression computes, when that is what C says, and what folding constants changes. */
module ConstFoldProof {
  import opened Arith
  import opened IntTypes
  import opened FoldOps
  import opened ConstFold

  function Size(ts: TS): (n: nat)
    ensures n > 0
  {
    WordSize(Wide(ts))
  }

  function And8(w: nat, mask: nat): nat { Bits(And, w, mask, 32) }

  /** What a cast does to a word. */
  function CastWord(to: TS, from: TS, w: nat): nat
    decreases to == Char || to == Short || to == UChar || to == UShort
  {
    if to == from then w
    else match to
      case Bool => if w == 0 then 0 else 1
      case Char => Sext(M8, CastWord(Int, from, w)) % M32
      case Short => Sext(M16, CastWord(Int, from, w)) % M32
      case UChar => And8(CastWord(UInt, from, w), 0xFF)
      case UShort => And8(CastWord(UInt, from, w), 0xFFFF)
      case LLong => WidenWord(from, w)
      case ULLong => WidenWord(from, w)
      case _ =>
        if from == Char then Sext(M8, w) % M32
        else if from == Short then Sext(M16, w) % M32
        else w % M32
  }

  function WidenWord(from: TS, w: nat): nat {
    match from
    case Char => SignedWord(M32, Sext(M8, w) % M32) % M64
    case Short => SignedWord(M32, Sext(M16, w) % M32) % M64
    case Int => SignedWord(M32, w) % M64
    case Long => SignedWord(M32, w) % M64
    case _ => w
  }

  /** The operation's word, and whether there is one. */
  function BinWord(op: BinOp, tc: TS, a: nat, td: TS, b: nat): (bool, nat) {
    var tz := Common(tc, td);
    WordOp(op, !Unsigned(tz), Wide(tz), CastWord(tz, tc, a), CastWord(tz, td, b))
  }

  function UnWord(op: UnOp, tc: TS, a: nat): nat {
    var tz := Promote(tc);
    var w := CastWord(tz, tc, a);
    match op
    case UPlus => w
    case UNot => if w == 0 then 1 else 0
    case UMinus => WordOp(Minus, !Unsigned(tz), Wide(tz), 0, w).1
    case UTilde => WordOp(Xor, !Unsigned(tz), Wide(tz), Size(tz) - 1, w).1
  }

  predicate TestWord(tc: TS, w: nat) {
    if tc == Int || tc == UInt || tc == Long || tc == ULong then w != 0
    else CastWord(Common(tc, ULong), tc, w) != 0
  }

  /** A variable's word after `++` or `--`. */
  function Stepped(ts: TS, up: bool, w: nat): nat {
    CastWord(ts, Common(ts, Int), BinWord(if up then Plus else Minus, ts, w, Int, 1).1)
  }

  function Casted(to: TS, from: TS, r: Outcome): Outcome {
    if r.Traps? then Traps else Done(CastWord(to, from, r.bits), r.st)
  }

  /** C's order of evaluation, or the compiled one, where `select` reads its branches before the condition. */
  datatype Order = InOrder | AsCompiled

  /** A number or a variable. */
  predicate Simple(e: Exp) { e.Lit? || e.Read? }

  function SimpleWord(st: State, e: Exp): nat {
    match e
    case Lit(ts, v) => v % Size(ts)
    case Read(x) => VarWord(st, x)
    case _ => 0
  }

  /** What an expression gives and what it leaves behind, independent of the form of its code. */
  function Value(E: Env, ord: Order, st: State, e: Exp): Outcome
    decreases e
  {
    match e
    case Lit(ts, v) => Done(v % Size(ts), st)
    case Read(x) => Done(VarWord(st, x), st)
    case Assign(x, y) =>
      var a := Casted(x.ts, TypeOf(y), Value(E, ord, st, y));
      if a.Traps? then Traps else Done(a.bits, With(a.st, x, a.bits))
    case Post(x, up) => Done(VarWord(st, x), With(st, x, Stepped(x.ts, up, VarWord(st, x))))
    case Other(ts, id) =>
      var a := E(id, st);
      if a.Traps? then Traps else Done(a.bits % Size(ts), a.st)
    case Un(op, x) =>
      var a := Value(E, ord, st, x);
      if a.Traps? then Traps else Done(UnWord(op, TypeOf(x), a.bits), a.st)
    case Bin(op, x, y) =>
      var a := Value(E, ord, st, x);
      if a.Traps? then Traps
      else
        var b := Value(E, ord, a.st, y);
        if b.Traps? then Traps
        else
          var (ok, w) := BinWord(op, TypeOf(x), a.bits, TypeOf(y), b.bits);
          if ok then Done(w, b.st) else Traps
    case Cast(to, x) => Casted(to, TypeOf(x), Value(E, ord, st, x))
    case Cond(c, x, y) =>
      var a := Value(E, ord, st, c);
      if a.Traps? then Traps
      else
        var z := if TestWord(TypeOf(c), a.bits) then x else y;
        var b := if ord == AsCompiled && Simple(x) && Simple(y) then Done(SimpleWord(st, z), a.st)
                 else Value(E, ord, a.st, z);
        Casted(Common(TypeOf(x), TypeOf(y)), TypeOf(z), b)
    case Logical(and, x, y) =>
      var a, tz := Value(E, ord, st, x), LogicalType(and, TypeOf(y));
      if a.Traps? then Traps
      else if TestWord(TypeOf(x), a.bits) != and then Done(CastWord(tz, Int, if and then 0 else 1), a.st)
      else
        var b := if ord == AsCompiled && Simple(y) then Done(SimpleWord(st, y), a.st) else Value(E, ord, a.st, y);
        Casted(tz, TypeOf(y), b)
  }

  /** The conditional that `&&` or `||` is compiled as. */
  function AsCond(and: bool, x: Exp, y: Exp): Exp {
    if and then Cond(x, y, Lit(Int, 0)) else Cond(x, Lit(Int, 1), y)
  }

  lemma LogicalIsCond(E: Env, ord: Order, st: State, and: bool, x: Exp, y: Exp)
    ensures var e, r := Logical(and, x, y), AsCond(and, x, y);
            Value(E, ord, st, e) == Value(E, ord, st, r) && TypeOf(e) == TypeOf(r) && Compile(e) == Compile(r)
  {
    hide CastWord, TestWord, Common, CondCode;
  }

  // ---------- the code computes the value ----------

  lemma Tops(s: seq<WVal>, w: WVal)
    ensures (s + [w])[..|s|] == s && (s + [w])[|s|] == w
  {}

  lemma UnaryRun(st: State, s: seq<WVal>, from: bool, to: bool, f: nat -> nat, w: nat)
    ensures Unary(st, s + [WVal(from, w)], from, to, f) == Stack(s + [WVal(to, f(w))], st)
  {
    Tops(s, WVal(from, w));
  }

  lemma CatRun(E: Env, st: State, a: Code, b: Code, s: seq<WVal>, t: seq<WVal>, st1: State)
    requires Run(E, a, st, s) == Stack(t, st1)
    ensures Run(E, Cat(a, b), st, s) == Run(E, b, st1, t)
  {}

  lemma OneRun(E: Env, st: State, i: Instr, s: seq<WVal>)
    ensures Run(E, One(i), st, s) == Step(E, i, st, s)
  {}

  lemma ExtendRun(E: Env, st: State, s: seq<WVal>, w: nat)
    ensures Run(E, One(Ext8), st, s + [WVal(false, w)]) == Stack(s + [WVal(false, Sext(M8, w) % M32)], st)
    ensures Run(E, One(Ext16), st, s + [WVal(false, w)]) == Stack(s + [WVal(false, Sext(M16, w) % M32)], st)
  {
    UnaryRun(st, s, false, false, x => Sext(M8, x) % M32, w);
    UnaryRun(st, s, false, false, x => Sext(M16, x) % M32, w);
  }

  lemma WidthRun(E: Env, st: State, s: seq<WVal>, w: nat)
    ensures Run(E, One(WrapWide), st, s + [WVal(true, w)]) == Stack(s + [WVal(false, w % M32)], st)
    ensures Run(E, One(ExtendS), st, s + [WVal(false, w)]) == Stack(s + [WVal(true, SignedWord(M32, w) % M64)], st)
    ensures Run(E, One(ExtendU), st, s + [WVal(false, w)]) == Stack(s + [WVal(true, w)], st)
  {
    UnaryRun(st, s, true, false, x => x % M32, w);
    UnaryRun(st, s, false, true, x => SignedWord(M32, x) % M64, w);
    UnaryRun(st, s, false, true, x => x, w);
  }

  lemma EqzRun(E: Env, st: State, wide: bool, s: seq<WVal>, w: nat)
    ensures Run(E, One(Eqz(wide)), st, s + [WVal(wide, w)]) == Stack(s + [WVal(false, if w == 0 then 1 else 0)], st)
  {
    Tops(s, WVal(wide, w));
  }

  lemma OpRun(E: Env, st: State, op: BinOp, signed: bool, wide: bool, s: seq<WVal>, a: nat, b: nat)
    ensures var (ok, r) := WordOp(op, signed, wide, a, b);
            Run(E, One(Op(op, signed, wide)), st, s + [WVal(wide, a)] + [WVal(wide, b)])
            == if ok then Stack(s + [WVal(wide && !Comparison(op), r)], st) else Trap
  {
    var s1 := s + [WVal(wide, a)];
    Tops(s, WVal(wide, a));
    Tops(s1, WVal(wide, b));
    var t := s1 + [WVal(wide, b)];
    assert t[..|t| - 2] == s && t[|t| - 2] == WVal(wide, a);
    hide WordOp;
  }

  lemma MaskRun(E: Env, st: State, s: seq<WVal>, w: nat, mask: nat)
    requires mask < M32
    ensures Run(E, Cat(One(Const(Literal(UInt, mask))), One(Op(And, false, false))), st, s + [WVal(false, w)])
            == Stack(s + [WVal(false, And8(w, mask))], st)
  {
    hide Run, WordOp, Bits;
    var t := s + [WVal(false, w)];
    OneRun(E, st, Const(Literal(UInt, mask)), t);
    OpRun(E, st, And, false, false, s, w, mask);
    CatRun(E, st, One(Const(Literal(UInt, mask))), One(Op(And, false, false)), t, t + [WVal(false, mask)], st);
    WordOpLogic(And, false, false, w, mask);
  }

  lemma NarrowRun(E: Env, st: State, to: TS, from: TS, s: seq<WVal>, w: nat)
    requires to == Int || to == UInt || to == Long || to == ULong
    requires w < Size(from)
    ensures Run(E, CastCode(to, from), st, s + [WVal(Wide(from), w)]) == Stack(s + [WVal(false, CastWord(to, from, w))], st)
  {
    hide Step, Sext;
    ExtendRun(E, st, s, w);
    WidthRun(E, st, s, w);
  }

  lemma WidenRun(E: Env, st: State, from: TS, s: seq<WVal>, w: nat)
    ensures Run(E, WidenCode(from), st, s + [WVal(Wide(from), w)]) == Stack(s + [WVal(true, WidenWord(from, w))], st)
  {
    hide Step, Sext, SignedWord;
    ExtendRun(E, st, s, w);
    WidthRun(E, st, s, w);
    WidthRun(E, st, s, Sext(M8, w) % M32);
    WidthRun(E, st, s, Sext(M16, w) % M32);
  }

  lemma BoolRun(E: Env, st: State, from: TS, s: seq<WVal>, w: nat)
    requires from != Bool
    ensures Run(E, CastCode(Bool, from), st, s + [WVal(Wide(from), w)]) == Stack(s + [WVal(false, CastWord(Bool, from, w))], st)
  {
    hide Step;
    EqzRun(E, st, Wide(from), s, w);
    EqzRun(E, st, false, s, if w == 0 then 1 else 0);
  }

  lemma SmallRun(E: Env, st: State, to: TS, from: TS, s: seq<WVal>, w: nat)
    requires (to == Char || to == Short || to == UChar || to == UShort) && to != from && w < Size(from)
    ensures Run(E, CastCode(to, from), st, s + [WVal(Wide(from), w)]) == Stack(s + [WVal(false, CastWord(to, from, w))], st)
  {
    hide Run, Step, Sext, And8, WidenCode, WidenWord;
    var mid := if to == Char || to == Short then Int else UInt;
    var v := CastWord(mid, from, w);
    NarrowRun(E, st, mid, from, s, w);
    if to == Char || to == Short { ExtendRun(E, st, s, v); }
    if to == UChar { MaskRun(E, st, s, v, 0xFF); }
    if to == UShort { MaskRun(E, st, s, v, 0xFFFF); }
    var tail := match to
                case Char => One(Ext8)
                case Short => One(Ext16)
                case UChar => Cat(One(Const(Literal(UInt, 0xFF))), One(Op(And, false, false)))
                case _ => Cat(One(Const(Literal(UInt, 0xFFFF))), One(Op(And, false, false)));
    assert CastCode(to, from) == Cat(CastCode(mid, from), tail);
    CatRun(E, st, CastCode(mid, from), tail, s + [WVal(Wide(from), w)], s + [WVal(false, v)], st);
  }

  /** The code of a cast does to the top word what `CastWord` says. */
  lemma CastRun(E: Env, st: State, to: TS, from: TS, s: seq<WVal>, w: nat)
    requires w < Size(from)
    ensures Run(E, CastCode(to, from), st, s + [WVal(Wide(from), w)]) == Stack(s + [WVal(Wide(to), CastWord(to, from, w))], st)
  {
    if to == from {
    } else if to == Bool {
      BoolRun(E, st, from, s, w);
    } else if to == Char || to == Short || to == UChar || to == UShort {
      SmallRun(E, st, to, from, s, w);
    } else if Wide(to) {
      WidenRun(E, st, from, s, w);
      hide WidenCode, WidenWord, Run;
    } else {
      NarrowRun(E, st, to, from, s, w);
    }
  }

  lemma And8Range(w: nat, mask: nat)
    ensures And8(w, mask) < M32
  {
    PowersOfTwo();
    hide Bits, Pow2;
  }

  lemma WidenWordRange(from: TS, w: nat)
    requires w < Size(from)
    ensures WidenWord(from, w) < M64
  {
    hide Sext, SignedWord;
  }

  lemma CastWordRange(to: TS, from: TS, w: nat)
    requires w < Size(from)
    ensures CastWord(to, from, w) < Size(to)
  {
    hide Sext, And8, WidenWord;
    if to == UChar {
      And8Range(CastWord(UInt, from, w), 0xFF);
    } else if to == UShort {
      And8Range(CastWord(UInt, from, w), 0xFFFF);
    } else if Wide(to) {
      WidenWordRange(from, w);
    }
  }

  lemma WordOpRange(op: BinOp, signed: bool, wide: bool, a: nat, b: nat)
    ensures WordOp(op, signed, wide, a, b).1 < WordSize(wide)
  {
    PowersOfTwo();
    hide TruncDiv, TruncRem, FloorDiv, Bits, Pow2, SignedWord;
  }

  lemma {:induction false} ValueRange(E: Env, ord: Order, st: State, e: Exp)
    ensures var r := Value(E, ord, st, e); r.Done? ==> r.bits < Size(TypeOf(e))
    decreases e, 0
  {
    hide CastWord, WordOp, WordSize, TestWord;
    match e
    case Lit(_, _) =>
    case Read(x) => WordRange(st, x);
    case Assign(x, y) => CastedRange(E, ord, st, x.ts, y);
    case Post(x, _) => WordRange(st, x);
    case Other(_, _) =>
    case Un(op, x) =>
      ValueRange(E, ord, st, x);
      var a := Value(E, ord, st, x);
      if a.Done? { UnWordRange(op, TypeOf(x), a.bits); }
    case Bin(op, x, y) =>
      var a := Value(E, ord, st, x);
      if a.Done? && Value(E, ord, a.st, y).Done? {
        BinWordRange(op, TypeOf(x), a.bits, TypeOf(y), Value(E, ord, a.st, y).bits);
      }
    case Cast(to, x) => CastedRange(E, ord, st, to, x);
    case Cond(c, x, y) =>
      var tz := Common(TypeOf(x), TypeOf(y));
      BranchRange(E, ord, st, c, tz, x);
      BranchRange(E, ord, st, c, tz, y);
    case Logical(and, x, y) =>
      var tz := LogicalType(and, TypeOf(y));
      BranchRange(E, ord, st, x, tz, y);
      CastWordRange(tz, Int, 0);
      CastWordRange(tz, Int, 1);
  }

  lemma WordRange(st: State, x: Var)
    ensures VarWord(st, x) < Size(x.ts)
  {}

  lemma CastedRange(E: Env, ord: Order, st: State, to: TS, e: Exp)
    ensures var r := Casted(to, TypeOf(e), Value(E, ord, st, e)); r.Done? ==> r.bits < Size(to)
    decreases e, 1
  {
    hide CastWord, Value;
    ValueRange(E, ord, st, e);
    var a := Value(E, ord, st, e);
    if a.Done? { CastWordRange(to, TypeOf(e), a.bits); }
  }

  /** A branch, read before or after the condition. */
  lemma BranchRange(E: Env, ord: Order, st: State, c: Exp, to: TS, z: Exp)
    ensures var a := Value(E, ord, st, c);
            a.Done? ==> (Simple(z) ==> CastWord(to, TypeOf(z), SimpleWord(st, z)) < Size(to))
                        && var r := Casted(to, TypeOf(z), Value(E, ord, a.st, z)); r.Done? ==> r.bits < Size(to)
    decreases z, 2
  {
    hide CastWord, WordSize;
    var a := Value(E, ord, st, c);
    if a.Done? { CastedRange(E, ord, a.st, to, z); }
    if Simple(z) {
      SimpleRange(st, z);
      CastWordRange(to, TypeOf(z), SimpleWord(st, z));
    }
  }

  lemma SimpleRange(st: State, e: Exp)
    ensures SimpleWord(st, e) < Size(TypeOf(e))
  {
    hide WordSize;
    if e.Read? { WordRange(st, e.x); }
  }

  lemma UnWordRange(op: UnOp, tc: TS, a: nat)
    requires a < Size(tc)
    ensures UnWord(op, tc, a) < Size(if op == UNot then Int else Promote(tc))
  {
    var tz := Promote(tc);
    CastWordRange(tz, tc, a);
    var w := CastWord(tz, tc, a);
    WordOpRange(Minus, !Unsigned(tz), Wide(tz), 0, w);
    WordOpRange(Xor, !Unsigned(tz), Wide(tz), Size(tz) - 1, w);
    hide CastWord, WordOp;
  }

  lemma BinWordRange(op: BinOp, tc: TS, a: nat, td: TS, b: nat)
    ensures BinWord(op, tc, a, td, b).1 < Size(if Comparison(op) then Int else Common(tc, td))
  {
    var tz := Common(tc, td);
    OpRange(op, tz, CastWord(tz, tc, a), CastWord(tz, td, b));
    hide CastWord, WordOp;
  }

  lemma ComparisonRange(op: BinOp, signed: bool, wide: bool, a: nat, b: nat)
    requires Comparison(op)
    ensures WordOp(op, signed, wide, a, b).1 <= 1
  {
    hide SignedWord, Compare;
  }

  /** Code that pushes the word `w` of type `ts` and leaves the state `st1`. */
  ghost predicate Gives(E: Env, st: State, c: Code, ts: TS, w: nat, st1: State) {
    forall s {:trigger Run(E, c, st, s)} :: Run(E, c, st, s) == Stack(s + [WVal(Wide(ts), w)], st1)
  }

  ghost predicate AlwaysTraps(E: Env, st: State, c: Code) {
    forall s {:trigger Run(E, c, st, s)} :: Run(E, c, st, s) == Trap
  }

  /** Code for an expression of type `ts` whose outcome is `r`. */
  ghost predicate Computes(E: Env, st: State, c: Code, ts: TS, r: Outcome) {
    if r.Traps? then AlwaysTraps(E, st, c) else Gives(E, st, c, ts, r.bits, r.st) && r.bits < Size(ts)
  }

  lemma CatTraps(E: Env, st: State, a: Code, b: Code)
    requires AlwaysTraps(E, st, a)
    ensures AlwaysTraps(E, st, Cat(a, b))
  {}

  /** Code after code that leaves a word. */
  lemma CatGives(E: Env, st: State, a: Code, b: Code, ts: TS, w: nat, st1: State, s: seq<WVal>)
    requires Gives(E, st, a, ts, w, st1)
    ensures Run(E, Cat(a, b), st, s) == Run(E, b, st1, s + [WVal(Wide(ts), w)])
  {
    CatRun(E, st, a, b, s, s + [WVal(Wide(ts), w)], st1);
  }

  lemma CastGives(E: Env, st: State, c: Code, to: TS, from: TS, r: Outcome)
    requires Computes(E, st, c, from, r)
    ensures Computes(E, st, Cat(c, CastCode(to, from)), to, Casted(to, from, r))
  {
    hide Run, CastCode, CastWord, Gives, AlwaysTraps, Size;
    var code := Cat(c, CastCode(to, from));
    if r.Traps? {
      CatTraps(E, st, c, CastCode(to, from));
    } else {
      var w := CastWord(to, from, r.bits);
      forall s
        ensures Run(E, code, st, s) == Stack(s + [WVal(Wide(to), w)], r.st)
      {
        CastRun(E, r.st, to, from, s, r.bits);
        CatGives(E, st, c, CastCode(to, from), from, r.bits, r.st, s);
      }
      GivesIntro(E, st, code, to, w, r.st);
      CastWordRange(to, from, r.bits);
    }
  }

  lemma GivesIntro(E: Env, st: State, c: Code, ts: TS, w: nat, st1: State)
    requires forall s {:trigger Run(E, c, st, s)} :: Run(E, c, st, s) == Stack(s + [WVal(Wide(ts), w)], st1)
    ensures Gives(E, st, c, ts, w, st1)
  {
    hide Run;
  }

  lemma SameRunComputes(E: Env, st: State, c: Code, st1: State, d: Code, ts: TS, r: Outcome)
    requires forall s {:trigger Run(E, c, st, s)} :: Run(E, c, st, s) == Run(E, d, st1, s)
    requires Computes(E, st1, d, ts, r)
    ensures Computes(E, st, c, ts, r)
  {
    hide Run, Size;
  }

  lemma ConvertedComputes(E: Env, st: State, c: Code, to: TS, from: TS, r: Outcome)
    requires Computes(E, st, c, from, r)
    ensures Computes(E, st, Converted(c, to, from), to, Casted(to, from, r))
  {
    if to == from {
      if r.Done? { SameWord(to, r.bits); }
    } else {
      CastGives(E, st, c, to, from, r);
    }
    hide Gives, AlwaysTraps, CastWord, CastCode;
  }

  lemma SameWord(ts: TS, w: nat)
    ensures CastWord(ts, ts, w) == w
  {}

  lemma SecondTraps(E: Env, st: State, c: Code, d: Code, rest: Code, ts: TS, a: nat, st1: State)
    requires Gives(E, st, c, ts, a, st1) && AlwaysTraps(E, st1, d)
    ensures AlwaysTraps(E, st, Cat(c, Cat(d, rest)))
  {
    forall s
      ensures Run(E, Cat(c, Cat(d, rest)), st, s) == Trap
    {
      CatGives(E, st, c, Cat(d, rest), ts, a, st1, s);
      CatTraps(E, st1, d, rest);
      hide Gives;
    }
  }

  function OpOutcome(op: BinOp, ts: TS, a: nat, b: nat, st: State): Outcome {
    var (ok, r) := WordOp(op, !Unsigned(ts), Wide(ts), a, b);
    if ok then Done(r, st) else Traps
  }

  lemma OpGives(E: Env, st: State, c: Code, d: Code, op: BinOp, ts: TS, a: nat, st1: State, b: nat, st2: State)
    requires Gives(E, st, c, ts, a, st1) && Gives(E, st1, d, ts, b, st2)
    ensures Computes(E, st, Cat(c, Cat(d, One(Op(op, !Unsigned(ts), Wide(ts))))), if Comparison(op) then Int else ts,
                     OpOutcome(op, ts, a, b, st2))
  {
    var i := Op(op, !Unsigned(ts), Wide(ts));
    forall s
      ensures Run(E, Cat(c, Cat(d, One(i))), st, s)
              == Run(E, One(i), st2, s + [WVal(Wide(ts), a)] + [WVal(Wide(ts), b)])
    {
      CatGives(E, st, c, Cat(d, One(i)), ts, a, st1, s);
      CatGives(E, st1, d, One(i), ts, b, st2, s + [WVal(Wide(ts), a)]);
      hide Run, Gives;
    }
    OpLast(E, st, Cat(c, Cat(d, One(i))), op, ts, a, b, st2);
    hide Run, Gives, AlwaysTraps, WordOp, OpOutcome;
  }

  lemma OpLast(E: Env, st: State, code: Code, op: BinOp, ts: TS, a: nat, b: nat, st1: State)
    requires forall s {:trigger Run(E, code, st, s)} ::
               Run(E, code, st, s)
               == Run(E, One(Op(op, !Unsigned(ts), Wide(ts))), st1, s + [WVal(Wide(ts), a)] + [WVal(Wide(ts), b)])
    ensures Computes(E, st, code, if Comparison(op) then Int else ts, OpOutcome(op, ts, a, b, st1))
  {
    hide Run, WordOp, Size, Gives, AlwaysTraps, Comparison;
    var (ok, r) := WordOp(op, !Unsigned(ts), Wide(ts), a, b);
    var tr := if Comparison(op) then Int else ts;
    forall s
      ensures Run(E, code, st, s) == if ok then Stack(s + [WVal(Wide(tr), r)], st1) else Trap
    {
      OpRun(E, st1, op, !Unsigned(ts), Wide(ts), s, a, b);
    }
    if ok {
      GivesIntro(E, st, code, tr, r, st1);
      OpRange(op, ts, a, b);
    } else {
      TrapsIntro(E, st, code);
    }
  }

  lemma OpRange(op: BinOp, ts: TS, a: nat, b: nat)
    ensures WordOp(op, !Unsigned(ts), Wide(ts), a, b).1 < Size(if Comparison(op) then Int else ts)
  {
    WordOpRange(op, !Unsigned(ts), Wide(ts), a, b);
    if Comparison(op) { ComparisonRange(op, !Unsigned(ts), Wide(ts), a, b); }
    hide WordOp;
  }

  /** The second operand runs in the state that the first one leaves. */
  function BinOutcome(op: BinOp, tc: TS, a: Outcome, td: TS, b: Outcome): Outcome {
    if a.Traps? || b.Traps? then Traps
    else
      var (ok, w) := BinWord(op, tc, a.bits, td, b.bits);
      if ok then Done(w, b.st) else Traps
  }

  lemma BinComputes(E: Env, st: State, op: BinOp, c: Code, tc: TS, a: Outcome, d: Code, td: TS, b: Outcome)
    requires Computes(E, st, c, tc, a) && (a.Done? ==> Computes(E, a.st, d, td, b))
    ensures Computes(E, st, BinCode(op, c, tc, d, td), if Comparison(op) then Int else Common(tc, td),
                     BinOutcome(op, tc, a, td, b))
  {
    hide Gives, AlwaysTraps, WordOp, CastWord, CastCode, Converted, Common, Size, OpOutcome;
    var tz := Common(tc, td);
    var i := One(Op(op, !Unsigned(tz), Wide(tz)));
    var cc, dd := Converted(c, tz, tc), Converted(d, tz, td);
    ConvertedComputes(E, st, c, tz, tc, a);
    if a.Traps? {
      CatTraps(E, st, cc, Cat(dd, i));
    } else {
      ConvertedComputes(E, a.st, d, tz, td, b);
      var v := CastWord(tz, tc, a.bits);
      if b.Traps? {
        SecondTraps(E, st, cc, dd, i, tz, v, a.st);
      } else {
        BinIsOp(op, tc, a, td, b);
        OpGives(E, st, cc, dd, op, tz, v, a.st, CastWord(tz, td, b.bits), b.st);
      }
    }
  }

  lemma BinIsOp(op: BinOp, tc: TS, a: Outcome, td: TS, b: Outcome)
    requires a.Done? && b.Done?
    ensures var tz := Common(tc, td);
            BinOutcome(op, tc, a, td, b) == OpOutcome(op, tz, CastWord(tz, tc, a.bits), CastWord(tz, td, b.bits), b.st)
  {
    hide WordOp, CastWord, Common;
  }

  lemma ConstGives(E: Env, st: State, ts: TS, v: int)
    ensures Computes(E, st, One(Const(Literal(ts, v))), ts, Done(v % Size(ts), st))
  {}

  lemma GetGives(E: Env, st: State, x: Var)
    ensures Computes(E, st, One(Get(x)), x.ts, Done(VarWord(st, x), st))
  {
    var w := VarWord(st, x);
    WordRange(st, x);
    forall s
      ensures Run(E, One(Get(x)), st, s) == Stack(s + [WVal(Wide(x.ts), w)], st)
    {
      OneRun(E, st, Get(x), s);
      hide Run, VarWord;
    }
    hide Run, VarWord, Size;
  }

  lemma InvokeGives(E: Env, ord: Order, st: State, ts: TS, id: nat)
    ensures Computes(E, st, One(Invoke(ts, id)), ts, Value(E, ord, st, Other(ts, id)))
  {
    var r := Value(E, ord, st, Other(ts, id));
    forall s
      ensures Run(E, One(Invoke(ts, id)), st, s) == if r.Traps? then Trap else Stack(s + [WVal(Wide(ts), r.bits)], r.st)
    {
      OneRun(E, st, Invoke(ts, id), s);
      hide Run;
    }
    ValueRange(E, ord, st, Other(ts, id));
    hide Value;
  }

  lemma EqzGives(E: Env, st: State, c: Code, ts: TS, w: nat, st1: State)
    requires Gives(E, st, c, ts, w, st1)
    ensures Computes(E, st, Cat(c, One(Eqz(Wide(ts)))), Int, Done(if w == 0 then 1 else 0, st1))
  {
    forall s
      ensures Run(E, Cat(c, One(Eqz(Wide(ts)))), st, s) == Stack(s + [WVal(false, if w == 0 then 1 else 0)], st1)
    {
      EqzRun(E, st1, Wide(ts), s, w);
      CatGives(E, st, c, One(Eqz(Wide(ts))), ts, w, st1, s);
      hide Run;
    }
  }

  lemma CatEmptyGives(E: Env, st: State, c: Code, ts: TS, w: nat, st1: State)
    requires Gives(E, st, c, ts, w, st1)
    ensures Gives(E, st, Cat(c, Empty), ts, w, st1)
  {}

  lemma UnComputes(E: Env, st: State, op: UnOp, c: Code, tc: TS, a: Outcome)
    requires Computes(E, st, c, tc, a)
    ensures Computes(E, st, UnCode(op, c, tc), if op == UNot then Int else Promote(tc),
                     if a.Traps? then Traps else Done(UnWord(op, tc, a.bits), a.st))
  {
    hide Gives, AlwaysTraps, WordOp, CastWord, CastCode, Converted, Literal, Size, Promote;
    var tz := Promote(tc);
    var d := Converted(c, tz, tc);
    ConvertedComputes(E, st, c, tz, tc, a);
    ConstGives(E, st, tz, 0);
    ConstGives(E, st, tz, -1);
    if a.Traps? {
      UnTraps(E, st, op, d, tz);
    } else {
      var w := CastWord(tz, tc, a.bits);
      match op
      case UPlus => CatEmptyGives(E, st, d, tz, w, a.st);
      case UNot => EqzGives(E, st, d, tz, w, a.st);
      case UMinus =>
        UnaryWords(tz);
        OpGives(E, st, One(Const(Literal(tz, 0))), d, Minus, tz, 0, st, w, a.st);
        MinusXorNeverTrap(Minus, tz, 0, w);
      case UTilde =>
        UnaryWords(tz);
        OpGives(E, st, One(Const(Literal(tz, -1))), d, Xor, tz, Size(tz) - 1, st, w, a.st);
        MinusXorNeverTrap(Xor, tz, Size(tz) - 1, w);
    }
  }

  lemma UnaryWords(tz: TS)
    ensures 0 % Size(tz) == 0 && -1 % Size(tz) == Size(tz) - 1
  {}

  lemma MinusXorNeverTrap(op: BinOp, tz: TS, a: nat, b: nat)
    requires op == Minus || op == Xor || op == Plus
    ensures WordOp(op, !Unsigned(tz), Wide(tz), a, b).0
  {
    hide Bits, SignedWord;
  }

  lemma UnTraps(E: Env, st: State, op: UnOp, d: Code, tz: TS)
    requires AlwaysTraps(E, st, d)
    ensures AlwaysTraps(E, st, Cat(d, Empty)) && AlwaysTraps(E, st, Cat(d, One(Eqz(Wide(tz)))))
    ensures AlwaysTraps(E, st, Cat(One(Const(Literal(tz, 0))), Cat(d, One(Op(Minus, !Unsigned(tz), Wide(tz))))))
    ensures AlwaysTraps(E, st, Cat(One(Const(Literal(tz, -1))), Cat(d, One(Op(Xor, !Unsigned(tz), Wide(tz))))))
  {
    hide AlwaysTraps, Gives, Literal;
    CatTraps(E, st, d, Empty);
    CatTraps(E, st, d, One(Eqz(Wide(tz))));
    ConstGives(E, st, tz, 0);
    ConstGives(E, st, tz, -1);
    SecondTraps(E, st, One(Const(Literal(tz, 0))), d, One(Op(Minus, !Unsigned(tz), Wide(tz))), tz, 0 % Size(tz), st);
    SecondTraps(E, st, One(Const(Literal(tz, -1))), d, One(Op(Xor, !Unsigned(tz), Wide(tz))), tz, -1 % Size(tz), st);
  }

  lemma SetRun(E: Env, st: State, x: Var, s: seq<WVal>, w: nat)
    ensures Run(E, One(Set(x)), st, s + [WVal(Wide(x.ts), w)]) == Stack(s, With(st, x, w))
    ensures Run(E, One(Tee(x)), st, s + [WVal(Wide(x.ts), w)]) == Stack(s + [WVal(Wide(x.ts), w)], With(st, x, w))
  {
    Tops(s, WVal(Wide(x.ts), w));
  }

  /** A global fetched again is the word just stored. */
  lemma FetchRun(E: Env, st: State, x: Var, s: seq<WVal>, w: nat)
    requires w < Size(x.ts)
    ensures Run(E, Cat(One(Set(x)), One(Get(x))), st, s + [WVal(Wide(x.ts), w)])
            == Stack(s + [WVal(Wide(x.ts), w)], With(st, x, w))
  {
    SetRun(E, st, x, s, w);
    OneRun(E, With(st, x, w), Get(x), s);
    assert VarWord(With(st, x, w), x) == w;
    CatRun(E, st, One(Set(x)), One(Get(x)), s + [WVal(Wide(x.ts), w)], s, With(st, x, w));
    hide Run;
  }

  function AssignOutcome(x: Var, a: Outcome): Outcome {
    if a.Traps? then Traps else Done(a.bits, With(a.st, x, a.bits))
  }

  /** Both forms of an assignment store the converted value and leave it on the stack. */
  lemma AssignComputes(E: Env, st: State, x: Var, c: Code, tc: TS, a: Outcome)
    requires Computes(E, st, c, tc, a)
    ensures Computes(E, st, AssignCode(x, c, tc), x.ts, AssignOutcome(x, Casted(x.ts, tc, a)))
  {
    var d, v := Converted(c, x.ts, tc), Casted(x.ts, tc, a);
    ConvertedComputes(E, st, c, x.ts, tc, a);
    hide Converted, CastCode, CastWord, Casted, With;
    var rest := if x.global then Cat(One(Set(x)), One(Get(x))) else One(Tee(x));
    if v.Traps? {
      CatTraps(E, st, d, rest);
    } else {
      forall s
        ensures Run(E, Cat(d, rest), st, s) == Stack(s + [WVal(Wide(x.ts), v.bits)], With(v.st, x, v.bits))
      {
        CatGives(E, st, d, rest, x.ts, v.bits, v.st, s);
        SetRun(E, v.st, x, s, v.bits);
        FetchRun(E, v.st, x, s, v.bits);
        hide Run;
      }
    }
  }

  /** The old value stays on the stack below the new one, which is stored. */
  lemma PostComputes(E: Env, st: State, x: Var, up: bool)
    ensures Computes(E, st, PostCode(x, up), x.ts, Done(VarWord(st, x), With(st, x, Stepped(x.ts, up, VarWord(st, x)))))
  {
    var op, w, tz := if up then Plus else Minus, VarWord(st, x), Common(x.ts, Int);
    var one, get := One(Const(Literal(Int, 1))), One(Get(x));
    var sum := BinCode(op, get, x.ts, one, Int);
    var next, later := Converted(sum, x.ts, tz), Stepped(x.ts, up, w);
    SumComputes(E, st, x, up);
    hide BinCode, Converted, Stepped, With, VarWord, Common;
    forall s
      ensures Run(E, PostCode(x, up), st, s) == Stack(s + [WVal(Wide(x.ts), w)], With(st, x, later))
    {
      GetGives(E, st, x);
      CatGives(E, st, get, Cat(next, One(Set(x))), x.ts, w, st, s);
      CatGives(E, st, next, One(Set(x)), x.ts, later, st, s + [WVal(Wide(x.ts), w)]);
      SetRun(E, st, x, s + [WVal(Wide(x.ts), w)], later);
      hide Run, Gives;
    }
    WordRange(st, x);
  }

  lemma SumComputes(E: Env, st: State, x: Var, up: bool)
    ensures var op := if up then Plus else Minus;
            var sum := BinCode(op, One(Get(x)), x.ts, One(Const(Literal(Int, 1))), Int);
            Gives(E, st, Converted(sum, x.ts, Common(x.ts, Int)), x.ts, Stepped(x.ts, up, VarWord(st, x)), st)
  {
    hide Gives, AlwaysTraps, CastWord, CastCode, WordOp, BinCode, Converted, VarWord, Common;
    var op, w, tz := if up then Plus else Minus, VarWord(st, x), Common(x.ts, Int);
    var sum := BinCode(op, One(Get(x)), x.ts, One(Const(Literal(Int, 1))), Int);
    GetGives(E, st, x);
    ConstGives(E, st, Int, 1);
    BinComputes(E, st, op, One(Get(x)), x.ts, Done(w, st), One(Const(Literal(Int, 1))), Int, Done(1, st));
    MinusXorNeverTrap(op, tz, CastWord(tz, x.ts, w), CastWord(tz, Int, 1));
    ConvertedComputes(E, st, sum, x.ts, tz, Done(BinWord(op, x.ts, w, Int, 1).1, st));
  }

  predicate Test32(tc: TS) { tc == Int || tc == UInt || tc == Long || tc == ULong }

  /** A condition leaves an i32 that is zero exactly when the condition is false. */
  lemma TestGives(E: Env, st: State, c: Code, tc: TS, w: nat, st1: State) returns (t: nat)
    requires Gives(E, st, c, tc, w, st1) && w < Size(tc)
    ensures Gives(E, st, TestCode(c, tc), Int, t, st1) && (t != 0 <==> TestWord(tc, w))
  {
    if Test32(tc) {
      t := w;
    } else {
      hide Gives, CastWord, CastCode, WordOp, BinCode, AlwaysTraps, Common, BinWord;
      ConstGives(E, st1, ULong, 0);
      BinComputes(E, st, Ne, c, tc, Done(w, st1), One(Const(Literal(ULong, 0))), ULong, Done(0, st1));
      TestIsNe(tc, w);
      t := BinWord(Ne, tc, w, ULong, 0).1;
    }
  }

  lemma TestIsNe(tc: TS, w: nat)
    requires w < Size(tc) && !Test32(tc)
    ensures var (ok, r) := BinWord(Ne, tc, w, ULong, 0); ok && (r != 0 <==> TestWord(tc, w))
  {
    hide CastWord, WordOp, Common;
    var tz := Common(tc, ULong);
    CastWordRange(tz, tc, w);
    ZeroCast(tz);
    NeWord(tz, CastWord(tz, tc, w));
  }

  lemma ZeroCast(tz: TS)
    requires Promoted(tz)
    ensures CastWord(tz, ULong, 0) == 0
  {}

  lemma NeWord(tz: TS, w: nat)
    requires w < Size(tz)
    ensures WordOp(Ne, !Unsigned(tz), Wide(tz), w, 0) == (true, Truth(w != 0))
  {}

  lemma TestTraps(E: Env, st: State, c: Code, tc: TS)
    requires AlwaysTraps(E, st, c)
    ensures AlwaysTraps(E, st, TestCode(c, tc))
  {
    hide AlwaysTraps, Gives;
    if !Test32(tc) {
      BinComputes(E, st, Ne, c, tc, Traps, One(Const(Literal(ULong, 0))), ULong, Traps);
    }
  }

  /** `select` leaves one of two words read before the condition. */
  lemma SelectGives(E: Env, st: State, x: Code, y: Code, c: Code, ts: TS, a: nat, b: nat, t: nat, st1: State)
    requires Gives(E, st, x, ts, a, st) && Gives(E, st, y, ts, b, st) && Gives(E, st, c, Int, t, st1)
    ensures Gives(E, st, Cat(x, Cat(y, Cat(c, One(Select)))), ts, if t != 0 then a else b, st1)
  {
    var code := Cat(x, Cat(y, Cat(c, One(Select))));
    forall s
      ensures Run(E, code, st, s) == Stack(s + [WVal(Wide(ts), if t != 0 then a else b)], st1)
    {
      var s1 := s + [WVal(Wide(ts), a)];
      var s2 := s1 + [WVal(Wide(ts), b)];
      CatGives(E, st, x, Cat(y, Cat(c, One(Select))), ts, a, st, s);
      CatGives(E, st, y, Cat(c, One(Select)), ts, b, st, s1);
      CatGives(E, st, c, One(Select), Int, t, st1, s2);
      SelectRun(E, st1, ts, s, a, b, t);
      hide Run, Gives;
    }
  }

  lemma SelectRun(E: Env, st: State, ts: TS, s: seq<WVal>, a: nat, b: nat, t: nat)
    ensures Run(E, One(Select), st, s + [WVal(Wide(ts), a)] + [WVal(Wide(ts), b)] + [WVal(false, t)])
            == Stack(s + [WVal(Wide(ts), if t != 0 then a else b)], st)
  {
    var s3 := s + [WVal(Wide(ts), a)] + [WVal(Wide(ts), b)] + [WVal(false, t)];
    assert s3[..|s3| - 3] == s;
    OneRun(E, st, Select, s3);
    hide Run;
  }

  lemma IfElseComputes(E: Env, st: State, c: Code, t: nat, st1: State, x: Code, y: Code, ts: TS, r: Outcome)
    requires Gives(E, st, c, Int, t, st1) && Computes(E, st1, if t != 0 then x else y, ts, r)
    ensures Computes(E, st, Cat(c, One(IfElse(x, y))), ts, r)
  {
    hide Run, Computes, Gives;
    var code := Cat(c, One(IfElse(x, y)));
    var z := if t != 0 then x else y;
    forall s
      ensures Run(E, code, st, s) == Run(E, z, st1, s)
    {
      CatGives(E, st, c, One(IfElse(x, y)), Int, t, st1, s);
      IfElseRun(E, st1, x, y, s, t);
    }
    SameRunComputes(E, st, code, st1, z, ts, r);
  }

  lemma IfElseRun(E: Env, st: State, x: Code, y: Code, s: seq<WVal>, t: nat)
    ensures Run(E, One(IfElse(x, y)), st, s + [WVal(false, t)]) == Run(E, if t != 0 then x else y, st, s)
  {
    OneRun(E, st, IfElse(x, y), s + [WVal(false, t)]);
    Tops(s, WVal(false, t));
    hide Run;
  }

  lemma ThirdTraps(E: Env, st: State, x: Code, y: Code, c: Code, rest: Code, ts: TS, a: nat, b: nat)
    requires Gives(E, st, x, ts, a, st) && Gives(E, st, y, ts, b, st) && AlwaysTraps(E, st, c)
    ensures AlwaysTraps(E, st, Cat(x, Cat(y, Cat(c, rest))))
  {
    hide AlwaysTraps, Gives;
    CatTraps(E, st, c, rest);
    SecondTraps(E, st, y, Cat(c, rest), Empty, ts, b, st);
    forall s
      ensures Run(E, Cat(x, Cat(y, Cat(c, rest))), st, s) == Trap
    {
      CatGives(E, st, x, Cat(y, Cat(c, rest)), ts, a, st, s);
      CatGives(E, st, y, Cat(c, rest), ts, b, st, s + [WVal(Wide(ts), a)]);
      TrapsAt(E, st, Cat(c, rest), s + [WVal(Wide(ts), a)] + [WVal(Wide(ts), b)]);
      hide Run;
    }
    TrapsIntro(E, st, Cat(x, Cat(y, Cat(c, rest))));
  }

  lemma TrapsAt(E: Env, st: State, c: Code, s: seq<WVal>)
    requires AlwaysTraps(E, st, c)
    ensures Run(E, c, st, s) == Trap
  {}

  lemma TrapsIntro(E: Env, st: State, c: Code)
    requires forall s {:trigger Run(E, c, st, s)} :: Run(E, c, st, s) == Trap
    ensures AlwaysTraps(E, st, c)
  {}

  /** `if` runs the chosen branch in the state that the condition leaves. */
  lemma BranchComputes(E: Env, st: State, c: Code, tc: TS, a: Outcome, x: Code, tx: TS, y: Code, ty: TS, u: Outcome)
    requires Computes(E, st, c, tc, a)
    requires a.Done? ==> if TestWord(tc, a.bits) then Computes(E, a.st, x, tx, u) else Computes(E, a.st, y, ty, u)
    ensures var tz := Common(tx, ty);
            Computes(E, st, Cat(TestCode(c, tc), One(IfElse(Converted(x, tz, tx), Converted(y, tz, ty)))), tz,
                     if a.Traps? then Traps else Casted(tz, if TestWord(tc, a.bits) then tx else ty, u))
  {
    hide Gives, AlwaysTraps, CastWord, CastCode, TestCode, TestWord, Converted, Casted, Common;
    var tz := Common(tx, ty);
    var cx, cy := Converted(x, tz, tx), Converted(y, tz, ty);
    if a.Traps? {
      TestTraps(E, st, c, tc);
      CatTraps(E, st, TestCode(c, tc), One(IfElse(cx, cy)));
    } else {
      var t := TestGives(E, st, c, tc, a.bits, a.st);
      if t != 0 { ConvertedComputes(E, a.st, x, tz, tx, u); } else { ConvertedComputes(E, a.st, y, tz, ty, u); }
      IfElseComputes(E, st, TestCode(c, tc), t, a.st, cx, cy, tz, Casted(tz, if t != 0 then tx else ty, u));
    }
  }

  /** `select` reads both branches in the state before the condition. */
  lemma SelectComputes(E: Env, st: State, c: Code, tc: TS, a: Outcome, x: Code, tx: TS, u: nat, y: Code, ty: TS, v: nat)
    requires Computes(E, st, c, tc, a)
    requires Computes(E, st, x, tx, Done(u, st)) && Computes(E, st, y, ty, Done(v, st))
    ensures var tz := Common(tx, ty);
            Computes(E, st, Cat(Converted(x, tz, tx), Cat(Converted(y, tz, ty), Cat(TestCode(c, tc), One(Select)))), tz,
                     if a.Traps? then Traps
                     else if TestWord(tc, a.bits) then Casted(tz, tx, Done(u, a.st)) else Casted(tz, ty, Done(v, a.st)))
  {
    hide Gives, AlwaysTraps, CastWord, CastCode, TestCode, TestWord, Converted, Common;
    var tz := Common(tx, ty);
    var cx, cy := Converted(x, tz, tx), Converted(y, tz, ty);
    ConvertedComputes(E, st, x, tz, tx, Done(u, st));
    ConvertedComputes(E, st, y, tz, ty, Done(v, st));
    if a.Traps? {
      TestTraps(E, st, c, tc);
      ThirdTraps(E, st, cx, cy, TestCode(c, tc), One(Select), tz, CastWord(tz, tx, u), CastWord(tz, ty, v));
    } else {
      var t := TestGives(E, st, c, tc, a.bits, a.st);
      SelectGives(E, st, cx, cy, TestCode(c, tc), tz, CastWord(tz, tx, u), CastWord(tz, ty, v), t, a.st);
    }
  }

  /** The branches that `select` is used for. */
  lemma SimpleIff(e: Exp)
    ensures SimpleCode(Compile(e)) <==> Simple(e)
  {
    match e
    case Lit(_, _) =>
    case Read(_) =>
    case Assign(_, _) =>
    case Post(_, _) =>
    case Other(_, _) =>
    case Un(_, _) =>
    case Bin(_, _, _) =>
    case Cast(_, _) =>
    case Cond(_, _, _) =>
    case Logical(_, _, _) =>
  }

  lemma SimpleComputes(E: Env, ord: Order, st: State, e: Exp)
    requires Simple(e)
    ensures Computes(E, st, Compile(e), TypeOf(e), Done(SimpleWord(st, e), st))
    ensures Value(E, ord, st, e) == Done(SimpleWord(st, e), st)
  {
    hide Gives, Literal, VarWord;
    if e.Lit? { ConstGives(E, st, e.ts, e.v); } else { GetGives(E, st, e.x); }
  }

  /** The generated code leaves the value of the expression in the compiled order, and its effects, on any stack. */
  lemma {:induction false} CompileComputes(E: Env, st: State, e: Exp)
    ensures Computes(E, st, Compile(e), TypeOf(e), Value(E, AsCompiled, st, e))
    decreases e, 0
  {
    hide Gives, AlwaysTraps, CastWord, CastCode, UnWord, BinWord, UnCode, BinCode, CondCode, TestWord, AssignCode, PostCode,
         Computes, Stepped, VarWord, With, Literal, Size, Common, Promote;
    match e
    case Lit(ts, v) => ConstGives(E, st, ts, v);
    case Read(x) => GetGives(E, st, x);
    case Assign(x, y) =>
      CompileComputes(E, st, y);
      AssignComputes(E, st, x, Compile(y), TypeOf(y), Value(E, AsCompiled, st, y));
    case Post(x, up) => PostComputes(E, st, x, up);
    case Other(ts, id) => InvokeGives(E, AsCompiled, st, ts, id);
    case Un(op, x) =>
      CompileComputes(E, st, x);
      UnComputes(E, st, op, Compile(x), TypeOf(x), Value(E, AsCompiled, st, x));
    case Bin(op, x, y) =>
      CompileComputes(E, st, x);
      var a := Value(E, AsCompiled, st, x);
      var b := if a.Done? then Value(E, AsCompiled, a.st, y) else Traps;
      if a.Done? { CompileComputes(E, a.st, y); }
      BinComputes(E, st, op, Compile(x), TypeOf(x), a, Compile(y), TypeOf(y), b);
    case Cast(to, x) =>
      CompileComputes(E, st, x);
      CastGives(E, st, Compile(x), to, TypeOf(x), Value(E, AsCompiled, st, x));
    case Cond(c, x, y) =>
      CompileComputes(E, st, c);
      var a := Value(E, AsCompiled, st, c);
      if a.Done? { CompileComputes(E, a.st, Chosen(c, a, x, y)); }
      CompileCond(E, st, c, x, y);
    case Logical(and, x, y) =>
      CompileComputes(E, st, x);
      var a, r := Value(E, AsCompiled, st, x), AsCond(and, x, y);
      if a.Done? {
        CompileComputes(E, a.st, y);
        ConstGives(E, a.st, Int, if and then 0 else 1);
      }
      CompileCond(E, st, r.c, r.t, r.f);
      LogicalIsCond(E, AsCompiled, st, and, x, y);
  }

  function Chosen(c: Exp, a: Outcome, x: Exp, y: Exp): Exp {
    if a.Done? && TestWord(TypeOf(c), a.bits) then x else y
  }

  lemma CompileCond(E: Env, st: State, c: Exp, x: Exp, y: Exp)
    requires Computes(E, st, Compile(c), TypeOf(c), Value(E, AsCompiled, st, c))
    requires var a := Value(E, AsCompiled, st, c); var z := Chosen(c, a, x, y);
             a.Done? ==> Computes(E, a.st, Compile(z), TypeOf(z), Value(E, AsCompiled, a.st, z))
    ensures Computes(E, st, Compile(Cond(c, x, y)), TypeOf(Cond(c, x, y)), Value(E, AsCompiled, st, Cond(c, x, y)))
  {
    hide Gives, AlwaysTraps, CastWord, TestWord, Computes, VarWord, Common, SimpleCode, Simple, SimpleWord, TestCode, Converted, Casted;
    var a := Value(E, AsCompiled, st, c);
    SimpleIff(x);
    SimpleIff(y);
    if Simple(x) && Simple(y) {
      SimpleComputes(E, AsCompiled, st, x);
      SimpleComputes(E, AsCompiled, st, y);
      SelectComputes(E, st, Compile(c), TypeOf(c), a, Compile(x), TypeOf(x), SimpleWord(st, x),
                     Compile(y), TypeOf(y), SimpleWord(st, y));
    } else {
      var u := if a.Done? then Value(E, AsCompiled, a.st, Chosen(c, a, x, y)) else Traps;
      BranchComputes(E, st, Compile(c), TypeOf(c), a, Compile(x), TypeOf(x), Compile(y), TypeOf(y), u);
    }
  }

  // ---------- the order of evaluation ----------

  /** The condition leaves the branch it chooses as it was, read in the common type. */
  ghost predicate Kept(E: Env, st: State, c: Exp, x: Exp, y: Exp) {
    var a, tz := Value(E, InOrder, st, c), Common(TypeOf(x), TypeOf(y));
    var z := Chosen(c, a, x, y);
    a.Done? ==> CastWord(tz, TypeOf(z), SimpleWord(a.st, z)) == CastWord(tz, TypeOf(z), SimpleWord(st, z))
  }

  /** Every conditional evaluated that is compiled to `select` has a condition that leaves the chosen branch as it was. */
  ghost predicate Safe(E: Env, st: State, e: Exp)
    decreases e
  {
    hide Value, TestWord, SafeCond, AsCond;
    match e
    case Lit(_, _) => true
    case Read(_) => true
    case Assign(_, x) => Safe(E, st, x)
    case Post(_, _) => true
    case Other(_, _) => true
    case Un(_, x) => Safe(E, st, x)
    case Bin(_, x, y) =>
      var a := Value(E, InOrder, st, x);
      Safe(E, st, x) && (a.Done? ==> Safe(E, a.st, y))
    case Cast(_, x) => Safe(E, st, x)
    case Cond(c, x, y) => SafeCond(E, st, c, x, y) && Safe(E, st, c)
                          && var a := Value(E, InOrder, st, c);
                             a.Done? ==> if TestWord(TypeOf(c), a.bits) then Safe(E, a.st, x) else Safe(E, a.st, y)
    case Logical(and, x, y) =>
      var a := Value(E, InOrder, st, x);
      Safe(E, st, x) && SafeLogical(E, st, and, x, y)
      && (a.Done? && TestWord(TypeOf(x), a.bits) == and ==> Safe(E, a.st, y))
  }

  ghost predicate SafeLogical(E: Env, st: State, and: bool, x: Exp, y: Exp) {
    if and then SafeCond(E, st, x, y, Lit(Int, 0)) else SafeCond(E, st, x, Lit(Int, 1), y)
  }

  /** Compiled to `if`, or the condition leaves the chosen branch as it was. */
  ghost predicate SafeCond(E: Env, st: State, c: Exp, x: Exp, y: Exp) {
    SimpleCode(Compile(x)) && SimpleCode(Compile(y)) ==> Kept(E, st, c, x, y)
  }

  /** The two orders agree on a conditional exactly when it is safe. */
  lemma CondOrder(E: Env, st: State, c: Exp, x: Exp, y: Exp)
    requires Value(E, AsCompiled, st, c) == Value(E, InOrder, st, c)
    requires var a := Value(E, InOrder, st, c); var z := Chosen(c, a, x, y);
             a.Done? ==> Value(E, AsCompiled, a.st, z) == Value(E, InOrder, a.st, z)
    ensures Value(E, AsCompiled, st, Cond(c, x, y)) == Value(E, InOrder, st, Cond(c, x, y)) <==> SafeCond(E, st, c, x, y)
  {
    hide CastWord, TestWord, VarWord, Common, SimpleCode, Simple, SimpleWord, Compile;
    var a := Value(E, InOrder, st, c);
    var z := Chosen(c, a, x, y);
    SimpleIff(x);
    SimpleIff(y);
    if a.Done? && Simple(x) && Simple(y) { SimpleComputes(E, InOrder, a.st, z); }
  }

  /** Where every `select` is safe the compiled order gives what C's order gives. */
  lemma {:induction false} SafeOrder(E: Env, st: State, e: Exp)
    requires Safe(E, st, e)
    ensures Value(E, AsCompiled, st, e) == Value(E, InOrder, st, e)
    decreases e
  {
    hide CastWord, TestWord, VarWord, Common, UnWord, BinWord, Casted, SafeCond, Stepped, With, Simple, SimpleWord, Size, Promote;
    match e
    case Lit(_, _) =>
    case Read(_) =>
    case Assign(_, x) => SafeOrder(E, st, x);
    case Post(_, _) =>
    case Other(_, _) =>
    case Un(_, x) => SafeOrder(E, st, x);
    case Bin(_, x, y) =>
      SafeOrder(E, st, x);
      var a := Value(E, InOrder, st, x);
      if a.Done? { SafeOrder(E, a.st, y); }
    case Cast(_, x) => SafeOrder(E, st, x);
    case Cond(c, x, y) =>
      SafeOrder(E, st, c);
      var a := Value(E, InOrder, st, c);
      if a.Done? { SafeOrder(E, a.st, Chosen(c, a, x, y)); }
      CondOrder(E, st, c, x, y);
    case Logical(and, x, y) =>
      SafeOrder(E, st, x);
      var a, r := Value(E, InOrder, st, x), AsCond(and, x, y);
      if a.Done? && TestWord(TypeOf(x), a.bits) == and { SafeOrder(E, a.st, y); }
      CondOrder(E, st, r.c, r.t, r.f);
      LogicalIsCond(E, InOrder, st, and, x, y);
      LogicalIsCond(E, AsCompiled, st, and, x, y);
  }

  /** Code has one outcome. */
  lemma ComputesOnce(E: Env, st: State, c: Code, ts: TS, r: Outcome, q: Outcome)
    requires Computes(E, st, c, ts, r) && Computes(E, st, c, ts, q)
    ensures r == q
  {
    SameOutcome(E, st, c, c, ts, r, q, []);
  }

  lemma SameOutcome(E: Env, st: State, c: Code, d: Code, ts: TS, r: Outcome, q: Outcome, s: seq<WVal>)
    requires Computes(E, st, c, ts, r) && Computes(E, st, d, ts, q)
    ensures Run(E, c, st, s) == Run(E, d, st, s) <==> r == q
  {
    if r.Done? && q.Done? && Run(E, c, st, s) == Run(E, d, st, s) {
      Tops(s, WVal(Wide(ts), r.bits));
      Tops(s, WVal(Wide(ts), q.bits));
    }
    hide Run;
  }

  /** Where every `select` evaluated is safe, the code leaves C's value and C's effects. */
  lemma CompileInOrder(E: Env, st: State, e: Exp)
    requires Safe(E, st, e)
    ensures Computes(E, st, Compile(e), TypeOf(e), Value(E, InOrder, st, e))
  {
    hide Computes, Compile, Value, Safe;
    CompileComputes(E, st, e);
    SafeOrder(E, st, e);
  }

  /** The code of a conditional leaves C's value and effects exactly when it is not a `select`,
      or its condition leaves the chosen branch as it was. */
  lemma CondExact(E: Env, st: State, c: Exp, x: Exp, y: Exp)
    requires Safe(E, st, c)
    requires var a := Value(E, InOrder, st, c); a.Done? ==> Safe(E, a.st, Chosen(c, a, x, y))
    ensures var e := Cond(c, x, y);
            Computes(E, st, Compile(e), TypeOf(e), Value(E, InOrder, st, e)) <==> SafeCond(E, st, c, x, y)
  {
    hide Computes, Compile, Value, Safe, SafeCond, TypeOf;
    var a, e := Value(E, InOrder, st, c), Cond(c, x, y);
    SafeOrder(E, st, c);
    if a.Done? { SafeOrder(E, a.st, Chosen(c, a, x, y)); }
    CondOrder(E, st, c, x, y);
    CompileComputes(E, st, e);
    if Computes(E, st, Compile(e), TypeOf(e), Value(E, InOrder, st, e)) {
      ComputesOnce(E, st, Compile(e), TypeOf(e), Value(E, InOrder, st, e), Value(E, AsCompiled, st, e));
    }
  }

  /** Likewise for `&&` and `||`: their second operand, when it is simple and decides, must be as it was before the first. */
  lemma LogicalExact(E: Env, st: State, and: bool, x: Exp, y: Exp)
    requires Safe(E, st, x)
    requires var a := Value(E, InOrder, st, x); a.Done? && TestWord(TypeOf(x), a.bits) == and ==> Safe(E, a.st, y)
    ensures var e, a, tz := Logical(and, x, y), Value(E, InOrder, st, x), LogicalType(and, TypeOf(y));
            Computes(E, st, Compile(e), TypeOf(e), Value(E, InOrder, st, e)) <==>
            (SimpleCode(Compile(y)) && a.Done? && TestWord(TypeOf(x), a.bits) == and ==>
               CastWord(tz, TypeOf(y), SimpleWord(a.st, y)) == CastWord(tz, TypeOf(y), SimpleWord(st, y)))
  {
    hide Computes, Value, CastWord, TestWord, Common, CondCode;
    var r := AsCond(and, x, y);
    LogicalIsCond(E, InOrder, st, and, x, y);
    CondExact(E, st, r.c, r.t, r.f);
    SimpleIff(y);
  }

  // ---------- && and || ----------

  /** The result of `&&` and `||` is true exactly when C's is, the second operand is evaluated only where it decides,
      and the result is C's 0 or 1 exactly when the operand that decides is. */
  lemma LogicalMeans(E: Env, st: State, and: bool, x: Exp, y: Exp)
    requires Value(E, InOrder, st, x).Done?
    ensures var e, a := Logical(and, x, y), Value(E, InOrder, st, x);
            var r, b := Value(E, InOrder, st, e), Value(E, InOrder, a.st, y);
            if TestWord(TypeOf(x), a.bits) != and then r.Done? && r.st == a.st && r.bits == if and then 0 else 1
            else (r.Done? <==> b.Done?)
                 && (b.Done? ==> r.st == b.st
                                 && (TestWord(TypeOf(e), r.bits) <==> TestWord(TypeOf(y), b.bits))
                                 && r.bits == CastWord(TypeOf(e), TypeOf(y), b.bits)
                                 && (r.bits <= 1 <==> r.bits == if TestWord(TypeOf(y), b.bits) then 1 else 0))
  {
    hide CastWord, TestWord, LogicalType, Size, Value, TypeOf;
    var a := Value(E, InOrder, st, x);
    var b := Value(E, InOrder, a.st, y);
    LogicalTyped(and, x, y);
    LogicalValue(E, st, and, x, y);
    LogicalNumbers(and, TypeOf(y));
    if b.Done? {
      ValueRange(E, InOrder, a.st, y);
      LogicalTruth(and, TypeOf(y), b.bits);
      TestNumbers(LogicalType(and, TypeOf(y)));
    }
  }

  lemma LogicalValue(E: Env, st: State, and: bool, x: Exp, y: Exp)
    requires Value(E, InOrder, st, x).Done?
    ensures var a, tz := Value(E, InOrder, st, x), LogicalType(and, TypeOf(y));
            Value(E, InOrder, st, Logical(and, x, y)) ==
            if TestWord(TypeOf(x), a.bits) != and then Done(CastWord(tz, Int, if and then 0 else 1), a.st)
            else Casted(tz, TypeOf(y), Value(E, InOrder, a.st, y))
  {
    hide CastWord, TestWord, LogicalType, Casted, Simple, SimpleWord, Size, VarWord, With, Stepped, UnWord, BinWord, Common, TypeOf;
  }

  lemma TestNumbers(ts: TS)
    requires Promoted(ts)
    ensures !TestWord(ts, 0) && TestWord(ts, 1)
  {
    SameWord(ts, 0);
    SameWord(ts, 1);
    TestPromoted(ts);
    hide CastWord, TestWord;
  }

  lemma TestPromoted(ts: TS)
    requires Promoted(ts)
    ensures TestWord(ts, 0) == (CastWord(ts, ts, 0) != 0) && TestWord(ts, 1) == (CastWord(ts, ts, 1) != 0)
  {}

  lemma LogicalTyped(and: bool, x: Exp, y: Exp)
    ensures TypeOf(Logical(and, x, y)) == LogicalType(and, TypeOf(y)) && Promoted(LogicalType(and, TypeOf(y)))
  {}

  lemma LogicalNumbers(and: bool, ty: TS)
    ensures CastWord(LogicalType(and, ty), Int, if and then 0 else 1) == if and then 0 else 1
  {
    IntNumber(LogicalType(and, ty), if and then 0 else 1);
    hide CastWord;
  }

  lemma IntNumber(tz: TS, n: nat)
    requires Promoted(tz) && n < 2
    ensures CastWord(tz, Int, n) == n
  {
    if Wide(tz) { IntWidens(tz, n); }
    hide Sext, And8, WidenWord;
  }

  lemma IntWidens(tz: TS, n: nat)
    requires n < 2
    ensures WidenWord(Int, n) == n
  {
    assert SignedWord(M32, n) == n;
    hide Sext, SignedWord;
  }

  lemma LogicalTruth(and: bool, ty: TS, w: nat)
    requires w < Size(ty)
    ensures var tz := LogicalType(and, ty); TestWord(tz, CastWord(tz, ty, w)) <==> TestWord(ty, w)
  {
    hide Sext, And8, WidenWord;
    match ty {
      case Bool => assert LogicalType(and, ty) == Int;
      case Char => assert LogicalType(and, ty) == Int;
      case UChar => assert LogicalType(and, ty) == Int;
      case Short => assert LogicalType(and, ty) == Int;
      case UShort => assert LogicalType(and, ty) == Int;
      case _ => PromotedTruth(and, ty, w);
    }
  }

  lemma PromotedTruth(and: bool, ty: TS, w: nat)
    requires Promoted(ty) && w < Size(ty)
    ensures var tz := LogicalType(and, ty); TestWord(tz, CastWord(tz, ty, w)) <==> TestWord(ty, w)
  {
    SameWord(ty, w);
    assert LogicalType(and, ty) == ty;
  }

  // ---------- folding ----------

  lemma SextOfWord(v: int)
    ensures Sext(M8, v % M32) == Sext(M8, v) && Sext(M16, v % M32) == Sext(M16, v)
    ensures InType(Char, v) ==> Sext(M8, v) == v
    ensures InType(Short, v) ==> Sext(M16, v) == v
  {
    ByteOfWord(v);
    HalfOfWord(v);
    if InType(Char, v) { SextByte(v); }
    if InType(Short, v) { SextHalf(v); }
  }

  lemma SextByte(v: int)
    requires InType(Char, v)
    ensures Sext(M8, v) == v
  {}

  lemma SextHalf(v: int)
    requires InType(Short, v)
    ensures Sext(M16, v) == v
  {}

  lemma ByteOfWord(v: int)
    ensures v % M32 % M8 == v % M8
  {
    var q, r := v / M32, v % M32;
    Remainder(v, 0x100_0000 * q + r / M8, M8, r % M8);
  }

  lemma HalfOfWord(v: int)
    ensures v % M32 % M16 == v % M16
  {
    var q, r := v / M32, v % M32;
    Remainder(v, 0x1_0000 * q + r / M16, M16, r % M16);
  }

  lemma ConvertWord(to: TS, from: TS, v: int)
    requires InType(from, v) && Promoted(to)
    ensures Convert(to, from, v) % Size(to) == v % Size(to)
  {
    ReduceWord(to, v);
    hide Reduce;
  }

  lemma CastPromotedMatches(to: TS, from: TS, v: int)
    requires InType(from, v) && Promoted(to) && !Wide(to)
    ensures CastWord(to, from, v % Size(from)) == v % M32
  {
    hide Sext, And8, WidenWord, InType;
    if from == Char || from == Short {
      SmallPromotes(to, from, v);
    } else if Wide(from) {
      Mod64Then(Int, v);
    } else {
      WordMod(v);
    }
  }

  lemma WordMod(v: int)
    ensures v % M32 % M32 == v % M32
  {}

  lemma SmallPromotes(to: TS, from: TS, v: int)
    requires InType(from, v) && Promoted(to) && !Wide(to) && (from == Char || from == Short)
    ensures CastWord(to, from, v % Size(from)) == v % M32
  {
    hide Sext, And8, WidenWord;
    SextOfWord(v);
  }

  lemma WidenIs(to: TS, from: TS, w: nat)
    requires Wide(to)
    ensures CastWord(to, from, w) == WidenWord(from, w)
  {
    hide Sext, SignedWord;
  }

  lemma WidenSmall(from: TS, v: int)
    requires InType(from, v) && (from == Char || from == Short)
    ensures WidenWord(from, v % M32) == v % M64
  {
    SextOfWord(v);
    SignedWordOf(Int, v);
    hide Sext, SignedWord;
  }

  lemma WidenWordMatches(from: TS, v: int)
    requires InType(from, v) && Promoted(from) && !Wide(from)
    ensures WidenWord(from, v % M32) == v % M64
  {
    SignedWordOf(from, v);
    hide Sext, SignedWord;
  }

  lemma WidenMatches(to: TS, from: TS, v: int)
    requires InType(from, v) && Wide(to)
    ensures CastWord(to, from, v % Size(from)) == v % M64
  {
    WidenIs(to, from, v % Size(from));
    hide CastWord;
    if from == Char || from == Short {
      WidenSmall(from, v);
    } else if Promoted(from) && !Wide(from) {
      WidenWordMatches(from, v);
    }
  }

  lemma {:induction false} MaskBits(w: nat, k: nat, n: nat)
    requires k <= n
    ensures Bits(And, w, Pow2(k) - 1, n) == w % Pow2(k)
    decreases n
  {
    if k == 0 {
      NoBits(w, n);
    } else {
      MaskBits(w / 2, k - 1, n - 1);
      hide Bits;
      MaskNext(w, Pow2(k - 1), Pow2(k), n);
    }
  }

  lemma MaskNext(w: nat, p: nat, q: nat, n: nat)
    requires n > 0 && p >= 1 && q == 2 * p && Bits(And, w / 2, p - 1, n - 1) == w / 2 % p
    ensures Bits(And, w, q - 1, n) == w % q
  {
    hide Bits, Pow2;
    MaskStep(w, p, n);
    MaskJoin(w, p, q);
  }

  lemma MaskStep(w: nat, p: nat, n: nat)
    requires n > 0 && p >= 1
    ensures Bits(And, w, 2 * p - 1, n) == w % 2 + 2 * Bits(And, w / 2, p - 1, n - 1)
  {
    hide Pow2;
    assert (2 * p - 1) % 2 == 1 && (2 * p - 1) / 2 == p - 1;
  }

  lemma MaskJoin(w: nat, p: nat, q: nat)
    requires p >= 1 && q == 2 * p
    ensures w % q == w % 2 + 2 * (w / 2 % p)
  {
    var lo, hi := w % 2, w / 2;
    assert w == lo + 2 * hi;
    DoubleMod(lo, hi, p);
  }

  lemma {:induction false} NoBits(w: nat, n: nat)
    ensures Bits(And, w, 0, n) == 0
    decreases n
  {
    if n > 0 { NoBits(w / 2, n - 1); }
  }

  lemma MaskWord(w: nat)
    ensures And8(w, 0xFF) == w % M8 && And8(w, 0xFFFF) == w % M16
  {
    assert Pow2(8) == M8;
    Pow2Add(8, 8);
    hide Bits, Pow2;
    MaskBits(w, 8, 32);
    MaskBits(w, 16, 32);
  }

  lemma CharMatches(from: TS, v: int)
    requires InType(from, v)
    ensures from != Char ==> CastWord(Char, from, v % Size(from)) == Convert(Char, from, v) % M32
    ensures from != Short ==> CastWord(Short, from, v % Size(from)) == Convert(Short, from, v) % M32
  {
    CastPromotedMatches(Int, from, v);
    SextOfWord(v);
    hide Sext, WidenWord, And8;
  }

  lemma UCharMatches(from: TS, v: int)
    requires InType(from, v)
    ensures from != UChar ==> CastWord(UChar, from, v % Size(from)) == Convert(UChar, from, v) % M32
    ensures from != UShort ==> CastWord(UShort, from, v % Size(from)) == Convert(UShort, from, v) % M32
  {
    CastPromotedMatches(UInt, from, v);
    MaskWord(v % M32);
    ModOfWord(v);
    UCharIs(from, v % Size(from));
    UCharReduces(from, v);
    hide CastWord, Size, And8, InType, Convert;
  }

  lemma UCharReduces(from: TS, v: int)
    requires InType(from, v)
    ensures from != UChar ==> Convert(UChar, from, v) == v % M8
    ensures from != UShort ==> Convert(UShort, from, v) == v % M16
  {}

  lemma UCharIs(from: TS, w: nat)
    ensures from != UChar ==> CastWord(UChar, from, w) == And8(CastWord(UInt, from, w), 0xFF)
    ensures from != UShort ==> CastWord(UShort, from, w) == And8(CastWord(UInt, from, w), 0xFFFF)
  {
    hide And8, Sext, WidenWord;
  }

  lemma SmallMatches(to: TS, from: TS, v: int)
    requires InType(from, v) && (to == Char || to == Short || to == UChar || to == UShort) && to != from
    ensures CastWord(to, from, v % Size(from)) == Convert(to, from, v) % M32
  {
    hide CastWord, Convert, InType;
    CharMatches(from, v);
    UCharMatches(from, v);
  }

  lemma ModOfWord(v: int)
    ensures v % M32 % M8 == v % M8 && v % M32 % M16 == v % M16
    ensures v % M8 % M32 == v % M8 && v % M16 % M32 == v % M16
  {
    ByteOfWord(v);
    HalfOfWord(v);
    SmallWord(v % M8);
    SmallWord(v % M16);
  }

  lemma SmallWord(r: nat)
    requires r < M16
    ensures r % M32 == r
  {}

  lemma BoolMatches(from: TS, v: int)
    requires InType(from, v) && from != Bool
    ensures CastWord(Bool, from, v % Size(from)) == Convert(Bool, from, v)
  {}

  /** A cast in the generated code converts as the compiler does. */
  lemma CastMatches(to: TS, from: TS, v: int)
    requires InType(from, v)
    ensures CastWord(to, from, v % Size(from)) == Convert(to, from, v) % Size(to)
  {
    hide CastWord, Convert, InType;
    if to == from {
      SameCast(to, v);
    } else if to == Bool {
      BoolMatches(from, v);
      BoolRange(from, v);
    } else if to == Char || to == Short || to == UChar || to == UShort {
      SmallMatches(to, from, v);
    } else {
      ConvertWord(to, from, v);
      if Wide(to) { WidenMatches(to, from, v); } else { CastPromotedMatches(to, from, v); }
    }
  }

  lemma SameCast(ts: TS, v: int)
    requires InType(ts, v)
    ensures CastWord(ts, ts, v % Size(ts)) == Convert(ts, ts, v) % Size(ts)
  {}

  lemma BoolRange(from: TS, v: int)
    requires InType(from, v)
    ensures Convert(Bool, from, v) % Size(Bool) == Convert(Bool, from, v)
  {}

  lemma UnMatches(op: UnOp, tx: TS, x: int)
    requires InType(tx, x)
    ensures var r := NumUnop(op, tx, x);
            r.ts == (if op == UNot then Int else Promote(tx)) && UnWord(op, tx, x % Size(tx)) == r.v % Size(r.ts)
  {
    hide CastWord, Convert, Reduce, InType, Size, WordOp, Promote;
    var tz := Promote(tx);
    var v := Convert(tz, tx, x);
    CastMatches(tz, tx, x);
    match op
    case UPlus => SameReduced(tz, v);
    case UNot => ZeroWord(tz, v); TruthWord();
    case UMinus => NegateWord(tz, v);
    case UTilde => ComplementWord(tz, v);
  }

  lemma SameReduced(tz: TS, v: int)
    requires Promoted(tz)
    ensures Reduce(tz, v) % Size(tz) == v % Size(tz)
  {
    ReduceWord(tz, v);
    hide Reduce;
  }

  lemma TruthWord()
    ensures 0 % Size(Int) == 0 && 1 % Size(Int) == 1
  {}

  lemma ZeroWord(tz: TS, v: int)
    requires Promoted(tz) && InType(tz, v)
    ensures v % Size(tz) == 0 <==> v == 0
  {}

  lemma NegateWord(tz: TS, v: int)
    requires Promoted(tz)
    ensures WordOp(Minus, !Unsigned(tz), Wide(tz), 0, v % Size(tz)).1 == Reduce(tz, -v) % Size(tz)
  {
    ReduceWord(tz, -v);
    ModSum(0, v, Size(tz));
    hide Reduce;
  }

  lemma FlipWord(wide: bool, w: nat)
    requires w < WordSize(wide)
    ensures Bits(Xor, WordSize(wide) - 1, w, WordBits(wide)) == WordSize(wide) - 1 - w
  {
    PowersOfTwo();
    hide Bits, Pow2;
    FlipBits(w, WordBits(wide));
  }

  lemma ComplementWord(tz: TS, v: int)
    requires Promoted(tz)
    ensures WordOp(Xor, !Unsigned(tz), Wide(tz), Size(tz) - 1, v % Size(tz)).1 == Reduce(tz, -v - 1) % Size(tz)
  {
    hide WordOp, Pow2, Reduce, Bits, WordBits;
    var m := Size(tz);
    WordOpLogic(Xor, !Unsigned(tz), Wide(tz), m - 1, v % m);
    FlipWord(Wide(tz), v % m);
    ReduceWord(tz, -v - 1);
    FlipMod(v, m);
  }

  lemma FlipMod(v: int, m: nat)
    requires m == M32 || m == M64
    ensures (-v - 1) % m == m - 1 - v % m
  {
    assert -v - 1 == (m - 1 - v % m) + m * (-(v / m) - 1);
    ModShift(m - 1 - v % m, -(v / m) - 1, m);
  }

  lemma {:induction false} FlipBits(w: nat, n: nat)
    requires w < Pow2(n)
    ensures Bits(Xor, Pow2(n) - 1, w, n) == Pow2(n) - 1 - w
    decreases n
  {
    if n > 0 {
      var ones := Pow2(n) - 1;
      assert ones % 2 == 1 && ones / 2 == Pow2(n - 1) - 1;
      FlipBits(w / 2, n - 1);
    }
  }

  lemma BinMatches(op: BinOp, tx: TS, x: int, ty: TS, y: int)
    requires InType(tx, x) && InType(ty, y)
    requires var tz := Common(tx, ty); Tied(op, tz, Convert(tz, tx, x), Convert(tz, ty, y))
    ensures var r := NumBinop(op, tx, x, ty, y);
            && !r.Open?
            && (r.Number? ==> r.ts == (if Comparison(op) then Int else Common(tx, ty))
                              && BinWord(op, tx, x % Size(tx), ty, y % Size(ty)) == (true, r.v % Size(r.ts)))
  {
    hide CastWord, Convert, Tied, OnType, WordOp, Common, InType, FoldOps.Word, Size;
    var tz := Common(tx, ty);
    var a, b := Convert(tz, tx, x), Convert(tz, ty, y);
    CastMatches(tz, tx, x);
    CastMatches(tz, ty, y);
    WordIs(tz, a);
    WordIs(tz, b);
    var r := OnType(op, tz, a, b);
    if r != NotConstant {
      OnTypeMatches(op, tz, a, b);
      WordIs(r.ts, r.v);
    }
  }

  lemma WordIs(ts: TS, v: int)
    ensures FoldOps.Word(ts, v) == v % Size(ts)
  {}

  lemma TestMatches(tc: TS, v: int)
    requires InType(tc, v)
    ensures TestWord(tc, v % Size(tc)) <==> v != 0
  {
    if tc == Int || tc == UInt || tc == Long || tc == ULong {
    } else {
      CastMatches(Common(tc, ULong), tc, v);
      TestConvert(tc, v);
      hide CastWord, Convert;
    }
  }

  lemma TestConvert(tc: TS, v: int)
    requires InType(tc, v)
    ensures var tz := Common(tc, ULong); Convert(tz, tc, v) % Size(tz) == 0 <==> v == 0
  {
    var tz := Common(tc, ULong);
    ConvertWord(tz, tc, v);
    hide Convert;
  }

  /** Wherever the conditions hold, a constant has the type and the word that its code leaves, and changes nothing. */
  lemma {:induction false} EvaluateMatches(E: Env, ord: Order, st: State, e: Exp)
    requires WellTyped(e) && Agreed(e)
    ensures Evaluated(E, ord, st, e)
  {
    hide NumUnop, NumBinop, UnWord, BinWord, CastWord, Convert, Tied, TestWord, Common, InType, Promote, VarWord, With, Stepped;
    match e
    case Lit(_, _) =>
    case Read(_) =>
    case Assign(_, _) =>
    case Post(_, _) =>
    case Other(_, _) =>
    case Un(op, x) =>
      EvaluateMatches(E, ord, st, x);
      var a := Evaluate(x);
      if a.Number? { UnMatches(op, a.ts, a.v); }
    case Bin(op, x, y) =>
      EvaluateMatches(E, ord, st, x);
      EvaluateMatches(E, ord, st, y);
      var a, b := Evaluate(x), Evaluate(y);
      if a.Number? && b.Number? { BinMatches(op, a.ts, a.v, b.ts, b.v); }
    case Cast(to, x) =>
      EvaluateMatches(E, ord, st, x);
      var a := Evaluate(x);
      if a.Number? { CastMatches(to, a.ts, a.v); }
    case Cond(c, x, y) =>
      EvaluateMatches(E, ord, st, c);
      EvaluateMatches(E, ord, st, x);
      EvaluateMatches(E, ord, st, y);
      CondMatches(E, ord, st, c, x, y);
    case Logical(_, _, _) =>
  }

  /** What evaluation finds is tied to the value. */
  ghost predicate Evaluated(E: Env, ord: Order, st: State, e: Exp)
    requires WellTyped(e)
  {
    var a := Evaluate(e);
    && !a.Open?
    && (a.Number? ==> TypeOf(e) == a.ts && InType(a.ts, a.v) && Value(E, ord, st, e) == Done(a.v % Size(a.ts), st))
  }

  lemma CondMatches(E: Env, ord: Order, st: State, c: Exp, x: Exp, y: Exp)
    requires var e := Cond(c, x, y); WellTyped(e) && Agreed(e)
    requires Evaluated(E, ord, st, c) && Evaluated(E, ord, st, x) && Evaluated(E, ord, st, y)
    ensures Evaluated(E, ord, st, Cond(c, x, y))
  {
    hide CastWord, TestWord, Common, InType, Simple, SimpleWord;
    var e, a := Cond(c, x, y), Evaluate(c);
    if a.Number? {
      TestMatches(a.ts, a.v);
      ZeroConverts(a.ts);
      var z := if a.v != 0 then x else y;
      assert Evaluate(e) == Evaluate(z) by { hide Convert, Value, Size; }
      if Evaluate(z).Number? {
        ChosenValue(E, ord, st, c, x, y);
        SameWord(TypeOf(z), Evaluate(z).v % Size(TypeOf(z)));
      }
      hide Convert, Value, Size, Evaluate;
    }
  }

  /** A condition without effects chooses a branch in either order. */
  lemma ChosenValue(E: Env, ord: Order, st: State, c: Exp, x: Exp, y: Exp)
    requires Value(E, ord, st, c).Done? && Value(E, ord, st, c).st == st
    ensures var z := Chosen(c, Value(E, ord, st, c), x, y);
            Value(E, ord, st, Cond(c, x, y)) == Casted(Common(TypeOf(x), TypeOf(y)), TypeOf(z), Value(E, ord, st, z))
  {
    hide CastWord, TestWord, Common, Simple, SimpleWord, Casted;
    var z := Chosen(c, Value(E, ord, st, c), x, y);
    if Simple(z) { SimpleComputes(E, ord, st, z); }
  }

  lemma ZeroConverts(from: TS)
    ensures InType(from, 0) && Convert(Int, from, 0) == 0
  {}

  predicate Replaced(e: Exp, r: Exp)
    requires WellTyped(e)
  {
    Constant(e) && Evaluate(e).Number? && r == Lit(Evaluate(e).ts, Evaluate(e).v)
  }

  /** Where folding turns an evaluated `if` into `select`, the condition leaves the chosen branch as it was. */
  ghost predicate SelectsKept(E: Env, st: State, e: Exp, r: Exp)
    requires WellTyped(e) && FoldsTo(e, r)
    decreases e
  {
    if Replaced(e, r) then true
    else match e
      case Lit(_, _) => true
      case Read(_) => true
      case Assign(_, x) => SelectsKept(E, st, x, r.e)
      case Post(_, _) => true
      case Other(_, _) => true
      case Un(_, x) => SelectsKept(E, st, x, r.e)
      case Bin(_, x, y) =>
        var a := Value(E, AsCompiled, st, x);
        SelectsKept(E, st, x, r.l) && (a.Done? ==> SelectsKept(E, a.st, y, r.r))
      case Cast(_, x) => SelectsKept(E, st, x, r.e)
      case Cond(c, x, y) =>
        var a := Value(E, AsCompiled, st, c);
        SelectsKept(E, st, c, r.c) && NewSelectKept(E, st, c, x, y, r.t, r.f)
        && (a.Done? ==> if TestWord(TypeOf(c), a.bits) then SelectsKept(E, a.st, x, r.t) else SelectsKept(E, a.st, y, r.f))
      case Logical(and, x, y) =>
        var a := Value(E, AsCompiled, st, x);
        SelectsKept(E, st, x, r.l) && (a.Done? && TestWord(TypeOf(x), a.bits) == and ==> SelectsKept(E, a.st, y, r.r))
  }

  /** `rx` and `ry`, unlike `x` and `y`, are compiled to `select`. */
  predicate NewSelect(x: Exp, y: Exp, rx: Exp, ry: Exp) {
    SimpleCode(Compile(rx)) && SimpleCode(Compile(ry)) && !(SimpleCode(Compile(x)) && SimpleCode(Compile(y)))
  }

  ghost predicate NewSelectKept(E: Env, st: State, c: Exp, x: Exp, y: Exp, rx: Exp, ry: Exp) {
    var a, tz := Value(E, AsCompiled, st, c), Common(TypeOf(rx), TypeOf(ry));
    var z := Chosen(c, a, rx, ry);
    NewSelect(x, y, rx, ry) && a.Done? ==>
      CastWord(tz, TypeOf(z), SimpleWord(a.st, z)) == CastWord(tz, TypeOf(z), SimpleWord(st, z))
  }

  /** Folding leaves numbers and variables alone. */
  lemma SimpleFolds(e: Exp, r: Exp)
    requires WellTyped(e) && FoldsTo(e, r)
    ensures Simple(e) ==> r == e
    ensures Simple(r) ==> r == e || Replaced(e, r)
  {
    hide InType;
  }

  /** A conditional with a folded condition and folded branches keeps its value, in the compiled order exactly when
      a new `select` has a condition that leaves the chosen branch as it was. */
  lemma FoldCond(E: Env, ord: Order, st: State, c: Exp, x: Exp, y: Exp, rc: Exp, rx: Exp, ry: Exp)
    requires TypeOf(rc) == TypeOf(c) && TypeOf(rx) == TypeOf(x) && TypeOf(ry) == TypeOf(y)
    requires Value(E, ord, st, rc) == Value(E, ord, st, c)
    requires (Simple(x) ==> rx == x) && (Simple(y) ==> ry == y)
    requires var a := Value(E, ord, st, c);
             a.Done? ==> Value(E, ord, a.st, Chosen(c, a, rx, ry)) == Value(E, ord, a.st, Chosen(c, a, x, y))
    ensures Value(E, ord, st, Cond(rc, rx, ry)) == Value(E, ord, st, Cond(c, x, y)) <==>
            (ord == AsCompiled ==> NewSelectKept(E, st, c, x, y, rx, ry))
  {
    hide CastWord, TestWord, Common, Compile, Simple, SimpleWord, SimpleCode;
    SimpleIff(x);
    SimpleIff(y);
    SimpleIff(rx);
    SimpleIff(ry);
    var a := Value(E, ord, st, c);
    var z := Chosen(c, a, rx, ry);
    if a.Done? && Simple(z) { SimpleComputes(E, ord, a.st, z); }
  }

  /** For `&&` and `||` a new `select` is harmless: the operand that made it has become a number. */
  lemma FoldLogical(E: Env, ord: Order, st: State, and: bool, x: Exp, y: Exp, rx: Exp, ry: Exp)
    requires TypeOf(rx) == TypeOf(x) && TypeOf(ry) == TypeOf(y)
    requires Value(E, ord, st, rx) == Value(E, ord, st, x)
    requires (Simple(y) ==> ry == y) && (Simple(ry) ==> ry == y || ry.Lit?)
    requires var a := Value(E, ord, st, x);
             a.Done? && TestWord(TypeOf(x), a.bits) == and ==> Value(E, ord, a.st, ry) == Value(E, ord, a.st, y)
    ensures Value(E, ord, st, Logical(and, rx, ry)) == Value(E, ord, st, Logical(and, x, y))
  {
    hide CastWord, TestWord, Common, VarWord;
    var a := Value(E, ord, st, x);
    if a.Done? && Simple(ry) { SimpleComputes(E, ord, a.st, ry); }
  }

  lemma {:induction false} FoldKeepsType(E: Env, st: State, e: Exp, r: Exp)
    requires WellTyped(e) && Agreed(e) && FoldsTo(e, r)
    ensures TypeOf(r) == TypeOf(e)
    decreases e, 1
  {
    hide Evaluate, Tied, Common, InType, Promote, Value, FoldsTo, Agreed, LogicalType;
    if Replaced(e, r) {
      EvaluateMatches(E, InOrder, st, e);
    } else {
      FoldKeepsTypes(E, st, e, r);
      SameShapeType(e, r);
    }
  }

  /** The children's types. */
  lemma {:induction false} FoldKeepsTypes(E: Env, st: State, e: Exp, r: Exp)
    requires WellTyped(e) && Agreed(e) && FoldsTo(e, r) && !Replaced(e, r)
    ensures SameTypes(e, r)
    decreases e, 0
  {
    hide Evaluate, Tied, Common, InType, Promote, Value, LogicalType, Constant, TypeOf;
    match e
    case Lit(_, _) =>
    case Read(_) =>
    case Assign(_, x) => FoldKeepsType(E, st, x, r.e);
    case Post(_, _) =>
    case Other(_, _) =>
    case Un(_, x) => FoldKeepsType(E, st, x, r.e);
    case Bin(_, x, y) => FoldKeepsType(E, st, x, r.l); FoldKeepsType(E, st, y, r.r);
    case Cast(_, x) => FoldKeepsType(E, st, x, r.e);
    case Cond(c, x, y) => FoldKeepsType(E, st, c, r.c); FoldKeepsType(E, st, x, r.t); FoldKeepsType(E, st, y, r.f);
    case Logical(_, x, y) => FoldKeepsType(E, st, x, r.l); FoldKeepsType(E, st, y, r.r);
  }

  /** The same node over children of the same types. */
  predicate SameTypes(e: Exp, r: Exp) {
    match e
    case Lit(_, _) => r == e
    case Read(_) => r == e
    case Assign(v, x) => r.Assign? && r.x == v && TypeOf(r.e) == TypeOf(x)
    case Post(_, _) => r == e
    case Other(_, _) => r == e
    case Un(op, x) => r.Un? && r.op == op && TypeOf(r.e) == TypeOf(x)
    case Bin(op, x, y) => r.Bin? && r.bop == op && TypeOf(r.l) == TypeOf(x) && TypeOf(r.r) == TypeOf(y)
    case Cast(to, x) => r.Cast? && r.to == to && TypeOf(r.e) == TypeOf(x)
    case Cond(c, x, y) => r.Cond? && TypeOf(r.c) == TypeOf(c) && TypeOf(r.t) == TypeOf(x) && TypeOf(r.f) == TypeOf(y)
    case Logical(and, x, y) => r.Logical? && r.and == and && TypeOf(r.l) == TypeOf(x) && TypeOf(r.r) == TypeOf(y)
  }

  lemma SameShapeType(e: Exp, r: Exp)
    requires SameTypes(e, r)
    ensures TypeOf(r) == TypeOf(e)
  {
    hide Common, Promote, LogicalType;
  }

  /** Folding any constant subtrees keeps the type, the value and the effects of every expression; in the compiled
      order it does where it makes no unsafe `select`. */
  lemma {:induction false} FoldKeepsValue(E: Env, ord: Order, st: State, e: Exp, r: Exp)
    requires WellTyped(e) && Agreed(e) && FoldsTo(e, r) && (ord == AsCompiled ==> SelectsKept(E, st, e, r))
    ensures TypeOf(r) == TypeOf(e) && Value(E, ord, st, r) == Value(E, ord, st, e)
    decreases e, 1
  {
    hide UnWord, BinWord, CastWord, TestWord, Evaluate, Tied, Common, InType, Promote, SelectsKept, FoldsTo, Stepped, VarWord, With;
    FoldKeepsType(E, st, e, r);
    if Replaced(e, r) {
      EvaluateMatches(E, ord, st, e);
    } else {
      FoldChildren(E, ord, st, e, r);
    }
  }

  lemma {:induction false} FoldChildren(E: Env, ord: Order, st: State, e: Exp, r: Exp)
    requires WellTyped(e) && Agreed(e) && FoldsTo(e, r) && (ord == AsCompiled ==> SelectsKept(E, st, e, r))
    requires !Replaced(e, r)
    ensures Value(E, ord, st, r) == Value(E, ord, st, e)
    decreases e, 0
  {
    FoldKeepsTypes(E, st, e, r);
    hide UnWord, BinWord, CastWord, TestWord, Evaluate, Tied, Common, InType, Promote, Stepped, VarWord, With,
         NewSelectKept, Simple, SimpleWord, Casted, Constant, Size;
    match e
    case Lit(_, _) =>
    case Read(_) =>
    case Assign(_, x) => FoldKeepsValue(E, ord, st, x, r.e);
    case Post(_, _) =>
    case Other(_, _) =>
    case Un(_, x) => FoldKeepsValue(E, ord, st, x, r.e);
    case Bin(_, x, y) =>
      FoldKeepsValue(E, ord, st, x, r.l);
      var a := Value(E, ord, st, x);
      if a.Done? { FoldKeepsValue(E, ord, a.st, y, r.r); }
    case Cast(_, x) => FoldKeepsValue(E, ord, st, x, r.e);
    case Cond(c, x, y) =>
      FoldKeepsValue(E, ord, st, c, r.c);
      var a := Value(E, ord, st, c);
      if a.Done? {
        if TestWord(TypeOf(c), a.bits) { FoldKeepsValue(E, ord, a.st, x, r.t); } else { FoldKeepsValue(E, ord, a.st, y, r.f); }
      }
      SimpleFolds(x, r.t);
      SimpleFolds(y, r.f);
      FoldCond(E, ord, st, c, x, y, r.c, r.t, r.f);
    case Logical(and, x, y) =>
      FoldKeepsValue(E, ord, st, x, r.l);
      var a := Value(E, ord, st, x);
      if a.Done? && TestWord(TypeOf(x), a.bits) == and { FoldKeepsValue(E, ord, a.st, y, r.r); }
      SimpleFolds(y, r.r);
      FoldLogical(E, ord, st, and, x, y, r.l, r.r);
  }

  lemma {:induction false} FoldsToItself(e: Exp)
    requires WellTyped(e)
    ensures FoldsTo(e, e)
  {
    hide Evaluate, Constant;
    match e
    case Lit(_, _) =>
    case Read(_) =>
    case Assign(_, x) => FoldsToItself(x);
    case Post(_, _) =>
    case Other(_, _) =>
    case Un(_, x) => FoldsToItself(x);
    case Bin(_, x, y) => FoldsToItself(x); FoldsToItself(y);
    case Cast(_, x) => FoldsToItself(x);
    case Cond(c, x, y) => FoldsToItself(c); FoldsToItself(x); FoldsToItself(y);
    case Logical(_, x, y) => FoldsToItself(x); FoldsToItself(y);
  }

  /** The compiler folds the outermost constant subtrees that can be evaluated. */
  lemma {:induction false} FoldIsFolding(E: Env, st: State, e: Exp)
    requires WellTyped(e) && Agreed(e)
    ensures FoldsTo(e, Fold(e))
  {
    hide Evaluate, Tied, Common, InType, Promote, Value;
    if Constant(e) {
      EvaluateMatches(E, InOrder, st, e);
      FoldsToItself(e);
    } else {
      match e
      case Read(_) =>
      case Assign(_, x) => FoldIsFolding(E, st, x);
      case Post(_, _) =>
      case Other(_, _) =>
      case Un(_, x) => FoldIsFolding(E, st, x);
      case Bin(_, x, y) => FoldIsFolding(E, st, x); FoldIsFolding(E, st, y);
      case Cast(_, x) => FoldIsFolding(E, st, x);
      case Cond(c, x, y) => FoldIsFolding(E, st, c); FoldIsFolding(E, st, x); FoldIsFolding(E, st, y);
      case Logical(_, x, y) => FoldIsFolding(E, st, x); FoldIsFolding(E, st, y);
    }
  }

  /** The code of an expression with any constant subtrees folded does on every stack what the code of the original
      does, where folding makes no unsafe `select`; so does the code of what the compiler makes of it. */
  lemma FoldKeepsCode(E: Env, st: State, e: Exp, r: Exp, s: seq<WVal>)
    requires WellTyped(e) && Agreed(e)
    ensures FoldsTo(e, r) && SelectsKept(E, st, e, r) ==>
              TypeOf(r) == TypeOf(e) && Run(E, Compile(r), st, s) == Run(E, Compile(e), st, s)
    ensures FoldsTo(e, Fold(e)) &&
            (SelectsKept(E, st, e, Fold(e)) ==>
               TypeOf(Fold(e)) == TypeOf(e) && Run(E, Compile(Fold(e)), st, s) == Run(E, Compile(e), st, s))
  {
    hide FoldsTo, Compile, Run, Agreed, WellTyped, SelectsKept, Fold;
    if FoldsTo(e, r) && SelectsKept(E, st, e, r) { FoldingKeepsCode(E, st, e, r, s); }
    FoldIsFolding(E, st, e);
    if SelectsKept(E, st, e, Fold(e)) { FoldingKeepsCode(E, st, e, Fold(e), s); }
  }

  lemma FoldingKeepsCode(E: Env, st: State, e: Exp, r: Exp, s: seq<WVal>)
    requires WellTyped(e) && Agreed(e) && FoldsTo(e, r) && SelectsKept(E, st, e, r)
    ensures TypeOf(r) == TypeOf(e) && Run(E, Compile(r), st, s) == Run(E, Compile(e), st, s)
  {
    hide FoldsTo, Compile, Value, Run, Agreed, WellTyped, SelectsKept, Computes;
    FoldKeepsValue(E, AsCompiled, st, e, r);
    CompileComputes(E, st, e);
    CompileComputes(E, st, r);
    SameOutcome(E, st, Compile(r), Compile(e), TypeOf(e), Value(E, AsCompiled, st, r), Value(E, AsCompiled, st, e), s);
  }

  /** A conditional with folded parts does what it did exactly when it has not turned from `if` into `select`, or
      its condition leaves the branch it chooses as it was. */
  lemma FoldCondExact(E: Env, st: State, e: Exp, r: Exp, s: seq<WVal>)
    requires WellTyped(e) && Agreed(e) && FoldsTo(e, r) && e.Cond? && r.Cond?
    requires SelectsKept(E, st, e.c, r.c)
    requires var a := Value(E, AsCompiled, st, e.c);
             a.Done? ==> if TestWord(TypeOf(e.c), a.bits) then SelectsKept(E, a.st, e.t, r.t) else SelectsKept(E, a.st, e.f, r.f)
    ensures Run(E, Compile(r), st, s) == Run(E, Compile(e), st, s) <==> NewSelectKept(E, st, e.c, e.t, e.f, r.t, r.f)
  {
    hide Compile, Value, Run, SelectsKept, NewSelectKept, Computes, Evaluate, Constant, Tied, Common, InType, CastWord, Simple, TestWord;
    FoldCondValue(E, st, e, r);
    CompileComputes(E, st, e);
    CompileComputes(E, st, r);
    FoldKeepsType(E, st, e, r);
    SameOutcome(E, st, Compile(r), Compile(e), TypeOf(e), Value(E, AsCompiled, st, r), Value(E, AsCompiled, st, e), s);
  }

  lemma FoldCondValue(E: Env, st: State, e: Exp, r: Exp)
    requires WellTyped(e) && Agreed(e) && FoldsTo(e, r) && e.Cond? && r.Cond?
    requires SelectsKept(E, st, e.c, r.c)
    requires var a := Value(E, AsCompiled, st, e.c);
             a.Done? ==> if TestWord(TypeOf(e.c), a.bits) then SelectsKept(E, a.st, e.t, r.t) else SelectsKept(E, a.st, e.f, r.f)
    ensures Value(E, AsCompiled, st, r) == Value(E, AsCompiled, st, e) <==> NewSelectKept(E, st, e.c, e.t, e.f, r.t, r.f)
  {
    hide Compile, Value, SelectsKept, NewSelectKept, Evaluate, Constant, Tied, Common, InType, CastWord, Simple, TestWord;
    var a := Value(E, AsCompiled, st, e.c);
    FoldKeepsValue(E, AsCompiled, st, e.c, r.c);
    FoldKeepsTypes(E, st, e, r);
    if a.Done? {
      if TestWord(TypeOf(e.c), a.bits) { FoldKeepsValue(E, AsCompiled, a.st, e.t, r.t); }
      else { FoldKeepsValue(E, AsCompiled, a.st, e.f, r.f); }
    }
    SimpleFolds(e.t, r.t);
    SimpleFolds(e.f, r.f);
    FoldCond(E, AsCompiled, st, e.c, e.t, e.f, r.c, r.t, r.f);
  }

  // ---------- where the compiled order shows ----------

  /** An `int` assigned a small number. */
  lemma AssignNumber(E: Env, ord: Order, st: State, x: Var, n: nat)
    requires x.ts == Int && n < M32
    ensures Value(E, ord, st, Assign(x, Lit(Int, n))) == Done(n, With(st, x, n)) && VarWord(With(st, x, n), x) == n
  {
    SameWord(Int, n);
    hide CastWord;
  }

  /** `(x = 1) ? x : 2` gives 1 in C, and what `x` was in the compiled order. */
  lemma SelectReadsEarly(E: Env, st: State, x: Var)
    requires x.ts == Int
    ensures var e := Cond(Assign(x, Lit(Int, 1)), Read(x), Lit(Int, 2));
            && Value(E, InOrder, st, e) == Done(1, With(st, x, 1))
            && Computes(E, st, Compile(e), Int, Done(VarWord(st, x), With(st, x, 1)))
  {
    var c := Assign(x, Lit(Int, 1));
    AssignNumber(E, InOrder, st, x, 1);
    AssignNumber(E, AsCompiled, st, x, 1);
    SameWord(Int, 1);
    SameWord(Int, VarWord(st, x));
    hide CastWord, With, VarWord, Computes;
    CompileComputes(E, st, Cond(c, Read(x), Lit(Int, 2)));
  }

  /** `x++ || x`, with `x` 0, is true in C and false in the compiled order. */
  lemma OrReadsEarly(E: Env, st: State, x: Var)
    requires x.ts == Int && VarWord(st, x) == 0
    ensures var e := Logical(false, Post(x, true), Read(x));
            && Value(E, InOrder, st, e) == Done(1, With(st, x, 1))
            && Computes(E, st, Compile(e), Int, Done(0, With(st, x, 1)))
  {
    NextNumber();
    SameWord(Int, 1);
    SameWord(Int, 0);
    assert VarWord(With(st, x, 1), x) == 1;
    hide CastWord, With, VarWord, Computes, Stepped;
    CompileComputes(E, st, Logical(false, Post(x, true), Read(x)));
  }

  lemma NextNumber()
    ensures Stepped(Int, true, 0) == 1
  {
    SameWord(Int, 0);
    SameWord(Int, 1);
    hide CastWord;
  }

  /** `(x = 1) ? x : 1 + 1` is compiled to `if` and gives 1; folded, it is compiled to `select` and gives what `x` was. */
  lemma FoldReadsEarly(E: Env, st: State, x: Var)
    requires x.ts == Int
    ensures var e := Cond(Assign(x, Lit(Int, 1)), Read(x), Bin(Plus, Lit(Int, 1), Lit(Int, 1)));
            && WellTyped(e) && Agreed(e) && Fold(e) == Cond(Assign(x, Lit(Int, 1)), Read(x), Lit(Int, 2))
            && Computes(E, st, Compile(e), Int, Done(1, With(st, x, 1)))
            && Computes(E, st, Compile(Fold(e)), Int, Done(VarWord(st, x), With(st, x, 1)))
  {
    hide Computes, Compile, Agreed, Evaluate, Value, With, VarWord;
    TwoFolds();
    SelectReadsEarly(E, st, x);
    BranchReadsLate(E, st, x);
    EarlyFolds(x);
  }

  lemma EarlyFolds(x: Var)
    requires x.ts == Int
    ensures var e := Cond(Assign(x, Lit(Int, 1)), Read(x), Bin(Plus, Lit(Int, 1), Lit(Int, 1)));
            WellTyped(e) && Agreed(e) && Fold(e) == Cond(Assign(x, Lit(Int, 1)), Read(x), Lit(Int, 2))
  {
    var c, y := Assign(x, Lit(Int, 1)), Bin(Plus, Lit(Int, 1), Lit(Int, 1));
    TwoFolds();
    assert WellTyped(c) && Agreed(c) && !Constant(c) && Fold(c) == c by { assert Fold(Lit(Int, 1)) == Lit(Int, 1); }
    assert Fold(y) == Lit(Int, 2);
    hide Evaluate;
  }

  lemma BranchReadsLate(E: Env, st: State, x: Var)
    requires x.ts == Int
    ensures var e := Cond(Assign(x, Lit(Int, 1)), Read(x), Bin(Plus, Lit(Int, 1), Lit(Int, 1)));
            Computes(E, st, Compile(e), Int, Done(1, With(st, x, 1)))
  {
    var c, y := Assign(x, Lit(Int, 1)), Bin(Plus, Lit(Int, 1), Lit(Int, 1));
    AssignNumber(E, AsCompiled, st, x, 1);
    SameWord(Int, 1);
    hide CastWord, With, VarWord, Computes, Compile;
    CompileComputes(E, st, Cond(c, Read(x), y));
  }

  lemma TwoFolds()
    ensures var y := Bin(Plus, Lit(Int, 1), Lit(Int, 1));
            WellTyped(y) && Agreed(y) && Constant(y) && Evaluate(y) == Number(Int, 2) && TypeOf(y) == Int
  {}

  // ---------- where folding does change the program ----------

  /** The branch that folding takes, by the condition narrowed to 32 bits. */
  function FoldedBranch(a: Folded, x: Exp, y: Exp): Exp
    requires a.Number? && InType(a.ts, a.v)
  {
    if Convert(Int, a.ts, a.v) != 0 then x else y
  }

  lemma FoldedCond(c: Exp, x: Exp, y: Exp)
    requires WellTyped(Cond(c, x, y)) && Constant(Cond(c, x, y)) && Evaluate(c).Number?
    requires Evaluate(FoldedBranch(Evaluate(c), x, y)).Number?
    ensures var r := Evaluate(FoldedBranch(Evaluate(c), x, y)); Fold(Cond(c, x, y)) == Lit(r.ts, r.v)
  {
    hide InType, Convert;
    var a, e := Evaluate(c), Cond(c, x, y);
    assert Evaluate(e) == Evaluate(FoldedBranch(a, x, y));
  }

  lemma CastValue(E: Env, ord: Order, st: State, to: TS, x: Exp)
    requires Value(E, ord, st, x).Done? && Value(E, ord, st, x).st == st
    ensures Value(E, ord, st, Cast(to, x)) == Done(CastWord(to, TypeOf(x), Value(E, ord, st, x).bits), st)
  {
    hide CastWord;
  }

  lemma CastIs(E: Env, ord: Order, st: State, to: TS, x: Exp)
    ensures Value(E, ord, st, Cast(to, x)) == Casted(to, TypeOf(x), Value(E, ord, st, x))
  {
    hide CastWord, Casted;
  }

  lemma CondValue(E: Env, ord: Order, st: State, c: Exp, x: Exp, y: Exp, v: int)
    requires InType(TypeOf(c), v) && Value(E, ord, st, c) == Done(v % Size(TypeOf(c)), st)
    ensures Value(E, ord, st, Cond(c, x, y)) == Value(E, ord, st, Cast(Common(TypeOf(x), TypeOf(y)), if v != 0 then x else y))
  {
    hide CastWord, TestWord, Common, InType, Value;
    TestMatches(TypeOf(c), v);
    ChosenValue(E, ord, st, c, x, y);
    CastIs(E, ord, st, Common(TypeOf(x), TypeOf(y)), if v != 0 then x else y);
  }

  lemma EvaluatedValue(E: Env, ord: Order, st: State, e: Exp)
    requires WellTyped(e) && Agreed(e) && Evaluate(e).Number?
    ensures TypeOf(e) == Evaluate(e).ts && InType(TypeOf(e), Evaluate(e).v)
    ensures Value(E, ord, st, e) == Value(E, ord, st, Lit(Evaluate(e).ts, Evaluate(e).v)) == Done(Evaluate(e).v % Size(TypeOf(e)), st)
  {
    hide Evaluate, Agreed, InType;
    EvaluateMatches(E, ord, st, e);
  }

  /** Exactly when folding a conditional keeps its type and value: the branch it takes must already have the
      common type, and if narrowing the condition made it zero, both branches must have the same value. */
  lemma CondFoldExact(E: Env, ord: Order, st: State, c: Exp, x: Exp, y: Exp)
    requires WellTyped(Cond(c, x, y)) && Constant(Cond(c, x, y)) && Agreed(c) && Agreed(x) && Agreed(y)
    requires Evaluate(c).Number? && Evaluate(x).Number? && Evaluate(y).Number?
    ensures var e, a, tz := Cond(c, x, y), Evaluate(c), Common(TypeOf(x), TypeOf(y));
            (TypeOf(Fold(e)) == TypeOf(e) && Value(E, ord, st, Fold(e)) == Value(E, ord, st, e)) <==>
            (TypeOf(FoldedBranch(a, x, y)) == tz
             && (a.v == 0 || Convert(Int, a.ts, a.v) != 0 || Value(E, ord, st, Cast(tz, x)) == Value(E, ord, st, Cast(tz, y))))
  {
    hide Evaluate, Fold, Agreed, Value, Common, CastWord, Convert, InType, Constant;
    var a, tz := Evaluate(c), Common(TypeOf(x), TypeOf(y));
    var z := FoldedBranch(a, x, y);
    FoldedCond(c, x, y);
    EvaluatedValue(E, ord, st, c);
    EvaluatedValue(E, ord, st, x);
    EvaluatedValue(E, ord, st, y);
    CondValue(E, ord, st, c, x, y, a.v);
    CastValue(E, ord, st, tz, z);
    SameWord(TypeOf(z), Value(E, ord, st, z).bits);
    ZeroConverts(a.ts);
  }

  /** A conditional takes the type of its chosen branch when folded, the common type when compiled. */
  lemma CondTypeChanges()
    ensures var e := Cond(Lit(Int, 1), Lit(Int, 2), Lit(LLong, 3));
            WellTyped(e) && TypeOf(e) == LLong && TypeOf(Fold(e)) == Int
  {}

  lemma LitValue(E: Env, ord: Order, st: State, ts: TS, v: int)
    requires InType(ts, v)
    ensures Value(E, ord, st, Lit(ts, v)) == Done(v % Size(ts), st)
  {
    hide InType;
  }

  lemma CondNarrowed()
    ensures var e := Cond(Lit(LLong, 0x1_0000_0000), Lit(Int, 1), Lit(Int, 2)); WellTyped(e) && Fold(e) == Lit(Int, 2)
  {}

  /** A 64-bit condition is narrowed to 32 bits when folded, compared to zero when compiled. */
  lemma CondNarrows(E: Env, ord: Order, st: State)
    ensures var e := Cond(Lit(LLong, 0x1_0000_0000), Lit(Int, 1), Lit(Int, 2));
            WellTyped(e) && Fold(e) == Lit(Int, 2) && Value(E, ord, st, e) == Done(1, st)
  {
    hide CastWord, TestWord;
    var c, x := Lit(LLong, 0x1_0000_0000), Lit(Int, 1);
    LitValue(E, ord, st, LLong, 0x1_0000_0000);
    LitValue(E, ord, st, Int, 1);
    hide Value;
    CondValue(E, ord, st, c, x, Lit(Int, 2), 0x1_0000_0000);
    CastIs(E, ord, st, Int, x);
    SameWord(Int, 1);
    CondNarrowed();
    hide Fold, WellTyped;
  }
}
