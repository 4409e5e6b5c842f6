/** Operations on constants at compile time, against the WebAssembly instructions for them. */
module FoldOps {
  import opened Arith
  import opened IntTypes

  /** A folded number, no folding, or a host operation whose result C leaves open. */
  datatype Folded = Number(ts: TS, v: int) | NotConstant | Open(ts: TS)

  datatype UnOp = UPlus | UMinus | UTilde | UNot

  function NumUnop(op: UnOp, tx: TS, x: int): (r: Folded)
    requires InType(tx, x)
    ensures r.Number? && InType(r.ts, r.v)
  {
    var tz := Promote(tx);
    var v := Convert(tz, tx, x);
    match op
    case UPlus => Number(tz, Reduce(tz, v))
    case UMinus => Number(tz, Reduce(tz, -v))
    case UTilde => Number(tz, Reduce(tz, -v - 1))
    case UNot => Number(Int, Truth(v == 0))
  }

  function NumBinop(op: BinOp, tx: TS, x: int, ty: TS, y: int): (r: Folded)
    requires InType(tx, x) && InType(ty, y)
    ensures r.Number? ==> InType(r.ts, r.v)
  {
    var tz := Common(tx, ty);
    OnType(op, tz, Convert(tz, tx, x), Convert(tz, ty, y))
  }

  /** The operation in the common type. Operands are wrapped to 64 bits as the host does;
      every type's modulus divides 2^64. */
  function OnType(op: BinOp, tz: TS, a: int, b: int): (r: Folded)
    requires Promoted(tz) && InType(tz, a) && InType(tz, b)
    ensures r.Number? ==> InType(r.ts, r.v)
  {
    match op
    case Plus => Number(tz, Reduce(tz, a + b))
    case Minus => Number(tz, Reduce(tz, a - b))
    case Star => Number(tz, Reduce(tz, a * b))
    case And => Number(tz, Reduce(tz, Bits(op, a % M64, b % M64, 64)))
    case Or => Number(tz, Reduce(tz, Bits(op, a % M64, b % M64, 64)))
    case Xor => Number(tz, Reduce(tz, Bits(op, a % M64, b % M64, 64)))
    case Slash => if b == 0 then NotConstant else if HostOverflow(tz, a, b) then Open(tz) else Number(tz, Reduce(tz, TruncDiv(a, b)))
    case Rem => if b == 0 then NotConstant else if HostOverflow(tz, a, b) then Open(tz) else Number(tz, Reduce(tz, TruncRem(a, b)))
    case Shl => if 0 <= b < 64 then Number(tz, Reduce(tz, a * Pow2(b))) else Open(tz)
    case Shr => if 0 <= b < 64 then Number(tz, Reduce(tz, FloorDiv(a, Pow2(b)))) else Open(tz)
    case _ => Number(Int, Truth(Compare(op, a, b)))
  }

  /** The smallest 64-bit number divided by -1 overflows on the host. */
  predicate HostOverflow(ts: TS, a: int, b: int) {
    ts == LLong && a == -(M64 as int) / 2 && b == -1
  }

  /** When folding and running are tied to each other: shift counts below the width of the type,
      and no quotient that the type cannot represent. */
  predicate Tied(op: BinOp, tz: TS, a: int, b: int) {
    match op
    case Shl => 0 <= b < WordBits(Wide(tz))
    case Shr => 0 <= b < WordBits(Wide(tz))
    case Slash => !(!Unsigned(tz) && a == -(WordModulus(tz) as int) / 2 && b == -1)
    case Rem => !HostOverflow(tz, a, b)
    case _ => true
  }

  // ---------- operators on promoted operands ----------

  function Word(ts: TS, v: int): nat { v % WordModulus(ts) }

  lemma WordSizeIs(ts: TS)
    ensures WordModulus(ts) == WordSize(Wide(ts))
  {}

  lemma SumMatches(tz: TS, a: int, b: int)
    requires Promoted(tz)
    ensures (Word(tz, a) + Word(tz, b)) % WordModulus(tz) == Word(tz, Reduce(tz, a + b))
    ensures (Word(tz, a) - Word(tz, b)) % WordModulus(tz) == Word(tz, Reduce(tz, a - b))
  {
    ReduceWord(tz, a + b);
    ReduceWord(tz, a - b);
    ModSum(a, b, WordModulus(tz));
    hide Reduce, WordModulus;
  }

  lemma ProductMatches(tz: TS, a: int, b: int)
    requires Promoted(tz)
    ensures (Word(tz, a) * Word(tz, b)) % WordModulus(tz) == Word(tz, Reduce(tz, a * b))
  {
    hide Reduce;
    ReduceWord(tz, a * b);
    ModProduct(a, b, WordModulus(tz));
  }

  /** The operands as the instruction reads them. */
  lemma OperandsAre(tz: TS, a: int)
    requires Promoted(tz) && InType(tz, a)
    ensures (if !Unsigned(tz) then SignedWord(WordModulus(tz), Word(tz, a)) else Word(tz, a)) == a
  {
    SignedWordOf(tz, a);
  }

  lemma QuotientMatches(tz: TS, op: BinOp, a: int, b: int)
    requires Promoted(tz) && InType(tz, a) && InType(tz, b) && (op == Slash || op == Rem) && b != 0 && Tied(op, tz, a, b)
    ensures WordOp(op, !Unsigned(tz), Wide(tz), Word(tz, a), Word(tz, b))
            == (true, Word(tz, Reduce(tz, if op == Slash then TruncDiv(a, b) else TruncRem(a, b))))
  {
    OperandsAre(tz, a);
    OperandsAre(tz, b);
    WordSizeIs(tz);
    ReduceWord(tz, TruncDiv(a, b));
    ReduceWord(tz, TruncRem(a, b));
    hide Reduce, TruncDiv, TruncRem, Word, SignedWord;
  }

  lemma Mod64Then(ts: TS, v: int)
    ensures v % M64 % WordModulus(ts) == v % WordModulus(ts)
  {
    if !Wide(ts) {
      assert v == v % M64 + M32 * (M32 * (v / M64));
      ModShift(v % M64, M32 * (v / M64), M32);
    }
  }

  lemma CountWord(tz: TS, b: int)
    requires 0 <= b < WordBits(Wide(tz))
    ensures Word(tz, b) % WordBits(Wide(tz)) == b
  {}

  lemma LeftShiftMatches(tz: TS, a: int, b: int)
    requires Promoted(tz) && 0 <= b < WordBits(Wide(tz))
    ensures Word(tz, b) % WordBits(Wide(tz)) == b
    ensures (Word(tz, a) * Pow2(b)) % WordModulus(tz) == Word(tz, Reduce(tz, a * Pow2(b)))
  {
    CountWord(tz, b);
    hide Reduce, Pow2;
    ReduceWord(tz, a * Pow2(b));
    ScaleMod(a, Pow2(b), WordModulus(tz));
  }

  lemma ScaleMod(a: int, p: nat, m: nat)
    requires m == M32 || m == M64
    ensures ((a % m) * p) % m == (a * p) % m
  {
    var q := a / m;
    assert a == a % m + m * q;
    ScaleSum(a % m, m, q, p);
    ModShift((a % m) * p, q * p, m);
  }

  lemma ScaleSum(r: int, m: int, q: int, p: int)
    ensures (r + m * q) * p == r * p + m * (q * p)
  {}

  lemma RightShiftMatches(tz: TS, a: int, b: int)
    requires Promoted(tz) && InType(tz, a) && InType(tz, b) && 0 <= b < WordBits(Wide(tz))
    ensures WordOp(Shr, !Unsigned(tz), Wide(tz), Word(tz, a), Word(tz, b))
            == (true, Word(tz, Reduce(tz, FloorDiv(a, Pow2(b)))))
  {
    OperandsAre(tz, a);
    WordSizeIs(tz);
    LeftShiftMatches(tz, a, b);
    ReduceWord(tz, FloorDiv(a, Pow2(b)));
    hide Reduce, FloorDiv, Word, SignedWord, Pow2;
  }

  lemma CompareMatches(op: BinOp, tz: TS, a: int, b: int)
    requires Promoted(tz) && InType(tz, a) && InType(tz, b) && Comparison(op)
    ensures WordOp(op, !Unsigned(tz), Wide(tz), Word(tz, a), Word(tz, b)) == (true, Word(Int, Truth(Compare(op, a, b))))
  {
    OperandsAre(tz, a);
    OperandsAre(tz, b);
    WordSizeIs(tz);
    EqualityOnWords(tz, a, b);
    hide Word, SignedWord, Reduce;
    TruthWord(Compare(op, a, b));
  }

  lemma TruthWord(b: bool)
    ensures Word(Int, Truth(b)) == Truth(b)
  {}

  lemma EqualityOnWords(tz: TS, a: int, b: int)
    requires Promoted(tz) && InType(tz, a) && InType(tz, b)
    ensures Word(tz, a) == Word(tz, b) <==> a == b
  {
    OperandsAre(tz, a);
    OperandsAre(tz, b);
  }

  // ---------- bitwise operations ----------

  lemma {:induction false} BitsLow(op: BinOp, a: nat, b: nat, n: nat, k: nat)
    requires (op == And || op == Or || op == Xor) && k <= n
    ensures Bits(op, a, b, n) % Pow2(k) == Bits(op, a, b, k)
    decreases k
  {
    if k > 0 {
      BitsLow(op, a / 2, b / 2, n - 1, k - 1);
      DoubleMod(BitOp(op, a % 2, b % 2), Bits(op, a / 2, b / 2, n - 1), Pow2(k - 1));
      hide BitOp;
    }
  }

  lemma DoubleMod(bit: int, r: nat, p: nat)
    requires 0 <= bit < 2 && p >= 1
    ensures (bit + 2 * r) % (2 * p) == bit + 2 * (r % p)
  {
    var q := r / p;
    assert r == p * q + r % p;
    var x := bit + 2 * (r % p);
    assert bit + 2 * r == q * (2 * p) + x;
    Remainder(bit + 2 * r, q, 2 * p, x);
  }

  lemma {:induction false} BitsOfLow(op: BinOp, a: nat, b: nat, k: nat)
    requires (op == And || op == Or || op == Xor)
    ensures Bits(op, a % Pow2(k), b % Pow2(k), k) == Bits(op, a, b, k)
    decreases k
  {
    if k > 0 {
      HalfMod(a, Pow2(k - 1));
      HalfMod(b, Pow2(k - 1));
      BitsOfLow(op, a / 2, b / 2, k - 1);
    }
  }

  lemma HalfMod(a: nat, p: nat)
    requires p >= 1
    ensures a % (2 * p) % 2 == a % 2 && a % (2 * p) / 2 == a / 2 % p
  {
    DoubleMod(a % 2, a / 2, p);
  }

  lemma PowersOfTwo()
    ensures Pow2(32) == M32 && Pow2(64) == M64
  {
    assert Pow2(8) == M8;
    hide Pow2;
    Pow2Add(8, 8);
    Pow2Add(16, 16);
    Pow2Add(32, 32);
  }

  lemma {:induction false} Pow2Add(a: nat, b: nat)
    ensures Pow2(a + b) == Pow2(a) * Pow2(b)
    decreases a
  {
    if a > 0 { Pow2Add(a - 1, b); }
  }

  lemma BitwiseMatches(op: BinOp, tz: TS, a: int, b: int)
    requires Promoted(tz) && (op == And || op == Or || op == Xor)
    ensures Bits(op, Word(tz, a), Word(tz, b), WordBits(Wide(tz)))
            == Word(tz, Reduce(tz, Bits(op, a % M64, b % M64, 64)))
  {
    hide Bits, Pow2, Reduce;
    var x, y, k := a % M64, b % M64, WordBits(Wide(tz));
    var z := Bits(op, x, y, 64);
    WordIs(tz, a);
    WordIs(tz, b);
    assert Word(tz, Reduce(tz, z)) == z % Pow2(k) by { PowersOfTwo(); ReduceWord(tz, z); }
    hide Word;
    BitsLow(op, x, y, 64, k);
    BitsOfLow(op, x, y, k);
  }

  lemma WordIs(tz: TS, a: int)
    ensures Word(tz, a) == a % M64 % Pow2(WordBits(Wide(tz)))
  {
    PowersOfTwo();
    Mod64Then(tz, a);
    hide Pow2;
  }

  ghost predicate Matches(op: BinOp, tz: TS, a: int, b: int)
    requires Promoted(tz) && InType(tz, a) && InType(tz, b)
  {
    var r := OnType(op, tz, a, b);
    && r.Number? && r.ts == (if Comparison(op) then Int else tz)
    && WordOp(op, !Unsigned(tz), Wide(tz), Word(tz, a), Word(tz, b)) == (true, Word(r.ts, r.v))
  }

  lemma ArithmeticMatches(op: BinOp, tz: TS, a: int, b: int)
    requires Promoted(tz) && InType(tz, a) && InType(tz, b) && (op == Plus || op == Minus || op == Star)
    ensures Matches(op, tz, a, b)
  {
    hide Reduce, Word, WordModulus;
    WordSizeIs(tz);
    SumMatches(tz, a, b);
    ProductMatches(tz, a, b);
  }

  predicate Logic(op: BinOp) { op.And? || op.Or? || op.Xor? }

  lemma OnTypeLogic(op: BinOp, tz: TS, a: int, b: int)
    requires Promoted(tz) && InType(tz, a) && InType(tz, b) && Logic(op)
    ensures OnType(op, tz, a, b) == Number(tz, Reduce(tz, Bits(op, a % M64, b % M64, 64)))
  {
    hide Reduce, Bits, Pow2;
  }

  lemma WordOpLogic(op: BinOp, signed: bool, wide: bool, x: nat, y: nat)
    requires Logic(op)
    ensures WordOp(op, signed, wide, x, y) == (true, Bits(op, x, y, WordBits(wide)))
  {
    hide Bits, Pow2, SignedWord;
  }

  lemma LogicMatches(op: BinOp, tz: TS, a: int, b: int)
    requires Promoted(tz) && InType(tz, a) && InType(tz, b) && Logic(op)
    ensures Matches(op, tz, a, b)
  {
    hide OnType, WordOp, Reduce, Bits, Word, Pow2;
    BitwiseMatches(op, tz, a, b);
    OnTypeLogic(op, tz, a, b);
    WordOpLogic(op, !Unsigned(tz), Wide(tz), Word(tz, a), Word(tz, b));
  }

  lemma ShiftMatches(op: BinOp, tz: TS, a: int, b: int)
    requires Promoted(tz) && InType(tz, a) && InType(tz, b) && (op == Shl || op == Shr) && 0 <= b < WordBits(Wide(tz))
    ensures Matches(op, tz, a, b)
  {
    hide Reduce, Word, WordModulus, Pow2, FloorDiv;
    WordSizeIs(tz);
    if op == Shl {
      LeftShiftMatches(tz, a, b);
    } else {
      RightShiftMatches(tz, a, b);
      hide WordOp;
    }
  }

  /** The operation in a promoted type, folded and run. */
  lemma OnTypeMatches(op: BinOp, tz: TS, a: int, b: int)
    requires Promoted(tz) && InType(tz, a) && InType(tz, b) && Tied(op, tz, a, b)
    requires OnType(op, tz, a, b) != NotConstant
    ensures Matches(op, tz, a, b)
  {
    hide Reduce, Word, WordModulus, WordOp, TruncDiv, TruncRem, Compare, Bits, FloorDiv, Pow2;
    if (op == Plus || op == Minus || op == Star) {
      ArithmeticMatches(op, tz, a, b);
    } else if (op == And || op == Or || op == Xor) {
      LogicMatches(op, tz, a, b);
    } else if (op == Slash || op == Rem) {
      QuotientMatches(tz, op, a, b);
      OverflowTied(op, tz, a, b);
    } else if (op == Shl || op == Shr) {
      ShiftMatches(op, tz, a, b);
    } else {
      CompareMatches(op, tz, a, b);
    }
  }

  lemma OverflowTied(op: BinOp, tz: TS, a: int, b: int)
    requires (op == Slash || op == Rem) && Tied(op, tz, a, b)
    ensures !HostOverflow(tz, a, b)
  {}

  /** A folded shift by `b` agrees with the instruction for every operand exactly when `b` is below the width of the
      type, but for one more: a right shift by 63 of a signed 32-bit type, which leaves the sign either way. */
  lemma ShiftFoldExact(op: BinOp, tz: TS, b: int)
    requires (op == Shl || op == Shr) && Promoted(tz) && InType(tz, b)
    ensures 0 <= b < WordBits(Wide(tz)) || (op == Shr && b == 63 && (tz == Int || tz == Long))
            <==> forall a :: InType(tz, a) ==> Matches(op, tz, a, b)
  {
    hide Matches, InType;
    if 0 <= b < WordBits(Wide(tz)) {
      forall a | InType(tz, a)
        ensures Matches(op, tz, a, b)
      {
        ShiftMatches(op, tz, a, b);
      }
    } else if op == Shr && b == 63 && (tz == Int || tz == Long) {
      forall a | InType(tz, a)
        ensures Matches(op, tz, a, b)
      {
        SignShiftMatches(tz, a);
      }
    } else {
      var a := ShiftWitness(op, tz);
      assert InType(tz, a) by { WitnessInType(op, tz); }
      if b < 0 || b >= 64 {
        OutOfRange(op, tz, a, b);
      } else if op == Shl {
        OneShiftedOut(tz, b);
      } else {
        MostShiftedOut(tz, b);
      }
    }
  }

  function ShiftWitness(op: BinOp, tz: TS): int {
    if op == Shl then 1 else if Unsigned(tz) then M32 - 1 else M32 / 2 - 1
  }

  lemma WitnessInType(op: BinOp, tz: TS)
    requires Promoted(tz)
    ensures InType(tz, ShiftWitness(op, tz))
  {}

  /** The host leaves such counts open. */
  lemma OutOfRange(op: BinOp, tz: TS, a: int, b: int)
    requires (op == Shl || op == Shr) && Promoted(tz) && InType(tz, a) && InType(tz, b) && (b < 0 || b >= 64)
    ensures !Matches(op, tz, a, b)
  {
    hide WordOp, Pow2;
  }

  lemma SignShifts(a: int)
    requires InType(Int, a)
    ensures FloorDiv(a, Pow2(63)) == FloorDiv(a, Pow2(31)) == if a < 0 then -1 else 0
  {
    PowersOfTwo();
    HalfPowers();
    Pow2Below(31, 63);
    hide Pow2, FloorDiv;
    if a < 0 {
      QuotientMinus(a, Pow2(63));
      QuotientMinus(a, Pow2(31));
    } else {
      QuotientSmall(a, Pow2(63));
      QuotientSmall(a, Pow2(31));
    }
  }

  lemma QuotientMinus(a: int, p: nat)
    requires p >= 1 && a < 0 <= a + p
    ensures FloorDiv(a, p) == -1
  {
    Remainder(a, -1, p, a + p);
  }

  /** Shifting right by 63 on the host and by 63 modulo 32 on the target both leave the sign. */
  lemma SignShiftMatches(tz: TS, a: int)
    requires (tz == Int || tz == Long) && InType(tz, a)
    ensures InType(tz, 63) && Matches(Shr, tz, a, 63)
  {
    hide Pow2, FloorDiv, Reduce, SignedWord;
    SignShifts(a);
    OperandsAre(tz, a);
    ReduceWord(tz, FloorDiv(a, Pow2(63)));
    assert Word(tz, 63) % 32 == 31;
  }

  lemma RightShifted(tz: TS, a: int, b: int)
    requires Promoted(tz) && !Wide(tz) && InType(tz, a) && InType(tz, b) && 32 <= b < 64
    ensures OnType(Shr, tz, a, b) == Number(tz, Reduce(tz, FloorDiv(a, Pow2(b))))
    ensures WordOp(Shr, !Unsigned(tz), false, Word(tz, a), Word(tz, b)) == (true, FloorDiv(a, Pow2(b - 32)) % M32)
  {
    hide Pow2, FloorDiv, Reduce, SignedWord;
    OperandsAre(tz, a);
    CountModulo(b - 32);
    assert Word(tz, b) == b;
  }

  /** Shifting the greatest number right by the width or more: folding gives 0, the instruction does not. */
  lemma MostShiftedOut(tz: TS, b: int)
    requires Promoted(tz) && !Wide(tz) && InType(tz, b) && 32 <= b < 64 && (Unsigned(tz) || b < 63)
    ensures InType(tz, ShiftWitness(Shr, tz)) && !Matches(Shr, tz, ShiftWitness(Shr, tz), b)
  {
    hide Pow2, OnType, WordOp, Word, Reduce, InType, FloorDiv;
    var a := ShiftWitness(Shr, tz);
    WitnessInType(Shr, tz);
    RightShifted(tz, a, b);
    PowerBounds(b);
    QuotientSmall(a, Pow2(b));
    QuotientLarge(a, Pow2(b - 32));
    ZeroWord(tz);
  }

  lemma ZeroWord(tz: TS)
    requires Promoted(tz)
    ensures Word(tz, Reduce(tz, 0)) == 0
  {
    ReduceWord(tz, 0);
    hide Reduce;
  }

  lemma PowerBounds(b: nat)
    requires 32 <= b < 64
    ensures Pow2(b) >= M32 && Pow2(b - 32) <= M32 / 2 && (b < 63 ==> Pow2(b - 32) <= M32 / 4)
  {
    PowersOfTwo();
    HalfPowers();
    hide Pow2;
    if b > 32 { Pow2Below(32, b); }
    if b - 32 < 31 { Pow2Below(b - 32, 31); }
    if b - 32 < 30 { Pow2Below(b - 32, 30); }
  }

  lemma HalfPowers()
    ensures Pow2(32) == 2 * Pow2(31) && Pow2(31) == 2 * Pow2(30)
  {}

  lemma QuotientSmall(a: int, p: nat)
    requires 0 <= a < p
    ensures FloorDiv(a, p) == 0
  {}

  lemma QuotientLarge(a: int, p: nat)
    requires 1 <= p <= a < M32
    ensures 0 < FloorDiv(a, p) < M32
  {}

  /** A folded quotient or remainder agrees with the instruction exactly when the two are tied. */
  lemma QuotientFoldExact(op: BinOp, tz: TS, a: int, b: int)
    requires (op == Slash || op == Rem) && Promoted(tz) && InType(tz, a) && InType(tz, b) && b != 0
    ensures Matches(op, tz, a, b) <==> Tied(op, tz, a, b)
  {
    if Tied(op, tz, a, b) {
      QuotientMatches(tz, op, a, b);
      OverflowTied(op, tz, a, b);
      hide Reduce, TruncDiv, TruncRem, WordOp;
    } else {
      OperandsAre(tz, a);
      OperandsAre(tz, b);
      hide Reduce, TruncDiv, TruncRem, Word, SignedWord;
      WordSizeIs(tz);
    }
  }

  /** The least `int` divided by -1 folds to itself; the instruction traps. */
  lemma QuotientFoldFails()
    ensures var m := -(M32 as int) / 2;
            InType(Int, m) && OnType(Slash, Int, m, -1) == Number(Int, m) && !Matches(Slash, Int, m, -1)
  {
    QuotientFoldExact(Slash, Int, -(M32 as int) / 2, -1);
  }

  /** `2 >> 33` folds to 0; the instruction gives 1. */
  lemma ShiftFoldFails()
    ensures OnType(Shr, Int, 2, 33) == Number(Int, 0) && WordOp(Shr, true, false, Word(Int, 2), Word(Int, 33)) == (true, 1)
  {
    hide Pow2, WordOp, OnType, Word, Reduce, FloorDiv;
    RightShifted(Int, 2, 33);
    TwoShifted();
  }

  lemma TwoShifted()
    ensures Reduce(Int, FloorDiv(2, Pow2(33))) == 0 && FloorDiv(2, Pow2(33 - 32)) % M32 == 1
  {
    PowersOfTwo();
    Pow2Below(32, 33);
    PowerOne();
    hide Pow2, Reduce;
    QuotientSmall(2, Pow2(33));
    ZeroReduced();
  }

  lemma ZeroReduced()
    ensures Reduce(Int, 0) == 0
  {}

  lemma PowerOne()
    ensures Pow2(1) == 2
  {}

  lemma HighPowerWord(tz: TS, k: nat)
    requires Promoted(tz) && !Wide(tz)
    ensures Word(tz, Reduce(tz, Pow2(32 + k))) == 0
  {
    PowersOfTwo();
    Pow2Add(32, k);
    ReduceWord(tz, Pow2(32 + k));
    hide Pow2, Reduce;
    ModShift(0, Pow2(k), M32);
  }

  lemma LowPowerWord(k: nat)
    requires k < 32
    ensures Pow2(k) % M32 == Pow2(k)
  {
    PowersOfTwo();
    Pow2Below(k, 32);
    hide Pow2;
  }

  /** The shift instruction takes the count modulo 32. */
  lemma ShiftedOne(signed: bool, k: nat)
    requires k < 32
    ensures WordOp(Shl, signed, false, 1, k + 32) == (true, Pow2(k))
  {
    hide Pow2, SignedWord;
    LowPowerWord(k);
    CountModulo(k);
    assert 1 * Pow2(k) == Pow2(k);
  }

  lemma CountModulo(k: nat)
    requires k < 32
    ensures (k + 32) % 32 == k
  {}

  lemma SmallWords(tz: TS, b: nat)
    requires (tz == Int || tz == UInt || tz == Long || tz == ULong) && 32 <= b < 64
    ensures InType(tz, 1) && InType(tz, b) && Word(tz, 1) == 1 && Word(tz, b) == b
    ensures OnType(Shl, tz, 1, b) == Number(tz, Reduce(tz, 1 * Pow2(b)))
  {
    hide Pow2, Reduce;
  }

  /** Shifting 1 by the width or more: folding gives 0, the instruction 1 shifted by the count modulo 32. */
  lemma OneShiftedOut(tz: TS, b: nat)
    requires (tz == Int || tz == UInt || tz == Long || tz == ULong) && 32 <= b < 64
    ensures InType(tz, 1) && InType(tz, b) && !Matches(Shl, tz, 1, b)
  {
    SmallWords(tz, b);
    HighPowerWord(tz, b - 32);
    ShiftedOne(!Unsigned(tz), b - 32);
    hide Pow2, Reduce, OnType, Word, InType, WordOp;
  }

  lemma {:induction false} Pow2Below(k: nat, n: nat)
    requires k < n
    ensures Pow2(k) < Pow2(n)
  {
    if k < n - 1 { Pow2Below(k, n - 1); }
  }
}
