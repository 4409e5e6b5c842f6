/** What the folded operators and the instructions they are compiled to compute, told without the functions they share. */
module FoldMeaning {
  import opened Arith
  import opened IntTypes
  import opened FoldOps

  /** The values of the types. */
  lemma TypeRanges(v: int)
    ensures InType(Bool, v) <==> 0 <= v <= 1
    ensures InType(Char, v) <==> -128 <= v <= 127
    ensures InType(UChar, v) <==> 0 <= v <= 255
    ensures InType(Short, v) <==> -32768 <= v <= 32767
    ensures InType(UShort, v) <==> 0 <= v <= 65535
    ensures forall ts :: ts in {Int, Long} ==> (InType(ts, v) <==> -2147483648 <= v <= 2147483647)
    ensures forall ts :: ts in {UInt, ULong} ==> (InType(ts, v) <==> 0 <= v <= 4294967295)
    ensures InType(LLong, v) <==> -9223372036854775808 <= v <= 9223372036854775807
    ensures InType(ULLong, v) <==> 0 <= v <= 18446744073709551615
  {}

  /** The number of values of a type. */
  function Values(ts: TS): (n: nat)
    ensures n > 0
  {
    if ts == Bool then 2
    else if ts in {Char, UChar} then 256
    else if ts in {Short, UShort} then 65536
    else if ts in {LLong, ULLong} then 18446744073709551616
    else 4294967296
  }

  /** Converting gives the one value of the type that differs by a multiple of the number of its values, or for `Bool` whether
      the value is not 0. */
  lemma ConvertMeans(to: TS, from: TS, v: int)
    requires InType(from, v)
    ensures var r := Convert(to, from, v);
            InType(to, r) && if to == Bool then (r == 0 <==> v == 0) else (v - r) % Values(to) == 0
  {
    if to != Bool && to != from {
      var m := Modulus(to);
      ReduceStep(to, v);
      hide Reduce, Modulus, InType;
    }
  }

  lemma ReduceStep(to: TS, v: int)
    requires to != Bool
    ensures (v - Reduce(to, v)) % Values(to) == 0
  {
    var m := Modulus(to);
    var q, low := v / m, v % m;
    assert Values(to) == m;
    assert Reduce(to, v) == low || Reduce(to, v) == low - m;
    hide Reduce, Modulus;
    Multiple(v, q, m, low);
  }

  lemma Multiple(v: int, q: int, m: nat, low: int)
    requires (m == M8 || m == M16 || m == M32 || m == M64) && q == v / m && low == v % m
    ensures (v - low) % m == 0 && (v - (low - m)) % m == 0
  {
    assert v - low == m * q && v - (low - m) == m * (q + 1);
    ModZero(q, m);
    ModZero(q + 1, m);
  }

  lemma ModZero(q: int, m: nat)
    requires m == M8 || m == M16 || m == M32 || m == M64
    ensures (m * q) % m == 0
  {}

  /** The types that arithmetic is done in, in the order in which one of two operands' is chosen. */
  const Ranks: seq<TS> := [Int, UInt, Long, ULong, LLong, ULLong]

  /** Smaller types are promoted to `int`; of two promoted types the later in the order is taken. */
  lemma CommonIs(a: TS, b: TS, i: nat, j: nat)
    requires i < 6 && j < 6
    requires Ranks[i] == (if a in Ranks then a else Int) && Ranks[j] == (if b in Ranks then b else Int)
    ensures Promote(a) == Ranks[i] && Common(a, b) == Ranks[if i < j then j else i]
  {}

  // ---------- division ----------

  /** `q` and `r` are the quotient rounded towards 0 and what it leaves. */
  predicate Truncated(x: int, y: int, q: int, r: int) {
    && x == y * q + r
    && (if y > 0 then -y < r < y else y < r < -y)
    && (r > 0 ==> x > 0) && (r < 0 ==> x < 0)
  }

  lemma TruncIs(x: int, y: int) returns (a: nat, b: nat, q: int, r: int)
    requires y != 0
    ensures a == (if x >= 0 then x else -x) && b == (if y > 0 then y else -y) && a == b * q + r && 0 <= q && 0 <= r < b
    ensures TruncDiv(x, y) == if (x >= 0) == (y > 0) then q else -q
    ensures TruncRem(x, y) == if x >= 0 then r else -r
  {
    a, b := if x >= 0 then x else -x, if y > 0 then y else -y;
    q, r := a / b, a % b;
    Pieces(a, b, q, r);
    DivSigned(x, y);
    hide TruncDiv;
    Signs(b, q);
  }

  lemma Pieces(a: nat, b: nat, q: int, r: int)
    requires b > 0 && q == a / b && r == a % b
    ensures a == b * q + r && 0 <= q && 0 <= r < b
  {}

  lemma DivSigned(x: int, y: int)
    requires y != 0
    ensures var a, b := if x >= 0 then x else -x, if y > 0 then y else -y;
            TruncDiv(x, y) == if (x >= 0) == (y > 0) then a / b else -(a / b)
  {}

  lemma TruncMeans(x: int, y: int)
    requires y != 0
    ensures Truncated(x, y, TruncDiv(x, y), TruncRem(x, y))
  {
    var a, b, q, r := TruncIs(x, y);
    hide TruncDiv, TruncRem;
    Signs(b, q);
  }

  lemma Signs(b: int, q: int)
    ensures b * -q == -(b * q) && -b * q == -(b * q) && -b * -q == b * q
  {}

  lemma QuotientSize(x: int, y: int)
    requires y != 0
    ensures var q, r := TruncDiv(x, y), TruncRem(x, y);
            var a := if x >= 0 then x else -x;
            -a <= q <= a && -a <= r <= a && (y != -1 && x < 0 ==> q < a) && (x >= 0 && y > 0 ==> 0 <= q && 0 <= r)
  {
    var a, b, q, r := TruncIs(x, y);
    hide TruncDiv, TruncRem;
    SizeOf(a, b, q, r);
  }

  lemma SizeOf(a: nat, b: nat, q: int, r: nat)
    requires b > 0 && a == b * q + r && r < b && q >= 0
    ensures q <= a && r <= a && (b >= 2 && a > 0 ==> q < a)
  {
    assert b * q >= q;
    if b >= 2 { assert b * q >= 2 * q; }
  }

  /** A quotient of two values of a type that is not the overflowing one is a value of the type, and so is the remainder. */
  lemma QuotientFits(tz: TS, x: int, y: int)
    requires Promoted(tz) && InType(tz, x) && InType(tz, y) && y != 0 && !(!Unsigned(tz) && x == -(WordModulus(tz) as int) / 2 && y == -1)
    ensures InType(tz, TruncDiv(x, y)) && InType(tz, TruncRem(x, y))
  {
    hide TruncDiv, TruncRem, InType;
    QuotientSize(x, y);
    TruncMeans(x, y);
    InRange(tz, x);
    InRange(tz, y);
    InRange(tz, TruncDiv(x, y));
    InRange(tz, TruncRem(x, y));
    Fits(WordModulus(tz), Unsigned(tz), x, y, TruncDiv(x, y), TruncRem(x, y));
  }

  lemma Fits(m: nat, unsigned: bool, x: int, y: int, q: int, r: int)
    requires (m == M32 || m == M64) && y != 0 && !(!unsigned && x == -(m as int) / 2 && y == -1)
    requires if unsigned then 0 <= x < m && 0 <= y < m else -(m as int) / 2 <= x < m / 2 && -(m as int) / 2 <= y < m / 2
    requires var a := if x >= 0 then x else -x;
             -a <= q <= a && -a <= r <= a && (y != -1 && x < 0 ==> q < a) && (x >= 0 && y > 0 ==> 0 <= q && 0 <= r)
    requires r == 0 || (r > 0 <==> x > 0)
    ensures if unsigned then 0 <= q < m && 0 <= r < m else -(m as int) / 2 <= q < m / 2 && -(m as int) / 2 <= r < m / 2
  {}

  lemma InRange(tz: TS, v: int)
    requires Promoted(tz)
    ensures InType(tz, v) <==> if Unsigned(tz) then 0 <= v < WordModulus(tz) else -(WordModulus(tz) as int) / 2 <= v < WordModulus(tz) / 2
  {}

  lemma ReducedSame(tz: TS, v: int)
    requires Promoted(tz) && InType(tz, v)
    ensures Reduce(tz, v) == v
  {}

  /** Folded quotients and remainders of the common type: truncated, in every type, outside the overflowing pair. */
  lemma QuotientFolds(tz: TS, x: int, y: int)
    requires Promoted(tz) && InType(tz, x) && InType(tz, y) && y != 0 && !(!Unsigned(tz) && x == -(WordModulus(tz) as int) / 2 && y == -1)
    ensures var q, r := OnType(Slash, tz, x, y), OnType(Rem, tz, x, y);
            && q.Number? && r.Number? && q.ts == tz && r.ts == tz
            && Truncated(x, y, q.v, r.v)
  {
    QuotientFits(tz, x, y);
    TruncMeans(x, y);
    ReducedSame(tz, TruncDiv(x, y));
    ReducedSame(tz, TruncRem(x, y));
    assert HostOverflow(tz, x, y) ==> WordModulus(tz) == M64 && !Unsigned(tz);
    hide TruncDiv, TruncRem, Reduce, Truncated, InType;
  }

  /** So for operands of any types, converted to the common one. */
  lemma QuotientsFolded(tx: TS, x: int, ty: TS, y: int)
    requires InType(tx, x) && InType(ty, y)
    ensures var tz := Common(tx, ty);
            var a, b := Convert(tz, tx, x), Convert(tz, ty, y);
            var q, r := NumBinop(Slash, tx, x, ty, y), NumBinop(Rem, tx, x, ty, y);
            b != 0 && !(!Unsigned(tz) && a == -(WordModulus(tz) as int) / 2 && b == -1) ==>
              q.Number? && r.Number? && q.ts == tz && r.ts == tz && Truncated(a, b, q.v, r.v)
  {
    var tz := Common(tx, ty);
    var a, b := Convert(tz, tx, x), Convert(tz, ty, y);
    hide Common, Convert, OnType, Truncated, InType;
    if b != 0 && !(!Unsigned(tz) && a == -(WordModulus(tz) as int) / 2 && b == -1) { QuotientFolds(tz, a, b); }
  }

  /** Folded unary operators: the promoted value, its negative or the negative less one in the promoted type, or whether it
      is 0. */
  lemma UnaryFolds(op: UnOp, tx: TS, x: int)
    requires InType(tx, x)
    ensures var tz, r := Promote(tx), NumUnop(op, tx, x);
            var v := Convert(tz, tx, x);
            match op
            case UPlus => r == Number(tz, v)
            case UMinus => r.ts == tz && InType(tz, r.v) && (r.v + v) % Values(tz) == 0
            case UTilde => r.ts == tz && InType(tz, r.v) && (r.v + v + 1) % Values(tz) == 0
            case UNot => r == Number(Int, if v == 0 then 1 else 0)
  {
    var tz := Promote(tx);
    var v := Convert(tz, tx, x);
    ReducedSame(tz, v);
    ReduceStep(tz, -v);
    ReduceStep(tz, -v - 1);
    hide Convert, Reduce, InType, Values;
    Opposite(Reduce(tz, -v), -v, Values(tz));
    Opposite(Reduce(tz, -v - 1), -v - 1, Values(tz));
  }

  lemma Opposite(r: int, x: int, m: nat)
    requires m > 0 && (x - r) % m == 0
    ensures (r - x) % m == 0
  {
    var q := (x - r) / m;
    assert r - x == -q * m by { Signs(q, m); assert x - r == q * m; }
    Remainder(r - x, -q, m, 0);
  }

  // ---------- the instructions ----------

  /** A word read as the instruction reads it. */
  function Read(signed: bool, wide: bool, w: nat): int {
    if !signed then w
    else if wide then (if w < 9223372036854775808 then w else w - 18446744073709551616)
    else (if w < 2147483648 then w else w - 4294967296)
  }

  lemma ReadIs(signed: bool, wide: bool, w: nat)
    requires w < WordSize(wide)
    ensures Read(signed, wide, w) == if signed then SignedWord(WordSize(wide), w) else w
  {}

  lemma ReadBack(signed: bool, wide: bool, v: int)
    requires if signed then -(WordSize(wide) as int) / 2 <= v < WordSize(wide) / 2 else 0 <= v < WordSize(wide)
    ensures Read(signed, wide, v % WordSize(wide)) == v
  {}

  /** Division traps exactly at 0 and at the overflowing pair, and truncates; the remainder traps only at 0. */
  lemma QuotientWords(signed: bool, wide: bool, a: nat, b: nat)
    requires a < WordSize(wide) && b < WordSize(wide)
    ensures var x, y := Read(signed, wide, a), Read(signed, wide, b);
            var least := if wide then -9223372036854775808 else -2147483648;
            var (q, w), (r, u) := WordOp(Slash, signed, wide, a, b), WordOp(Rem, signed, wide, a, b);
            && (q <==> y != 0 && !(signed && x == least && y == -1)) && (r <==> y != 0)
            && (q ==> Truncated(x, y, Read(signed, wide, w), Read(signed, wide, u)))
            && (r && !q ==> u == 0)
  {
    ReadIs(signed, wide, a);
    ReadIs(signed, wide, b);
    var x, y := Read(signed, wide, a), Read(signed, wide, b);
    hide TruncDiv, TruncRem, Truncated, Read;
    if y != 0 {
      TruncMeans(x, y);
      QuotientSize(x, y);
      WordFits(signed, wide, a);
      if WordOp(Slash, signed, wide, a, b).0 {
        ReadBack(signed, wide, TruncDiv(x, y));
        ReadBack(signed, wide, TruncRem(x, y));
      } else {
        LeastByMinusOne(wide);
      }
    }
  }

  lemma WordFits(signed: bool, wide: bool, a: nat)
    requires a < WordSize(wide)
    ensures var x := Read(signed, wide, a); if signed then -(WordSize(wide) as int) / 2 <= x < WordSize(wide) / 2 else 0 <= x < WordSize(wide)
  {}

  lemma LeastByMinusOne(wide: bool)
    ensures TruncRem(-(WordSize(wide) as int) / 2, -1) == 0
  {}

  /** Sums, differences and products are those of the numbers, modulo the size of the word. */
  lemma ArithmeticWords(signed: bool, wide: bool, a: nat, b: nat)
    ensures var m := if wide then 18446744073709551616 else 4294967296;
            && WordOp(Plus, signed, wide, a, b) == (true, (a + b) % m)
            && WordOp(Minus, signed, wide, a, b) == (true, (a - b) % m)
            && WordOp(Star, signed, wide, a, b) == (true, (a * b) % m)
  {}

  /** Comparisons are those of the numbers read. */
  lemma ComparisonWords(signed: bool, wide: bool, a: nat, b: nat)
    requires a < WordSize(wide) && b < WordSize(wide)
    ensures var x, y := Read(signed, wide, a), Read(signed, wide, b);
            && WordOp(Eq, signed, wide, a, b) == (true, if x == y then 1 else 0)
            && WordOp(Ne, signed, wide, a, b) == (true, if x != y then 1 else 0)
            && WordOp(Lt, signed, wide, a, b) == (true, if x < y then 1 else 0)
            && WordOp(Gt, signed, wide, a, b) == (true, if y < x then 1 else 0)
            && WordOp(Le, signed, wide, a, b) == (true, if y < x then 0 else 1)
            && WordOp(Ge, signed, wide, a, b) == (true, if x < y then 0 else 1)
  {
    ReadIs(signed, wide, a);
    ReadIs(signed, wide, b);
    hide Read, SignedWord;
  }

  // ---------- shifts ----------

  /** Shifting right rounds down. */
  lemma FloorMeans(x: int, p: nat)
    requires p > 0
    ensures var q := FloorDiv(x, p); p * q <= x < p * q + p
  {}

  lemma FloorFits(x: int, p: nat, h: nat)
    requires p > 0 && h > 0
    ensures -(h as int) <= x < h ==> -(h as int) <= FloorDiv(x, p) < h
    ensures 0 <= x < h ==> 0 <= FloorDiv(x, p) < h
  {
    FloorMeans(x, p);
    hide FloorDiv;
    FloorSize(x, p, FloorDiv(x, p), h);
  }

  lemma FloorSize(x: int, p: nat, q: int, h: nat)
    requires p > 0 && p * q <= x < p * q + p
    ensures (x < h ==> q < h) && (-(h as int) <= x ==> -(h as int) <= q) && (0 <= x ==> 0 <= q)
  {
    Times(p, q);
    Times(p, q + 1);
    Distribute(p, q, 1);
  }

  lemma Times(p: int, q: int)
    requires p > 0
    ensures (q >= 0 ==> p * q >= q) && (q <= 0 ==> p * q <= q)
  {
    if q > 0 { MulAtLeast(q, p); }
    if q < 0 { MulAtLeast(-q, p); Signs(p, q); assert -q * p == -(p * q); }
    assert p * q == q * p;
  }

  /** Shifts move by the count modulo the number of bits: to the left multiplying modulo the size of the word, to the
      right dividing and rounding down. */
  lemma ShiftWords(signed: bool, wide: bool, a: nat, b: nat)
    requires a < WordSize(wide) && b < WordSize(wide)
    ensures var x, p := Read(signed, wide, a), Pow2(b % if wide then 64 else 32);
            var (l, w), (r, u) := WordOp(Shl, signed, wide, a, b), WordOp(Shr, signed, wide, a, b);
            && l && r && w == (a * p) % WordSize(wide)
            && var q := Read(signed, wide, u); p * q <= x < p * q + p
  {
    ReadIs(signed, wide, a);
    var x, p := Read(signed, wide, a), Pow2(b % if wide then 64 else 32);
    WordFits(signed, wide, a);
    FloorMeans(x, p);
    hide FloorDiv, Read, Pow2;
    FloorFits(x, p, if signed then WordSize(wide) / 2 else WordSize(wide));
    ReadBack(signed, wide, FloorDiv(x, p));
  }

  // ---------- bits ----------

  function Bit(w: nat, k: nat): nat { w / Pow2(k) % 2 }

  lemma BitNext(w: nat, k: nat)
    ensures Bit(w, k + 1) == Bit(w / 2, k) && Bit(w, 0) == w % 2
  {
    var p := Pow2(k);
    assert Pow2(k + 1) == 2 * p;
    hide Pow2;
    Nested(w, p);
  }

  lemma Nested(w: nat, p: nat)
    requires p > 0
    ensures w / (2 * p) == w / 2 / p
  {
    var q, r := w / (2 * p), w % (2 * p);
    assert w == 2 * p * q + r;
    assert w / 2 == p * q + r / 2;
    assert r / 2 < p;
    Remainder(w / 2, q, p, r / 2);
  }

  /** Each bit of the result is told by the two at its place. */
  lemma {:induction false} BitsMean(op: BinOp, a: nat, b: nat, n: nat, k: nat)
    requires (op == And || op == Or || op == Xor) && k < n
    ensures var x, y, r := Bit(a, k), Bit(b, k), Bit(Bits(op, a, b, n), k);
            && x < 2 && y < 2
            && r == if op == And then (if x == 1 && y == 1 then 1 else 0)
                    else if op == Or then (if x == 1 || y == 1 then 1 else 0)
                    else if x != y then 1 else 0
    decreases n
  {
    var w := Bits(op, a, b, n);
    var lo, hi := BitOp(op, a % 2, b % 2), Bits(op, a / 2, b / 2, n - 1);
    assert w == lo + 2 * hi && w / 2 == hi && w % 2 == lo;
    hide Bits, Pow2, Bit;
    if k == 0 {
      BitNext(a, 0);
      BitNext(b, 0);
      BitNext(w, 0);
    } else {
      BitNext(a, k - 1);
      BitNext(b, k - 1);
      BitNext(w, k - 1);
      BitsMean(op, a / 2, b / 2, n - 1, k - 1);
    }
  }

  /** So it is in the word that the instruction leaves, which has no other bits. */
  lemma BitWords(op: BinOp, signed: bool, wide: bool, a: nat, b: nat, k: nat)
    requires (op == And || op == Or || op == Xor) && k < (if wide then 64 else 32)
    ensures var (ok, w) := WordOp(op, signed, wide, a, b);
            var x, y, r := Bit(a, k), Bit(b, k), Bit(w, k);
            && ok && w < WordSize(wide)
            && (op == And ==> (r == 1 <==> x == 1 && y == 1))
            && (op == Or ==> (r == 1 <==> x == 1 || y == 1))
            && (op == Xor ==> (r == 1 <==> x != y))
  {
    PowersOfTwo();
    WordOpLogic(op, signed, wide, a, b);
    hide WordOp, Bits, Pow2, Bit;
    BitsMean(op, a, b, WordBits(wide), k);
  }
}
