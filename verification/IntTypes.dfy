/** C's integer types under the wasm32 model, and the arithmetic of 32- and 64-bit words. */
module IntTypes {
  datatype TS = Bool | Char | UChar | Short | UShort | Int | UInt | Long | ULong | LLong | ULLong

  const M8: nat := 0x100
  const M16: nat := 0x1_0000
  const M32: nat := 0x1_0000_0000
  const M64: nat := 0x1_0000_0000_0000_0000

  predicate Unsigned(ts: TS) { ts.Bool? || ts.UChar? || ts.UShort? || ts.UInt? || ts.ULong? || ts.ULLong? }

  predicate Wide(ts: TS) { ts == LLong || ts == ULLong }

  predicate Promoted(ts: TS) { ts.Int? || ts.UInt? || ts.Long? || ts.ULong? || ts.LLong? || ts.ULLong? }

  /** 2 to the number of bits of the type. */
  function Modulus(ts: TS): (m: nat)
    ensures (m == 2 || m == M8 || m == M16 || m == M32 || m == M64)
    ensures Promoted(ts) ==> m == WordModulus(ts)
  {
    match ts
    case Bool => 2
    case Char => M8
    case UChar => M8
    case Short => M16
    case UShort => M16
    case LLong => M64
    case ULLong => M64
    case _ => M32
  }

  /** 2 to the number of bits of the WebAssembly word that holds the type. */
  function WordModulus(ts: TS): nat { if Wide(ts) then M64 else M32 }

  /** The values of a type. */
  predicate InType(ts: TS, v: int) {
    if Unsigned(ts) then 0 <= v < Modulus(ts) else -(Modulus(ts) as int) / 2 <= v < Modulus(ts) / 2
  }

  function Sext(m: nat, v: int): int
    requires m > 0
  {
    var low := v % m;
    if low < m / 2 then low else low - m
  }

  /** Reduction to the bits of a type: `integral_mask` when unsigned, `integral_sext` when signed. */
  function Reduce(ts: TS, v: int): (r: int)
    requires ts != Bool
    ensures InType(ts, r)
  {
    if Unsigned(ts) then v % Modulus(ts) else Sext(Modulus(ts), v)
  }

  /** `numval_convert` between integer types. */
  function Convert(to: TS, from: TS, v: int): (r: int)
    requires InType(from, v)
    ensures InType(to, r)
  {
    if to == from then v
    else if to == Bool then (if v != 0 then 1 else 0)
    else Reduce(to, v)
  }

  function Promote(ts: TS): (r: TS)
    ensures Promoted(r)
  {
    if Promoted(ts) then ts else Int
  }

  function Common(a: TS, b: TS): (r: TS)
    ensures Promoted(r)
  {
    var x, y := Promote(a), Promote(b);
    if x == y then x
    else if x == ULLong || y == ULLong then ULLong
    else if x == LLong || y == LLong then LLong
    else if x == ULong || y == ULong then ULong
    else if x == Long || y == Long then Long
    else if x == UInt || y == UInt then UInt
    else Int
  }

  // ---------- operations ----------

  datatype BinOp = Plus | Minus | Star | And | Or | Xor | Slash | Rem | Shl | Shr | Eq | Ne | Lt | Gt | Le | Ge

  predicate Comparison(op: BinOp) { op.Eq? || op.Ne? || op.Lt? || op.Gt? || op.Le? || op.Ge? }

  function Truth(b: bool): int { if b then 1 else 0 }

  function Compare(op: BinOp, x: int, y: int): bool
    requires Comparison(op)
  {
    match op
    case Eq => x == y
    case Ne => x != y
    case Lt => x < y
    case Gt => x > y
    case Le => x <= y
    case Ge => x >= y
  }

  /** C's division truncates towards zero. */
  function TruncDiv(x: int, y: int): int
    requires y != 0
  {
    if x >= 0 then (if y > 0 then x / y else -(x / -y))
    else (if y > 0 then -(-x / y) else -x / -y)
  }

  function TruncRem(x: int, y: int): int
    requires y != 0
  {
    x - y * TruncDiv(x, y)
  }

  function Pow2(n: nat): (r: nat)
    ensures r >= 1
  {
    if n == 0 then 1 else 2 * Pow2(n - 1)
  }

  /** Rounding towards minus infinity: what an arithmetic right shift computes. */
  function FloorDiv(x: int, m: nat): int
    requires m > 0
  {
    x / m
  }

  function BitOp(op: BinOp, x: nat, y: nat): (r: nat)
    requires x < 2 && y < 2
    ensures r < 2
  {
    if op == And then (if x == 1 then y else 0)
    else if op == Or then (if x == 1 then 1 else y)
    else if x == y then 0 else 1
  }

  /** Bitwise and, or, xor of the low `n` bits. */
  function Bits(op: BinOp, a: nat, b: nat, n: nat): (r: nat)
    requires (op == And || op == Or || op == Xor)
    ensures r < Pow2(n)
    decreases n
  {
    if n == 0 then 0 else BitOp(op, a % 2, b % 2) + 2 * Bits(op, a / 2, b / 2, n - 1)
  }

  /** A word read as a signed number. */
  function SignedWord(m: nat, a: nat): int {
    if a < m / 2 then a else a - m
  }

  function WordBits(wide: bool): nat { if wide then 64 else 32 }

  function WordSize(wide: bool): (m: nat)
    ensures m == M32 || m == M64
  {
    if wide then M64 else M32
  }

  /** WebAssembly's integer instructions (section 4.3.2 of the Core Specification); `None` is a trap. */
  function WordOp(op: BinOp, signed: bool, wide: bool, a: nat, b: nat): (r: (bool, nat)) {
    var m := WordSize(wide);
    var x, y := if signed then SignedWord(m, a) else a, if signed then SignedWord(m, b) else b;
    match op
    case Plus => (true, (a + b) % m)
    case Minus => (true, (a - b) % m)
    case Star => (true, (a * b) % m)
    case Slash =>
      if y == 0 || (signed && x == -(m as int) / 2 && y == -1) then (false, 0) else (true, TruncDiv(x, y) % m)
    case Rem => if y == 0 then (false, 0) else (true, TruncRem(x, y) % m)
    case Shl => (true, (a * Pow2(b % WordBits(wide))) % m)
    case Shr => (true, FloorDiv(x, Pow2(b % WordBits(wide))) % m)
    case And => (true, Bits(op, a, b, WordBits(wide)))
    case Or => (true, Bits(op, a, b, WordBits(wide)))
    case Xor => (true, Bits(op, a, b, WordBits(wide)))
    case _ => (true, Truth(Compare(op, x, y)))
  }

  // ---------- facts about reduction ----------

  lemma SignedWordOf(ts: TS, v: int)
    requires Promoted(ts) && InType(ts, v)
    ensures Unsigned(ts) ==> v % WordModulus(ts) == v
    ensures !Unsigned(ts) ==> SignedWord(WordModulus(ts), v % WordModulus(ts)) == v
  {}

  lemma ReduceWord(ts: TS, v: int)
    requires Promoted(ts)
    ensures Reduce(ts, v) % WordModulus(ts) == v % WordModulus(ts)
  {}

  lemma ModShift(x: int, k: int, m: nat)
    requires m == M32 || m == M64
    ensures (x + m * k) % m == x % m
  {}

  lemma ModSum(x: int, y: int, m: nat)
    requires m == M32 || m == M64
    ensures (x % m + y % m) % m == (x + y) % m
    ensures (x % m - y % m) % m == (x - y) % m
  {
    var p, q := x / m, y / m;
    assert x == x % m + m * p && y == y % m + m * q;
    Distribute(m, p, q);
    ModShift(x % m + y % m, p + q, m);
    ModShift(x % m - y % m, p - q, m);
  }

  lemma Distribute(m: int, p: int, q: int)
    ensures m * (p + q) == m * p + m * q && m * (p - q) == m * p - m * q
  {}

  lemma ModProduct(x: int, y: int, m: nat)
    requires m == M32 || m == M64
    ensures ((x % m) * (y % m)) % m == (x * y) % m
  {
    var p, q, r, s := x / m, y / m, x % m, y % m;
    assert x == r + m * p && y == s + m * q;
    Expand(r, p, s, q, m);
    ModShift(r * s, p * s + q * r + m * (p * q), m);
  }

  lemma Expand(r: int, p: int, s: int, q: int, m: int)
    ensures (r + m * p) * (s + m * q) == r * s + m * (p * s + q * r + m * (p * q))
  {}
}
