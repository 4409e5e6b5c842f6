/** Bit strings as DEFLATE packs them into bytes (RFC 1951 section 3.1.1). */
module Bits {
  import opened Arith

  type byte = x: int | 0 <= x < 256
  type bit = x: int | 0 <= x < 2

  function Pow2(n: nat): (r: nat)
    ensures r >= 1
  {
    if n == 0 then 1 else 2 * Pow2(n - 1)
  }

  lemma Pow2Add(a: nat, b: nat)
    ensures Pow2(a + b) == Pow2(a) * Pow2(b)
  {
    if a != 0 {
      Pow2Add(a - 1, b);
      assert Pow2(a + b) == 2 * Pow2(a - 1 + b);
    }
  }

  /** The number whose binary digits, least significant first, are the `n` bits at `p`. */
  function Lsb(B: seq<bit>, p: nat, n: nat): (r: nat)
    requires p + n <= |B|
    ensures r < Pow2(n)
    decreases n
  {
    if n == 0 then 0 else B[p] + 2 * Lsb(B, p + 1, n - 1)
  }

  /** The number whose binary digits, most significant first, are the `n` bits at `p`. */
  function Msb(B: seq<bit>, p: nat, n: nat): (r: nat)
    requires p + n <= |B|
    ensures r < Pow2(n)
  {
    if n == 0 then 0 else 2 * Msb(B, p, n - 1) + B[p + n - 1]
  }

  function LsbBits(v: nat, n: nat): (w: seq<bit>)
    ensures |w| == n
  {
    if n == 0 then [] else [v % 2] + LsbBits(v / 2, n - 1)
  }

  function MsbBits(v: nat, n: nat): (w: seq<bit>)
    ensures |w| == n
  {
    if n == 0 then [] else MsbBits(v / 2, n - 1) + [v % 2]
  }

  /** `w` is found in `B` at bit position `p`. */
  ghost predicate At(B: seq<bit>, p: nat, w: seq<bit>) {
    p + |w| <= |B| && B[p..p + |w|] == w
  }

  lemma AtConcat(B: seq<bit>, p: nat, u: seq<bit>, w: seq<bit>)
    ensures At(B, p, u + w) <==> At(B, p, u) && At(B, p + |u|, w)
  {
    if p + |u| + |w| <= |B| {
      var s := B[p..p + |u| + |w|];
      assert s[..|u|] == B[p..p + |u|];
      assert s[|u|..] == B[p + |u|..p + |u| + |w|];
      if s == u + w {
        assert s[..|u|] == u && s[|u|..] == w;
      }
      if At(B, p, u) && At(B, p + |u|, w) {
        assert s == s[..|u|] + s[|u|..];
      }
    }
  }

  lemma AtFits(B: seq<bit>, p: nat, w: seq<bit>)
    requires At(B, p, w)
    ensures p + |w| <= |B|
  {}

  lemma AtEmpty(B: seq<bit>, p: nat)
    ensures At(B, p, []) <==> p <= |B|
  {}

  lemma {:induction false} AtLsb(B: seq<bit>, p: nat, v: nat, n: nat)
    requires v < Pow2(n)
    ensures At(B, p, LsbBits(v, n)) <==> p + n <= |B| && Lsb(B, p, n) == v
    decreases n
  {
    if n != 0 {
      AtConcat(B, p, [v % 2], LsbBits(v / 2, n - 1));
      AtLsb(B, p + 1, v / 2, n - 1);
      if p + n <= |B| { assert B[p..p + 1] == [B[p]]; }
    }
  }

  lemma {:induction false} AtMsb(B: seq<bit>, p: nat, v: nat, n: nat)
    requires v < Pow2(n)
    ensures At(B, p, MsbBits(v, n)) <==> p + n <= |B| && Msb(B, p, n) == v
  {
    if n != 0 {
      AtConcat(B, p, MsbBits(v / 2, n - 1), [v % 2]);
      AtMsb(B, p, v / 2, n - 1);
      if p + n <= |B| { assert B[p + n - 1..p + n] == [B[p + n - 1]]; }
    }
  }

  lemma MulDouble(x: int, y: int)
    ensures 2 * (x * y) == (2 * x) * y
  {}

  lemma {:induction false} LsbSplit(B: seq<bit>, p: nat, a: nat, b: nat)
    requires p + a + b <= |B|
    ensures Lsb(B, p, a + b) == Lsb(B, p, a) + Pow2(a) * Lsb(B, p + a, b)
    decreases a
  {
    if a != 0 {
      LsbSplit(B, p + 1, a - 1, b);
      MulDouble(Pow2(a - 1), Lsb(B, p + a, b));
    }
  }

  /** Taking `need` bits off the low end of a bit buffer. */
  lemma LsbTake(B: seq<bit>, p: nat, need: nat, n: nat)
    requires need <= n && p + n <= |B|
    ensures Lsb(B, p, n) % Pow2(need) == Lsb(B, p, need)
    ensures Lsb(B, p, n) / Pow2(need) == Lsb(B, p + need, n - need)
  {
    hide Lsb, Pow2;
    LsbSplit(B, p, need, n - need);
    Remainder(Lsb(B, p, n), Lsb(B, p + need, n - need), Pow2(need), Lsb(B, p, need));
  }

  /** The bit stream of a byte string: within a byte, the least significant bit comes first. */
  function Stream(input: seq<byte>): (B: seq<bit>)
    ensures |B| == 8 * |input|
  {
    if |input| == 0 then [] else Stream(input[..|input| - 1]) + LsbBits(input[|input| - 1], 8)
  }

  lemma {:induction false} StreamAt(input: seq<byte>, k: nat)
    requires k < |input|
    ensures At(Stream(input), 8 * k, LsbBits(input[k], 8))
  {
    hide LsbBits;
    var B, B0, n := Stream(input), Stream(input[..|input| - 1]), |input| - 1;
    if k < n {
      assert input[..n][k] == input[k];
      StreamAt(input[..n], k);
      assert B[8 * k..8 * k + 8] == B0[8 * k..8 * k + 8];
    }
  }

  lemma EightBits()
    ensures Pow2(8) == 256
  {}

  lemma StreamByte(input: seq<byte>, k: nat)
    requires k < |input|
    ensures Lsb(Stream(input), 8 * k, 8) == input[k]
  {
    hide Lsb, Pow2, LsbBits, Stream;
    StreamAt(input, k);
    EightBits();
    AtLsb(Stream(input), 8 * k, input[k], 8);
  }
}
