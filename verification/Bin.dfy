/** The little-endian binary writers. */
module Bin {
  import opened Arith
  import opened IntTypes
  import opened Layout

  type byte = x: int | 0 <= x < 256

  // ---------- little-endian bytes ----------

  /** The `n` low bytes of a number, least significant first. */
  function Little(v: int, n: nat): (s: seq<byte>)
    ensures |s| == n
    decreases n
  {
    if n == 0 then [] else [v % 256] + Little(v / 256, n - 1)
  }

  function FromLittle(s: seq<byte>): (v: nat)
  {
    if s == [] then 0 else s[0] + 256 * FromLittle(s[1..])
  }

  function Pow256(n: nat): (p: nat)
    ensures p > 0
  {
    if n == 0 then 1 else 256 * Pow256(n - 1)
  }

  lemma {:induction false} LeValue(v: int, n: nat)
    ensures FromLittle(Little(v, n)) == v % Pow256(n)
    decreases n
  {
    if n > 0 {
      LeValue(v / 256, n - 1);
      assert Little(v, n)[1..] == Little(v / 256, n - 1);
      SplitMod(v, Pow256(n - 1));
    }
  }

  lemma SplitMod(v: int, p: nat)
    requires p > 0
    ensures v % 256 + 256 * (v / 256 % p) == v % (256 * p)
  {
    var h := v / 256;
    var q, r := h / p, h % p;
    assert h == q * p + r;
    assert v == 256 * h + v % 256;
    assert 256 * (q * p) == q * (256 * p);
    var low := v % 256 + 256 * r;
    assert v == q * (256 * p) + low;
    assert 0 <= low < 256 * p;
    hide *;
    Remainder(v, q, 256 * p, low);
  }

  lemma Bytes2()
    ensures Pow256(1) == M8 && Pow256(2) == M16
  {
    assert Pow256(0) == 1;
  }

  lemma Bytes8()
    ensures Pow256(4) == M32 && Pow256(8) == M64
  {
    Bytes2();
    assert Pow256(3) == 0x100_0000;
    assert Pow256(5) == 0x100_0000_0000 && Pow256(6) == 0x1_0000_0000_0000;
    assert Pow256(7) == 0x100_0000_0000_0000;
  }

  /** Reading the bytes of a stored number as its type gives the number back. */
  lemma LeReadsBack(ts: TS, v: int)
    requires ts != Bool && InType(ts, v)
    ensures Reduce(ts, FromLittle(Little(v, NumSize(ts)))) == v
  {
    LeValue(v, NumSize(ts));
    Bytes2();
    Bytes8();
    assert Pow256(NumSize(ts)) == Modulus(ts);
    hide Little, FromLittle, Pow256, NumSize;
    ReduceAgain(ts, v);
  }

  lemma ReduceAgain(ts: TS, v: int)
    requires ts != Bool && InType(ts, v)
    ensures Reduce(ts, v % Modulus(ts)) == v
  {
    hide Sext;
    if Unsigned(ts) { ModTwice(Modulus(ts), v); } else { SextAgain(Modulus(ts), v); }
    hide Modulus;
  }

  lemma ModTwice(m: nat, v: int)
    requires 0 <= v < m
    ensures v % m % m == v
  {}

  lemma SextAgain(m: nat, v: int)
    requires (m == M8 || m == M16 || m == M32 || m == M64) && -(m as int) / 2 <= v < m / 2
    ensures Sext(m, v % m) == v
  {
    assert v % m == if v < 0 then v + m else v;
  }

  /** The growing character buffer. */
  class Cbuf {
    var data: seq<byte>

    constructor ()
      ensures data == []
    {
      data := [];
    }

    method Put(c: int)
      modifies this
      ensures data == old(data) + [c % 256]
    {
      data := data + [c % 256];
    }

    /** Zero bytes up to the next multiple of `align`. */
    method BinAlign(align: nat)
      requires AlignOk(align)
      modifies this
      ensures data == Padded(old(data), align)
    {
      var n := |data| % align;
      if n > 0 { data := data + seq(align - n, _ => 0); }
    }

    method BinShort(s: int)
      modifies this
      ensures data == Padded(old(data), 2) + Little(s, 2)
    {
      BinAlign(2);
      ghost var d := data;
      Put(s);
      Put(s / 256);
      Le2(s);
      assert data == d + [s % 256, s / 256 % 256];
    }

    method BinInt(i: int)
      modifies this
      ensures data == Padded(old(data), 4) + Little(i, 4)
    {
      BinAlign(4);
      ghost var d := data;
      Put(i);
      Put(i / 256);
      Put(i / 0x1_0000);
      Put(i / 0x100_0000);
      Le4(i);
      assert data == d + [i % 256, i / 256 % 256, i / 0x1_0000 % 256, i / 0x100_0000 % 256];
    }

    method BinLLong(ll: int)
      modifies this
      ensures data == Padded(old(data), 8) + Little(ll, 8)
    {
      hide Little;
      BinAlign(8);
      ghost var d := data;
      Put(ll);
      Put(ll / 256);
      Put(ll / 0x1_0000);
      Put(ll / 0x100_0000);
      assert data == d + [ll % 256, ll / 256 % 256, ll / 0x1_0000 % 256, ll / 0x100_0000 % 256];
      var h := ll / 0x1_0000_0000;
      ghost var e := data;
      Put(h);
      Put(ll / 0x100_0000_0000);
      Put(ll / 0x1_0000_0000_0000);
      Put(ll / 0x100_0000_0000_0000);
      Shifts(ll);
      assert data == e + [h % 256, h / 256 % 256, h / 0x1_0000 % 256, h / 0x100_0000 % 256];
      Le4(ll);
      Le4(h);
      LeSplit(ll);
    }
  }

  function Padded(data: seq<byte>, align: nat): (p: seq<byte>)
    requires AlignOk(align)
    ensures |p| % align == 0 && data <= p && |p| < |data| + align && forall i :: |data| <= i < |p| ==> p[i] == 0
  {
    var n := |data| % align;
    if n > 0 then data + seq(align - n, _ => 0) else data
  }

  lemma Le2(v: int)
    ensures Little(v, 2) == [v % 256, v / 256 % 256]
  {
    assert Little(v / 256, 1) == [v / 256 % 256] + Little(v / 256 / 256, 0);
  }

  lemma Le4(v: int)
    ensures Little(v, 4) == [v % 256, v / 256 % 256, v / 0x1_0000 % 256, v / 0x100_0000 % 256]
  {
    var w := v / 0x1_0000;
    assert v / 256 / 256 == w && w / 256 == v / 0x100_0000;
    Le2(v);
    Le2(w);
    assert Little(v, 4) == [v % 256] + Little(v / 256, 3);
    assert Little(v / 256, 3) == [v / 256 % 256] + Little(w, 2);
  }

  lemma Shifts(v: int)
    ensures var h := v / 0x1_0000_0000;
            v / 0x100_0000_0000 == h / 256 && v / 0x1_0000_0000_0000 == h / 0x1_0000 && v / 0x100_0000_0000_0000 == h / 0x100_0000
  {}

  lemma LeSplit(v: int)
    ensures Little(v, 8) == Little(v, 4) + Little(v / 0x1_0000_0000, 4)
  {
    LeConcat(v, 4, 4);
  }

  function Shift(v: int, n: nat): int
    decreases n
  {
    if n == 0 then v else Shift(v / 256, n - 1)
  }

  lemma {:induction false} LeConcat(v: int, n: nat, m: nat)
    ensures Little(v, n + m) == Little(v, n) + Little(Shift(v, n), m)
    ensures n == 4 ==> Shift(v, n) == v / 0x1_0000_0000
    decreases n
  {
    if n > 0 { LeConcat(v / 256, n - 1, m); }
    if n == 4 { Shift4(v); }
  }

  lemma Shift4(v: int)
    ensures Shift(v, 4) == v / 0x1_0000_0000
  {
    var a, b, c := v / 256, v / 0x1_0000, v / 0x100_0000;
    assert a / 256 == b && b / 256 == c && c / 256 == v / 0x1_0000_0000;
    assert Shift(v, 4) == Shift(a, 3) == Shift(b, 2) == Shift(c, 1);
  }
}
