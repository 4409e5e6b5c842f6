/** What the symbols for lengths and distances stand for, told without the decoder's tables (RFC 1951 sections 3.2.5 and 3.2.7). */
module DeflateTables {
  import opened Bits
  import opened Huffman
  import opened Inflate
  import opened DeflateStream

  lemma SmallPowers()
    ensures Pow2(0) == 1 && Pow2(1) == 2 && Pow2(2) == 4 && Pow2(3) == 8 && Pow2(4) == 16 && Pow2(5) == 32 && Pow2(6) == 64
    ensures Pow2(7) == 128 && Pow2(8) == 256 && Pow2(9) == 512 && Pow2(10) == 1024 && Pow2(11) == 2048 && Pow2(12) == 4096
    ensures Pow2(13) == 8192
  {
    assert Pow2(4) == 16;
    assert Pow2(8) == 256;
    assert Pow2(12) == 4096;
  }

  /** Length symbol 257 + `l` has this many extra bits; the lengths of the first 28 symbols follow one another, and the last
      symbol is 258 alone. */
  lemma LengthRanges(l: nat)
    requires l < 29
    ensures LenExtraBits(l) == if l < 8 || l == 28 then 0 else l / 4 - 1
    ensures LenBase(0) == 3 && LenBase(28) == 258
    ensures l < 27 ==> LenBase(l + 1) == LenBase(l) + Pow2(LenExtraBits(l))
  {
    SmallPowers();
    hide Pow2;
  }

  lemma DistRanges(d: nat)
    requires d < 30
    ensures DistExtraBits(d) == if d < 2 then 0 else d / 2 - 1
    ensures DistBase(0) == 1
    ensures DistBase(d) + Pow2(DistExtraBits(d)) == if d < 29 then DistBase(d + 1) else 32769
  {
    if d < 15 { NearRanges(d); } else { FarRanges(d); }
    hide DistBase, DistExtraBits, Pow2;
  }

  lemma NearRanges(d: nat)
    requires d < 15
    ensures DistExtraBits(d) == if d < 2 then 0 else d / 2 - 1
    ensures DistBase(0) == 1 && DistBase(d) + Pow2(DistExtraBits(d)) == DistBase(d + 1)
  {
    SmallPowers();
    hide Pow2;
  }

  lemma FarRanges(d: nat)
    requires 15 <= d < 30
    ensures DistExtraBits(d) == d / 2 - 1
    ensures DistBase(0) == 1 && DistBase(d) + Pow2(DistExtraBits(d)) == if d < 29 then DistBase(d + 1) else 32769
  {
    SmallPowers();
    hide Pow2;
  }

  ghost predicate SpellsLength(l: nat, extra: nat, n: nat) {
    l < 29 && extra < Pow2(LenExtraBits(l)) && n == LenBase(l) + extra
  }

  ghost predicate SpellsDist(d: nat, extra: nat, n: nat) {
    d < 30 && extra < Pow2(DistExtraBits(d)) && n == DistBase(d) + extra
  }

  lemma LastRange()
    ensures LenBase(27) + Pow2(LenExtraBits(27)) == 259
  {
    SmallPowers();
    hide Pow2;
  }

  /** The range that `n` is in, from symbol `l` on. */
  lemma {:induction false} FindLength(l: nat, n: nat) returns (k: nat, x: nat)
    requires l < 28 && LenBase(l) <= n <= 258
    ensures k < 28 && SpellsLength(k, x, n)
    decreases 28 - l
  {
    LengthRanges(l);
    LastRange();
    hide LenBase, LenExtraBits, Pow2;
    if n < LenBase(l) + Pow2(LenExtraBits(l)) { k, x := l, n - LenBase(l); } else { k, x := FindLength(l + 1, n); }
  }

  lemma {:induction false} FindDist(d: nat, n: nat) returns (k: nat, x: nat)
    requires d < 30 && DistBase(d) <= n <= 32768
    ensures SpellsDist(k, x, n)
    decreases 30 - d
  {
    DistRanges(d);
    hide DistBase, DistExtraBits, Pow2;
    if n < DistBase(d) + Pow2(DistExtraBits(d)) { k, x := d, n - DistBase(d); } else { k, x := FindDist(d + 1, n); }
  }

  lemma {:induction false} LengthsAscend(l: nat, k: nat)
    requires l < k < 28
    ensures LenBase(l) + Pow2(LenExtraBits(l)) <= LenBase(k)
    decreases k
  {
    hide LenBase, LenExtraBits, Pow2;
    LengthRanges(k - 1);
    if l < k - 1 { LengthsAscend(l, k - 1); }
  }

  lemma {:induction false} DistsAscend(d: nat, k: nat)
    requires d < k < 30
    ensures DistBase(d) + Pow2(DistExtraBits(d)) <= DistBase(k)
    decreases k
  {
    hide DistBase, DistExtraBits, Pow2;
    DistRanges(k - 1);
    if d < k - 1 { DistsAscend(d, k - 1); }
  }

  /** The lengths that can be spelled are those from 3 to 258, each in one way, but 258 in two: as symbol 285 without
      extra bits, and as the last of symbol 284. */
  lemma LengthsSpelled(n: nat)
    ensures (exists l: nat, extra: nat :: SpellsLength(l, extra, n)) <==> 3 <= n <= 258
    ensures forall l: nat, x: nat, k: nat, y: nat :: SpellsLength(l, x, n) && SpellsLength(k, y, n) ==> (l == k && x == y) || (n == 258 && l != k)
    ensures forall l: nat, x: nat :: SpellsLength(l, x, 258) <==> (l == 28 && x == 0) || (l == 27 && x == 31)
  {
    hide LenBase, LenExtraBits, Pow2;
    LengthRanges(0);
    LengthRanges(28);
    LengthRanges(27);
    LastRange();
    SmallPowers();
    forall l: nat, x: nat | SpellsLength(l, x, n)
      ensures 3 <= n <= 258 && (l < 27 ==> n < LenBase(27))
    {
      if 0 < l < 28 { LengthsAscend(0, l); }
      if l < 27 { LengthsAscend(l, 27); }
    }
    if 3 <= n <= 258 {
      var k, x := FindLength(0, n);
    }
    forall l: nat, x: nat, k: nat, y: nat | SpellsLength(l, x, n) && SpellsLength(k, y, n)
      ensures (l == k && x == y) || (n == 258 && l != k)
    {
      if l < k < 28 { LengthsAscend(l, k); }
      if k < l < 28 { LengthsAscend(k, l); }
    }
    forall l: nat, x: nat
      ensures SpellsLength(l, x, 258) <==> (l == 28 && x == 0) || (l == 27 && x == 31)
    {
      if SpellsLength(l, x, 258) && l < 27 { LengthsAscend(l, 27); }
    }
  }

  /** The distances that can be spelled are those from 1 to 32768, each in one way. */
  lemma DistsSpelled(n: nat)
    ensures (exists d: nat, extra: nat :: SpellsDist(d, extra, n)) <==> 1 <= n <= 32768
    ensures forall d: nat, x: nat, k: nat, y: nat :: SpellsDist(d, x, n) && SpellsDist(k, y, n) ==> d == k && x == y
  {
    hide DistBase, DistExtraBits, Pow2;
    DistRanges(0);
    DistRanges(29);
    forall d: nat, x: nat | SpellsDist(d, x, n)
      ensures 1 <= n <= 32768
    {
      if d > 0 { DistsAscend(0, d); }
      if d < 29 { DistsAscend(d, 29); }
    }
    if 1 <= n <= 32768 {
      var k, x := FindDist(0, n);
    }
    forall d: nat, x: nat, k: nat, y: nat | SpellsDist(d, x, n) && SpellsDist(k, y, n)
      ensures d == k && x == y
    {
      if d < k { DistsAscend(d, k); }
      if k < d { DistsAscend(k, d); }
    }
  }

  /** The order in which the lengths of the code length code are sent: the three repetitions, no code, and then the
      lengths from 8 outwards, the longer first. */
  lemma OrderIs(i: nat)
    requires i < 19
    ensures OrderAt(i) == if i < 3 then 16 + i else if i == 3 then 0 else if i % 2 == 0 then 8 + (i - 4) / 2 else 8 - (i - 3) / 2
    ensures PlaceOf(OrderAt(i)) == i
  {
    PlaceInvertsOrder();
  }

  /** A dynamic header describes 257 to 286 literal and length codewords and 1 to 30 distance codewords, and sends 4 to 19
      lengths of three bits for the code of their lengths, which are at most 15. */
  lemma HeaderLimits(h: Header, l: codelen)
    ensures h.CountsOk() <==>
              257 <= h.nlen <= 286 && 1 <= h.ndist <= 30 && 4 <= |h.transmitted| <= 19
              && forall i :: 0 <= i < |h.transmitted| ==> h.transmitted[i] <= 7
    ensures 0 <= l <= 15 && MAXBITS == 15 && |FixedLiteralLengths()| == 288 && |FixedDistanceLengths()| == 30
  {}

  // ---------- the fixed codes ----------

  /** How many of the first `k` symbols of the fixed literal code have length `l`. */
  lemma {:induction false} FixedCounts(l: nat, k: nat)
    requires k <= 288
    ensures CountUpTo(FixedLiteralLengths(), l, k) ==
            if l == 8 then (if k <= 144 then k else if k <= 280 then 144 else k - 136)
            else if l == 9 then (if k <= 144 then 0 else if k <= 256 then k - 144 else 112)
            else if l == 7 then (if k <= 256 then 0 else if k <= 280 then k - 256 else 24)
            else 0
  {
    if k > 0 { FixedCounts(l, k - 1); }
  }

  lemma {:induction false} FivesCount(l: nat, k: nat)
    requires k <= 30
    ensures CountUpTo(FixedDistanceLengths(), l, k) == if l == 5 then k else 0
  {
    if k > 0 { FivesCount(l, k - 1); }
  }

  lemma {:induction false} NoShorter(L: seq<codelen>, l: nat)
    requires forall j :: 0 < j < l ==> Count(L, j) == 0
    ensures First(L, l) == 0
  {
    hide Count;
    if l > 1 { NoShorter(L, l - 1); }
  }

  lemma FixedFirst()
    ensures var L := FixedLiteralLengths(); First(L, 7) == 0 && First(L, 8) == 48 && First(L, 9) == 400
    ensures First(FixedDistanceLengths(), 5) == 0
  {
    var L := FixedLiteralLengths();
    hide CountUpTo, First, FixedLiteralLengths, FixedDistanceLengths;
    forall j: nat
      ensures Count(L, j) == if j == 8 then 152 else if j == 9 then 112 else if j == 7 then 24 else 0
    {
      FixedCounts(j, 288);
    }
    NoShorter(L, 7);
    FirstNext(L, 8);
    FirstNext(L, 9);
    forall j: nat | j < 5
      ensures Count(FixedDistanceLengths(), j) == 0
    {
      FivesCount(j, 30);
    }
    NoShorter(FixedDistanceLengths(), 5);
  }

  lemma FirstNext(L: seq<codelen>, l: nat)
    requires l > 1
    ensures First(L, l) == 2 * (First(L, l - 1) + Count(L, l - 1))
  {
    hide Count;
  }

  /** The codewords of the fixed literal code: eight bits from 00110000 for the first 144 symbols, nine from 110010000 for the
      other bytes, seven from 0000000 for the end of block and the shorter lengths, eight from 11000000 for the longer. */
  lemma FixedLiteralCodeword(s: nat)
    requires s < 288
    ensures Codeword(FixedLiteralLengths(), s) ==
            if s < 144 then MsbBits(48 + s, 8)
            else if s < 256 then MsbBits(400 + (s - 144), 9)
            else if s < 280 then MsbBits(s - 256, 7)
            else MsbBits(192 + (s - 280), 8)
  {
    hide CountUpTo, First, MsbBits;
    FixedFirst();
    FixedCounts(FixedLiteralLengths()[s], s);
  }

  /** Those of the fixed distance code: the number of the symbol in five bits. */
  lemma FixedDistanceCodeword(d: nat)
    requires d < 30
    ensures Codeword(FixedDistanceLengths(), d) == MsbBits(d, 5)
  {
    hide CountUpTo, First, MsbBits;
    FixedFirst();
    FivesCount(FixedDistanceLengths()[d], d);
  }
}
