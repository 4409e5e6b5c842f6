/** The decoding function of DEFLATE over a bit stream, error results included.
    `InflateMethods` refines it; `DeflateFormat` proves it the inverse of the format. */
module Inflate {
  import opened Bits
  import opened Huffman

  datatype Option<T> = None | Some(value: T)

  /** Where decoding stopped and all output so far, or the error and the output before it. */
  datatype Result = Done(pos: nat, out: seq<byte>) | Fail(err: int, out: seq<byte>)

  datatype Symbol = Symbol(sym: nat, pos: nat) | NoSymbol(err: int)

  datatype Lengths = Lengths(pos: nat, lens: seq<codelen>) | BadLengths(err: int)

  const LENS: seq<nat> := [
    3, 4, 5, 6, 7, 8, 9, 10, 11, 13, 15, 17, 19, 23, 27, 31,
    35, 43, 51, 59, 67, 83, 99, 115, 131, 163, 195, 227, 258]
  const LEXT: seq<nat> := [
    0, 0, 0, 0, 0, 0, 0, 0, 1, 1, 1, 1, 2, 2, 2, 2,
    3, 3, 3, 3, 4, 4, 4, 4, 5, 5, 5, 5, 0]
  const DISTS: seq<nat> := [
    1, 2, 3, 4, 5, 7, 9, 13, 17, 25, 33, 49, 65, 97, 129, 193,
    257, 385, 513, 769, 1025, 1537, 2049, 3073, 4097, 6145,
    8193, 12289, 16385, 24577]
  const DEXT: seq<nat> := [
    0, 0, 0, 0, 1, 1, 2, 2, 3, 3, 4, 4, 5, 5, 6, 6,
    7, 7, 8, 8, 9, 9, 10, 10, 11, 11, 12, 12, 13, 13]
  const ORDER: seq<nat> := [16, 17, 18, 0, 8, 7, 9, 6, 10, 5, 11, 4, 12, 3, 13, 2, 14, 1, 15]
  /** Position of each code length symbol in `ORDER`. */
  const PLACE: seq<nat> := [3, 17, 15, 13, 11, 9, 7, 5, 4, 6, 8, 10, 12, 14, 16, 18, 0, 1, 2]

  const MAXLCODES := 286
  const MAXDCODES := 30
  const FIXLCODES := 288

  function LenBase(l: nat): nat
    requires l < 29
  {
    LENS[l]
  }

  function LenExtraBits(l: nat): nat
    requires l < 29
  {
    LEXT[l]
  }

  function DistBase(d: nat): (r: nat)
    requires d < 30
    ensures r > 0
  {
    DISTS[d]
  }

  function DistExtraBits(d: nat): nat
    requires d < 30
  {
    DEXT[d]
  }

  function OrderAt(i: nat): nat
    requires i < 19
  {
    ORDER[i]
  }

  function PlaceOf(j: nat): nat
    requires j < 19
  {
    PLACE[j]
  }

  lemma PlaceInvertsOrder()
    ensures forall i :: 0 <= i < 19 ==> 0 <= OrderAt(i) < 19 && PlaceOf(OrderAt(i)) == i
    ensures forall j :: 0 <= j < 19 ==> 0 <= PlaceOf(j) < 19 && OrderAt(PlaceOf(j)) == j
  {}

  /** No room for `n` bytes; without a destination (`None`) there always is. */
  predicate Overflows(limit: Option<nat>, n: nat) { limit.Some? && n > limit.value }

  /** The symbol whose codeword comes next. Without one the error says whether
      a codeword of full length could have been read. */
  ghost function DecodeSymbol(B: seq<bit>, p: nat, L: seq<codelen>): (r: Symbol)
    ensures r.Symbol? ==> r.sym < |L| && p < r.pos <= |B|
    ensures r.NoSymbol? ==> r.err < 0
  {
    if exists s: nat :: Matches(B, p, L, s) then
      var s: nat :| Matches(B, p, L, s);
      Symbol(s, p + L[s])
    else if p + MAXBITS <= |B| then NoSymbol(-10) else NoSymbol(-12)
  }

  lemma DecodeSymbolIs(B: seq<bit>, p: nat, L: seq<codelen>, s: nat)
    requires Matches(B, p, L, s)
    ensures DecodeSymbol(B, p, L) == Symbol(s, p + L[s])
  {
    var t: nat :| Matches(B, p, L, t) && DecodeSymbol(B, p, L) == Symbol(t, p + L[t]);
    MatchUnique(B, p, L, s, t);
  }

  /** The LZ77 back-copy, byte by byte; bytes before the start of the output read as 0. */
  function BackCopy(out: seq<byte>, dist: nat, len: nat): (r: seq<byte>)
    requires dist > 0
    ensures |r| == |out| + len && r[..|out|] == out
    decreases len
  {
    if len == 0 then out
    else
      var next := out + [if dist > |out| then 0 else out[|out| - dist]];
      var r := BackCopy(next, dist, len - 1);
      assert r[..|out|] == r[..|next|][..|out|] == out;
      r
  }

  /** A copy repeats with period `dist`, also where source and destination overlap. */
  lemma {:induction false} BackCopyPeriodic(out: seq<byte>, dist: nat, len: nat, i: nat)
    requires 0 < dist && |out| <= i < |out| + len
    ensures BackCopy(out, dist, len)[i] == if dist > i then 0 else BackCopy(out, dist, len)[i - dist]
    decreases len
  {
    var next := out + [if dist > |out| then 0 else out[|out| - dist]];
    var r := BackCopy(next, dist, len - 1);
    if i == |out| {
      assert r[i] == r[..|next|][i];
      if dist <= i { assert r[i - dist] == r[..|next|][i - dist]; }
    } else {
      BackCopyPeriodic(next, dist, len - 1, i);
    }
  }

  /** One round of decoding compressed data: go on from a position with more output, or stop. */
  datatype Round = Next(pos: nat, out: seq<byte>) | Stop(result: Result)

  /** What follows length symbol 257 + `l`. */
  ghost function CopyRound(B: seq<bit>, p: nat, out: seq<byte>, l: nat, DL: seq<codelen>, limit: Option<nat>): (r: Round)
    requires |DL| <= MAXDCODES && p <= |B|
    ensures r.Next? ==> p < r.pos <= |B| && !Overflows(limit, |r.out|)
    ensures r.Stop? ==> r.result.Fail? && r.result.err != 0
  {
    if l >= 29 then Stop(Fail(-10, out))
    else
      var q1 := p + LenExtraBits(l);
      if q1 > |B| then Stop(Fail(-12, out))
      else
        var len := LenBase(l) + Lsb(B, p, LenExtraBits(l));
        match DecodeSymbol(B, q1, DL)
        case NoSymbol(e) => Stop(Fail(e, out))
        case Symbol(d, q2) =>
          var q3 := q2 + DistExtraBits(d);
          if q3 > |B| then Stop(Fail(-12, out))
          else
            var dist := DistBase(d) + Lsb(B, q2, DistExtraBits(d));
            if Overflows(limit, |out| + len) then Stop(Fail(1, out))
            else Next(q3, BackCopy(out, dist, len))
  }

  ghost function CodesRound(B: seq<bit>, p: nat, out: seq<byte>, LL: seq<codelen>, DL: seq<codelen>, limit: Option<nat>): (r: Round)
    requires |LL| <= FIXLCODES && |DL| <= MAXDCODES
    ensures r.Stop? && r.result.Fail? ==> r.result.err != 0
    ensures r.Next? ==> p < r.pos <= |B| && !Overflows(limit, |r.out|)
    ensures r.Stop? && r.result.Done? ==> p < r.result.pos <= |B| && r.result.out == out
  {
    match DecodeSymbol(B, p, LL)
    case NoSymbol(e) => Stop(Fail(e, out))
    case Symbol(s, q) =>
      if s < 256 then
        if Overflows(limit, |out| + 1) then Stop(Fail(1, out)) else Next(q, out + [s])
      else if s == 256 then Stop(Done(q, out))
      else CopyRound(B, q, out, s - 257, DL, limit)
  }

  /** Compressed data up to and including the end-of-block symbol. */
  ghost function Codes(B: seq<bit>, p: nat, out: seq<byte>, LL: seq<codelen>, DL: seq<codelen>, limit: Option<nat>): (r: Result)
    requires |LL| <= FIXLCODES && |DL| <= MAXDCODES
    ensures r.Fail? ==> r.err != 0
    ensures r.Done? ==> p < r.pos <= |B|
    ensures r.Done? && !Overflows(limit, |out|) ==> !Overflows(limit, |r.out|)
    decreases |B| - p
  {
    match CodesRound(B, p, out, LL, DL, limit)
    case Stop(r) => r
    case Next(q, o) => Codes(B, q, o, LL, DL, limit)
  }

  /** First byte boundary at or after bit position `p`. */
  function Align(p: nat): nat { (p + 7) / 8 * 8 }

  function BytesAt(B: seq<bit>, p: nat, n: nat): (w: seq<byte>)
    requires p + 8 * n <= |B|
    ensures |w| == n && forall i :: 0 <= i < n ==> w[i] == Lsb(B, p + 8 * i, 8)
  {
    assert Pow2(8) == 256;
    seq(n, i requires 0 <= i < n => Lsb(B, p + 8 * i, 8) as byte)
  }

  ghost function StoredBytes(B: seq<bit>, p: nat, len: nat, out: seq<byte>, limit: Option<nat>): (r: Result)
    ensures r.Fail? ==> r.err != 0
    ensures r.Done? ==> p <= r.pos <= |B|
    ensures r.Done? && !Overflows(limit, |out|) ==> !Overflows(limit, |r.out|)
  {
    if p + 8 * len > |B| then Fail(2, out)
    else if Overflows(limit, |out| + len) then Fail(1, out)
    else Done(p + 8 * len, out + BytesAt(B, p, len))
  }

  ghost function StoredBlock(B: seq<bit>, p: nat, out: seq<byte>, limit: Option<nat>): (r: Result)
    ensures r.Fail? ==> r.err != 0
    ensures r.Done? ==> p < r.pos <= |B|
    ensures r.Done? && !Overflows(limit, |out|) ==> !Overflows(limit, |r.out|)
  {
    var a := Align(p);
    if a + 32 > |B| then Fail(2, out)
    else
      var len := Lsb(B, a, 16);
      if Lsb(B, a + 16, 16) != 65535 - len then Fail(-2, out)
      else StoredBytes(B, a + 32, len, out, limit)
  }

  function FixedLiteralLengths(): (L: seq<codelen>)
    ensures |L| == FIXLCODES
  {
    seq(FIXLCODES, s => if s < 144 then 8 else if s < 256 then 9 else if s < 280 then 7 else 8)
  }

  function FixedDistanceLengths(): (L: seq<codelen>)
    ensures |L| == MAXDCODES
  {
    seq(MAXDCODES, s => 5)
  }

  /** The fixed literal code fills its code space; the fixed distance code leaves two codewords free. */
  lemma FixedCodesFit()
    ensures ConstructResult(FixedLiteralLengths()) == 0
    ensures ConstructResult(FixedDistanceLengths()) == 2048
  {
    hide ConstructResult, Kraft, Pow2;
    FixedComplete(FIXLCODES);
    KraftFives(MAXDCODES);
    ConstructResultMeaning(FixedLiteralLengths());
    assert FixedDistanceLengths()[0] == 5;
    ConstructResultMeaning(FixedDistanceLengths());
  }

  lemma {:induction false} FixedComplete(k: nat)
    requires k <= FIXLCODES
    ensures Kraft(FixedLiteralLengths(), k, MAXBITS)
            == if k <= 144 then 128 * k else if k <= 256 then 128 * 144 + 64 * (k - 144)
               else if k <= 280 then 25600 + 256 * (k - 256) else 31744 + 128 * (k - 280)
    ensures Pow2(MAXBITS) == 32768
  {
    assert Pow2(6) == 64 && Pow2(7) == 128 && Pow2(8) == 256;
    Pow2Add(8, 7);
    if k != 0 { FixedComplete(k - 1); }
  }

  lemma {:induction false} KraftFives(k: nat)
    requires k <= MAXDCODES
    ensures Kraft(FixedDistanceLengths(), k, MAXBITS) == 1024 * k
  {
    assert Pow2(5) == 32;
    Pow2Add(5, 5);
    if k != 0 { KraftFives(k - 1); }
  }

  /** The 3-bit code length code lengths, transmitted in `ORDER`, the untransmitted ones 0. */
  ghost function CodeLengthLengths(B: seq<bit>, p: nat, n: nat): (L: seq<codelen>)
    requires n <= 19 && p + 3 * n <= |B|
    ensures |L| == 19
  {
    assert Pow2(3) == 8;
    seq(19, j requires 0 <= j < 19 => if PlaceOf(j) < n then Lsb(B, p + 3 * PlaceOf(j), 3) as codelen else 0)
  }

  function Repeat(l: codelen, n: nat): (r: seq<codelen>)
    ensures |r| == n && forall i :: 0 <= i < n ==> r[i] == l
  {
    seq(n, i => l)
  }

  /** The lengths extended by a run, for code length symbols 16 to 18. */
  ghost function ReadRun(B: seq<bit>, p: nat, s: nat, total: nat, acc: seq<codelen>): (r: Lengths)
    requires 16 <= s < 19 && p <= |B|
    ensures r.Lengths? ==> p <= r.pos <= |B| && |acc| < |r.lens| <= total
    ensures r.BadLengths? ==> r.err < 0
  {
    if s == 16 && |acc| == 0 then BadLengths(-5)
    else
      var extra := if s == 16 then 2 else if s == 17 then 3 else 7;
      if p + extra > |B| then BadLengths(-12)
      else
        var n := (if s == 18 then 11 else 3) + Lsb(B, p, extra);
        if |acc| + n > total then BadLengths(-6)
        else Lengths(p + extra, acc + Repeat(if s == 16 then acc[|acc| - 1] else 0, n))
  }

  /** The run-length coded code lengths, until there are `total` of them. */
  ghost function ReadLengths(B: seq<bit>, p: nat, CL: seq<codelen>, total: nat, acc: seq<codelen>): (r: Lengths)
    requires |CL| == 19 && |acc| <= total && p <= |B|
    ensures r.Lengths? ==> p <= r.pos <= |B| && |r.lens| == total
    ensures r.BadLengths? ==> r.err < 0
    decreases total - |acc|
  {
    if |acc| == total then Lengths(p, acc)
    else match DecodeSymbol(B, p, CL)
      case NoSymbol(e) => BadLengths(e)
      case Symbol(s, q) =>
        if s < 16 then ReadLengths(B, q, CL, total, acc + [s])
        else match ReadRun(B, q, s, total, acc)
          case BadLengths(e) => BadLengths(e)
          case Lengths(q1, acc1) => ReadLengths(B, q1, CL, total, acc1)
  }

  /** A code is refused when over-subscribed, or when incomplete unless all its codewords are one bit. */
  predicate Usable(L: seq<codelen>) {
    var e := ConstructResult(L);
    e == 0 || (e > 0 && |L| == Count(L, 0) + Count(L, 1))
  }

  lemma {:induction false} CountsOneIff(L: seq<codelen>, k: nat)
    requires k <= |L|
    ensures CountUpTo(L, 0, k) + CountUpTo(L, 1, k) <= k
    ensures CountUpTo(L, 0, k) + CountUpTo(L, 1, k) == k <==> forall s :: 0 <= s < k ==> L[s] <= 1
  {
    if k != 0 { CountsOneIff(L, k - 1); }
  }

  /** Usable are the complete codes, and those with codewords of one bit only that are not over-subscribed. */
  lemma UsableIff(L: seq<codelen>)
    ensures Usable(L) <==> || Kraft(L, |L|, MAXBITS) == Pow2(MAXBITS)
                           || (Kraft(L, |L|, MAXBITS) <= Pow2(MAXBITS) && forall s :: 0 <= s < |L| ==> L[s] <= 1)
  {
    hide ConstructResult, Kraft, Pow2;
    ConstructResultMeaning(L);
    CountsOneIff(L, |L|);
    if NoCodewords(L) { NoSpace(L, |L|, MAXBITS); }
  }

  datatype CodePair = CodePair(pos: nat, literal: seq<codelen>, distance: seq<codelen>) | BadCodes(err: int)

  /** The lengths of a dynamic block's two codes, given the code for the lengths themselves. */
  ghost function ReadCodePair(B: seq<bit>, p: nat, CL: seq<codelen>, nlen: nat, ndist: nat): (r: CodePair)
    requires |CL| == 19 && p <= |B| && 257 <= nlen <= MAXLCODES && 1 <= ndist <= MAXDCODES
    ensures r.BadCodes? ==> r.err < 0
    ensures r.CodePair? ==> p <= r.pos <= |B| && |r.literal| == nlen && |r.distance| == ndist
  {
    if ConstructResult(CL) != 0 then BadCodes(-4)
    else match ReadLengths(B, p, CL, nlen + ndist, [])
      case BadLengths(e) => BadCodes(e)
      case Lengths(q, L) =>
        if L[256] == 0 then BadCodes(-9)
        else if !Usable(L[..nlen]) then BadCodes(-7)
        else if !Usable(L[nlen..]) then BadCodes(-8)
        else CodePair(q, L[..nlen], L[nlen..])
  }

  ghost function ReadHeader(B: seq<bit>, p: nat): (r: CodePair)
    ensures r.BadCodes? ==> r.err < 0
    ensures r.CodePair? ==> p < r.pos <= |B| && |r.literal| <= MAXLCODES && |r.distance| <= MAXDCODES
  {
    if p + 14 > |B| then BadCodes(-12)
    else
      var nlen := Lsb(B, p, 5) + 257;
      var ndist := Lsb(B, p + 5, 5) + 1;
      var ncode := Lsb(B, p + 10, 4) + 4;
      assert Pow2(4) == 16;
      if nlen > MAXLCODES || ndist > MAXDCODES then BadCodes(-3)
      else if p + 14 + 3 * ncode > |B| then BadCodes(-12)
      else ReadCodePair(B, p + 14 + 3 * ncode, CodeLengthLengths(B, p + 14, ncode), nlen, ndist)
  }

  ghost function DynamicBlock(B: seq<bit>, p: nat, out: seq<byte>, limit: Option<nat>): (r: Result)
    ensures r.Fail? ==> r.err != 0
    ensures r.Done? ==> p < r.pos <= |B|
    ensures r.Done? && !Overflows(limit, |out|) ==> !Overflows(limit, |r.out|)
  {
    match ReadHeader(B, p)
    case BadCodes(e) => Fail(e, out)
    case CodePair(q, LL, DL) => Codes(B, q, out, LL, DL, limit)
  }

  /** One block, its 3-bit header included. */
  ghost function Block(B: seq<bit>, p: nat, out: seq<byte>, limit: Option<nat>): (r: Result)
    requires p + 3 <= |B|
    ensures r.Fail? ==> r.err != 0
    ensures r.Done? ==> p < r.pos <= |B|
    ensures r.Done? && !Overflows(limit, |out|) ==> !Overflows(limit, |r.out|)
  {
    match Lsb(B, p + 1, 2)
    case 0 => StoredBlock(B, p + 3, out, limit)
    case 1 => Codes(B, p + 3, out, FixedLiteralLengths(), FixedDistanceLengths(), limit)
    case 2 => DynamicBlock(B, p + 3, out, limit)
    case _ => Fail(-1, out)
  }

  /** Blocks up to and including the one marked last. */
  ghost function Blocks(B: seq<bit>, p: nat, out: seq<byte>, limit: Option<nat>): (r: Result)
    ensures r.Fail? ==> r.err != 0
    ensures r.Done? ==> p < r.pos <= |B|
    ensures r.Done? && !Overflows(limit, |out|) ==> !Overflows(limit, |r.out|)
    decreases |B| - p
  {
    if p + 3 > |B| then Fail(-12, out)
    else
      var r := Block(B, p, out, limit);
      if r.Fail? || B[p] == 1 then r else Blocks(B, r.pos, r.out, limit)
  }
}
