/** Whole DEFLATE streams: blocks, headers and padding. A stream decodes without error
    exactly when it begins with an encoding, and then to what was encoded. */
module DeflateStream {
  import opened Bits
  import opened Huffman
  import opened Inflate
  import opened DeflateFormat

  /** The header of a dynamic block (section 3.2.7): the lengths of its two codes. */
  datatype Header = Header(nlen: nat, ndist: nat, transmitted: seq<codelen>, ops: seq<LengthOp>) {
    function ClLengths(): (L: seq<codelen>)
      ensures |L| == 19
    {
      seq(19, j requires 0 <= j < 19 => if PlaceOf(j) < |transmitted| then transmitted[PlaceOf(j)] else 0)
    }

    function Lens(): seq<codelen> { ExpandOps(ops, []) }

    ghost predicate CountsOk() {
      && 257 <= nlen <= MAXLCODES && 1 <= ndist <= MAXDCODES
      && 4 <= |transmitted| <= 19 && forall i :: 0 <= i < |transmitted| ==> transmitted[i] < 8
    }

    ghost predicate Valid(): (v: bool)
      ensures v ==> nlen >= 257 && ndist >= 1 && |transmitted| >= 4 && |Lens()| == nlen + ndist
    {
      CountsOk() && ValidCodePair(ClLengths(), ops, nlen, ndist)
    }

    function LL(): (L: seq<codelen>)
      requires nlen <= |Lens()|
      ensures |L| == nlen
    {
      Lens()[..nlen]
    }

    function DL(): seq<codelen>
      requires nlen <= |Lens()|
    {
      Lens()[nlen..]
    }

    function EncodeCounts(): seq<bit>
      requires nlen >= 257 && ndist >= 1 && |transmitted| >= 4
    {
      LsbBits(nlen - 257, 5) + (LsbBits(ndist - 1, 5) + (LsbBits(|transmitted| - 4, 4) + ThreeBits(transmitted)))
    }

    function Encode(): seq<bit>
      requires nlen >= 257 && ndist >= 1 && |transmitted| >= 4
    {
      EncodeCounts() + EncodeOps(ops, ClLengths())
    }
  }

  ghost predicate ValidCodePair(CL: seq<codelen>, ops: seq<LengthOp>, nlen: nat, ndist: nat)
    requires |CL| == 19
  {
    && 257 <= nlen <= MAXLCODES && 1 <= ndist <= MAXDCODES
    && ConstructResult(CL) == 0 && ValidOps(ops, CL, true)
    && var L := ExpandOps(ops, []);
    && |L| == nlen + ndist && L[256] > 0 && Usable(L[..nlen]) && Usable(L[nlen..])
  }

  datatype Block =
    | Stored(pad: seq<bit>, data: seq<byte>)
    | Fixed(tokens: seq<Token>)
    | Dynamic(header: Header, tokens: seq<Token>)
  {
    /** What the standard and the decoder demand of a block whose header starts at bit `p`. */
    ghost predicate Valid(p: nat) {
      match this
      case Stored(pad, data) => |pad| == Align(p + 3) - (p + 3) && |data| < 65536
      case Fixed(ts) => ValidTokens(ts, FixedLiteralLengths(), FixedDistanceLengths())
      case Dynamic(h, ts) => h.Valid() && ValidTokens(ts, h.LL(), h.DL())
    }

    function Type(): nat { match this case Stored(_, _) => 0 case Fixed(_) => 1 case Dynamic(_, _) => 2 }

    ghost function Body(p: nat): seq<bit>
      requires Valid(p)
    {
      match this
      case Stored(pad, data) =>
        pad + (LsbBits(|data|, 16) + (LsbBits(65535 - |data|, 16) + Stream(data)))
      case Fixed(ts) => EncodeTokens(ts, FixedLiteralLengths(), FixedDistanceLengths())
      case Dynamic(h, ts) => h.Encode() + EncodeTokens(ts, h.LL(), h.DL())
    }

    ghost function Encode(last: bit, p: nat): seq<bit>
      requires Valid(p)
    {
      [last] + (LsbBits(Type(), 2) + Body(p))
    }

    function Expand(out: seq<byte>): (r: seq<byte>)
      ensures |r| >= |out|
    {
      match this
      case Stored(_, data) => out + data
      case Fixed(ts) => ExpandTokens(ts, out)
      case Dynamic(_, ts) => ExpandTokens(ts, out)
    }
  }

  function ThreeBits(ls: seq<codelen>): (w: seq<bit>)
    ensures |w| == 3 * |ls|
  {
    if ls == [] then [] else ThreeBits(ls[..|ls| - 1]) + LsbBits(ls[|ls| - 1], 3)
  }

  // ---------- stored blocks ----------

  lemma {:induction false} AtStream(B: seq<bit>, p: nat, data: seq<byte>)
    ensures At(B, p, Stream(data)) <==> p + 8 * |data| <= |B| && BytesAt(B, p, |data|) == data
  {
    if data == [] {
      AtEmpty(B, p);
    } else {
      var n := |data| - 1;
      AtConcat(B, p, Stream(data[..n]), LsbBits(data[n], 8));
      AtStream(B, p, data[..n]);
      LastByte(B, p, data, n);
    }
  }

  lemma LastByte(B: seq<bit>, p: nat, data: seq<byte>, n: nat)
    requires |data| == n + 1
    ensures p + 8 * |data| <= |B| && BytesAt(B, p, |data|) == data
            <==> (p + 8 * n <= |B| && BytesAt(B, p, n) == data[..n]) && At(B, p + 8 * n, LsbBits(data[n], 8))
  {
    assert Pow2(8) == 256;
    AtLsb(B, p + 8 * n, data[n], 8);
    hide At, LsbBits, Lsb;
    if p + 8 * n + 8 <= |B| {
      assert data == data[..n] + [data[n]];
      assert BytesAt(B, p, n + 1) == BytesAt(B, p, n) + [Lsb(B, p + 8 * n, 8)];
    }
  }

  lemma Pow16()
    ensures Pow2(16) == 65536
  {
    assert Pow2(8) == 256;
    Pow2Add(8, 8);
  }

  lemma StoredLayout(B: seq<bit>, a: nat, data: seq<byte>)
    requires |data| < 65536
    ensures At(B, a, LsbBits(|data|, 16) + (LsbBits(65535 - |data|, 16) + Stream(data))) <==>
              && a + 32 + 8 * |data| <= |B|
              && Lsb(B, a, 16) == |data| && Lsb(B, a + 16, 16) == 65535 - |data|
              && BytesAt(B, a + 32, |data|) == data
  {
    hide *;
    Pow16();
    AtConcat(B, a, LsbBits(|data|, 16), LsbBits(65535 - |data|, 16) + Stream(data));
    AtConcat(B, a + 16, LsbBits(65535 - |data|, 16), Stream(data));
    AtLsb(B, a, |data|, 16);
    AtLsb(B, a + 16, 65535 - |data|, 16);
    AtStream(B, a + 32, data);
  }

  /** A stored block's body lies at `p`, with `a` the byte boundary, exactly when
      the decoder finds its parts there. */
  lemma StoredAt(B: seq<bit>, p: nat, a: nat, pad: seq<bit>, data: seq<byte>)
    requires a == p + |pad| && |data| < 65536
    ensures At(B, p, pad + (LsbBits(|data|, 16) + (LsbBits(65535 - |data|, 16) + Stream(data)))) <==>
              && At(B, p, pad)
              && a + 32 + 8 * |data| <= |B|
              && Lsb(B, a, 16) == |data| && Lsb(B, a + 16, 16) == 65535 - |data|
              && BytesAt(B, a + 32, |data|) == data
  {
    hide *;
    AtConcat(B, p, pad, LsbBits(|data|, 16) + (LsbBits(65535 - |data|, 16) + Stream(data)));
    StoredLayout(B, a, data);
  }

  lemma StoredComplete(B: seq<bit>, p: nat, b: Block, out: seq<byte>, limit: Option<nat>)
    requires b.Stored? && b.Valid(p) && At(B, p + 3, b.Body(p))
    requires !Overflows(limit, |b.Expand(out)|)
    ensures StoredBlock(B, p + 3, out, limit) == Done(p + 3 + |b.Body(p)|, b.Expand(out))
  {
    hide At, Lsb, LsbBits, Stream, BytesAt;
    StoredAt(B, p + 3, Align(p + 3), b.pad, b.data);
  }

  lemma AtSlice(B: seq<bit>, p: nat, q: nat)
    requires p <= q <= |B|
    ensures At(B, p, B[p..q])
  {}

  lemma StoredSound(B: seq<bit>, p: nat, out: seq<byte>, limit: Option<nat>) returns (b: Block)
    requires StoredBlock(B, p + 3, out, limit).Done?
    ensures b.Stored? && b.Valid(p) && At(B, p + 3, b.Body(p))
    ensures StoredBlock(B, p + 3, out, limit) == Done(p + 3 + |b.Body(p)|, b.Expand(out))
  {
    hide At, Lsb, LsbBits, Stream, BytesAt;
    var a := Align(p + 3);
    b := Stored(B[p + 3..a], BytesAt(B, a + 32, Lsb(B, a, 16)));
    AtSlice(B, p + 3, a);
    StoredAt(B, p + 3, a, b.pad, b.data);
  }

  // ---------- dynamic headers ----------

  lemma {:induction false} AtThreeBits(B: seq<bit>, p: nat, ls: seq<codelen>)
    requires forall i :: 0 <= i < |ls| ==> ls[i] < 8
    ensures At(B, p, ThreeBits(ls)) <==>
              p + 3 * |ls| <= |B| && forall i :: 0 <= i < |ls| ==> Lsb(B, p + 3 * i, 3) == ls[i]
  {
    hide At, LsbBits, Lsb, Pow2;
    if ls == [] {
      AtEmpty(B, p);
    } else {
      var n := |ls| - 1;
      AtConcat(B, p, ThreeBits(ls[..n]), LsbBits(ls[n], 3));
      AtThreeBits(B, p, ls[..n]);
      AtThree(B, p + 3 * n, ls[n]);
      assert forall i :: 0 <= i < n ==> ls[..n][i] == ls[i];
    }
  }

  lemma AtThree(B: seq<bit>, p: nat, v: nat)
    requires v < 8
    ensures At(B, p, LsbBits(v, 3)) <==> p + 3 <= |B| && Lsb(B, p, 3) == v
  {
    assert Pow2(3) == 8;
    hide *;
    AtLsb(B, p, v, 3);
  }

  lemma HeaderLayout(B: seq<bit>, p: nat, h: Header)
    requires h.CountsOk()
    ensures |h.EncodeCounts()| == 14 + 3 * |h.transmitted|
    ensures At(B, p, h.EncodeCounts()) <==>
              && p + 14 + 3 * |h.transmitted| <= |B|
              && Lsb(B, p, 5) == h.nlen - 257 && Lsb(B, p + 5, 5) == h.ndist - 1
              && Lsb(B, p + 10, 4) == |h.transmitted| - 4
              && forall i :: 0 <= i < |h.transmitted| ==> Lsb(B, p + 14 + 3 * i, 3) == h.transmitted[i]
  {
    hide At, LsbBits, Lsb, ThreeBits;
    CountsLayout(B, p, h.nlen - 257, h.ndist - 1, |h.transmitted| - 4, ThreeBits(h.transmitted));
    AtThreeBits(B, p + 14, h.transmitted);
  }

  lemma CountsLayout(B: seq<bit>, p: nat, x: nat, y: nat, z: nat, w: seq<bit>)
    requires x < 32 && y < 32 && z < 16
    ensures At(B, p, LsbBits(x, 5) + (LsbBits(y, 5) + (LsbBits(z, 4) + w))) <==>
              && p + 14 <= |B| && Lsb(B, p, 5) == x && Lsb(B, p + 5, 5) == y && Lsb(B, p + 10, 4) == z
              && At(B, p + 14, w)
  {
    assert Pow2(5) == 32 && Pow2(4) == 16;
    hide *;
    AtConcat(B, p, LsbBits(x, 5), LsbBits(y, 5) + (LsbBits(z, 4) + w));
    AtConcat(B, p + 5, LsbBits(y, 5), LsbBits(z, 4) + w);
    AtConcat(B, p + 10, LsbBits(z, 4), w);
    AtLsb(B, p, x, 5);
    AtLsb(B, p + 5, y, 5);
    AtLsb(B, p + 10, z, 4);
  }

  lemma ClLengthsRead(B: seq<bit>, p: nat, h: Header)
    requires |h.transmitted| <= 19 && p + 3 * |h.transmitted| <= |B|
    requires forall i :: 0 <= i < |h.transmitted| ==> Lsb(B, p + 3 * i, 3) == h.transmitted[i]
    ensures CodeLengthLengths(B, p, |h.transmitted|) == h.ClLengths()
  {
    hide Lsb;
    PlaceInvertsOrder();
  }

  lemma CodePairComplete(B: seq<bit>, p: nat, CL: seq<codelen>, ops: seq<LengthOp>, nlen: nat, ndist: nat)
    requires |CL| == 19 && ValidCodePair(CL, ops, nlen, ndist) && p <= |B| && At(B, p, EncodeOps(ops, CL))
    ensures ReadCodePair(B, p, CL, nlen, ndist)
            == CodePair(p + |EncodeOps(ops, CL)|, ExpandOps(ops, [])[..nlen], ExpandOps(ops, [])[nlen..])
  {
    hide At, ConstructResult, ReadLengths, EncodeOps, ExpandOps, ValidOps, Usable;
    LengthsComplete(B, p, ops, CL, nlen + ndist, []);
  }

  lemma CodePairSound(B: seq<bit>, p: nat, CL: seq<codelen>, nlen: nat, ndist: nat) returns (ops: seq<LengthOp>)
    requires |CL| == 19 && p <= |B| && 257 <= nlen <= MAXLCODES && 1 <= ndist <= MAXDCODES
    requires ReadCodePair(B, p, CL, nlen, ndist).CodePair?
    ensures ValidCodePair(CL, ops, nlen, ndist) && At(B, p, EncodeOps(ops, CL))
    ensures ReadCodePair(B, p, CL, nlen, ndist)
            == CodePair(p + |EncodeOps(ops, CL)|, ExpandOps(ops, [])[..nlen], ExpandOps(ops, [])[nlen..])
  {
    hide At, ConstructResult, ReadLengths, EncodeOps, ExpandOps, ValidOps, Usable;
    ops := LengthsSound(B, p, CL, nlen + ndist, []);
  }

  lemma HeaderComplete(B: seq<bit>, p: nat, h: Header)
    requires h.Valid() && At(B, p, h.Encode())
    ensures ReadHeader(B, p) == CodePair(p + |h.Encode()|, h.LL(), h.DL())
  {
    hide At, Lsb, EncodeOps, ExpandOps, CodeLengthLengths, ReadCodePair, Header.EncodeCounts, Header.ClLengths;
    AtConcat(B, p, h.EncodeCounts(), EncodeOps(h.ops, h.ClLengths()));
    HeaderLayout(B, p, h);
    ClLengthsRead(B, p + 14, h);
    CodePairComplete(B, p + 14 + 3 * |h.transmitted|, h.ClLengths(), h.ops, h.nlen, h.ndist);
  }

  function Triples(B: seq<bit>, p: nat, n: nat): (w: seq<codelen>)
    requires p + 3 * n <= |B|
    ensures |w| == n && forall i :: 0 <= i < n ==> w[i] < 8 && w[i] == Lsb(B, p + 3 * i, 3)
  {
    assert Pow2(3) == 8;
    seq(n, i requires 0 <= i < n => Lsb(B, p + 3 * i, 3) as codelen)
  }

  lemma FieldBounds(B: seq<bit>, p: nat)
    requires p + 14 <= |B|
    ensures Lsb(B, p, 5) < 32 && Lsb(B, p + 5, 5) < 32 && Lsb(B, p + 10, 4) < 16
  {
    assert Pow2(5) == 32 && Pow2(4) == 16;
  }

  /** The counts and code length code of a header that was read. */
  lemma CountsRead(B: seq<bit>, p: nat) returns (h: Header)
    requires ReadHeader(B, p).CodePair?
    ensures h.CountsOk() && h.ops == [] && p + 14 + 3 * |h.transmitted| <= |B|
    ensures Lsb(B, p, 5) == h.nlen - 257 && Lsb(B, p + 5, 5) == h.ndist - 1
    ensures Lsb(B, p + 10, 4) == |h.transmitted| - 4
    ensures forall i :: 0 <= i < |h.transmitted| ==> Lsb(B, p + 14 + 3 * i, 3) == h.transmitted[i]
    ensures ReadHeader(B, p) == ReadCodePair(B, p + 14 + 3 * |h.transmitted|,
                                             CodeLengthLengths(B, p + 14, |h.transmitted|), h.nlen, h.ndist)
  {
    hide Pow2, Lsb, CodeLengthLengths, ReadCodePair, Triples;
    FieldBounds(B, p);
    var ncode := Lsb(B, p + 10, 4) + 4;
    h := Header(Lsb(B, p, 5) + 257, Lsb(B, p + 5, 5) + 1, Triples(B, p + 14, ncode), []);
  }

  lemma HeaderSound(B: seq<bit>, p: nat) returns (h: Header)
    requires ReadHeader(B, p).CodePair?
    ensures h.Valid() && At(B, p, h.Encode())
    ensures ReadHeader(B, p) == CodePair(p + |h.Encode()|, h.LL(), h.DL())
  {
    hide At, Lsb, EncodeOps, ExpandOps, CodeLengthLengths, ReadHeader, ReadCodePair, Header.EncodeCounts;
    var h0 := CountsRead(B, p);
    ClLengthsRead(B, p + 14, h0);
    var ops := CodePairSound(B, p + 14 + 3 * |h0.transmitted|, h0.ClLengths(), h0.nlen, h0.ndist);
    h := h0.(ops := ops);
    assert h.ClLengths() == h0.ClLengths();
    HeaderLayout(B, p, h);
    AtConcat(B, p, h.EncodeCounts(), EncodeOps(h.ops, h.ClLengths()));
  }

  lemma HeaderCodesOk(h: Header)
    requires h.Valid()
    ensures CodesOk(h.LL(), h.DL())
  {
    hide ConstructResult, ExpandOps, ValidOps, Header.ClLengths;
  }

  // ---------- blocks ----------

  lemma FixedCodesOk()
    ensures CodesOk(FixedLiteralLengths(), FixedDistanceLengths())
  {
    hide ConstructResult;
    FixedCodesFit();
  }

  lemma BlockComplete(B: seq<bit>, p: nat, b: Block, last: bit, out: seq<byte>, limit: Option<nat>)
    requires b.Valid(p) && At(B, p, b.Encode(last, p))
    requires !Overflows(limit, |b.Expand(out)|)
    ensures p + 3 <= |B| && B[p] == last
    ensures Inflate.Block(B, p, out, limit) == Done(p + |b.Encode(last, p)|, b.Expand(out))
  {
    hide At, Codes, DynamicBlock, StoredBlock, Lsb, EncodeTokens, CodesOk, Block.Encode, ExpandTokens, Header.Valid;
    BlockAt(B, p, b, last);
    match b
    case Stored(_, _) => StoredComplete(B, p, b, out, limit);
    case Fixed(ts) =>
      FixedCodesOk();
      CodesComplete(B, p + 3, ts, FixedLiteralLengths(), FixedDistanceLengths(), out, limit);
    case Dynamic(h, ts) => DynamicComplete(B, p, b, out, limit);
  }

  /** A block's encoding is its two header fields and its body. */
  lemma BlockAt(B: seq<bit>, p: nat, b: Block, last: bit)
    requires b.Valid(p)
    ensures |b.Encode(last, p)| == 3 + |b.Body(p)|
    ensures At(B, p, b.Encode(last, p)) <==>
              p + 3 <= |B| && B[p] == last && Lsb(B, p + 1, 2) == b.Type() && At(B, p + 3, b.Body(p))
  {
    hide Block.Body, Block.Valid, LsbBits, Lsb;
    assert Pow2(2) == 4;
    AtConcat(B, p, [last], LsbBits(b.Type(), 2) + b.Body(p));
    AtConcat(B, p + 1, LsbBits(b.Type(), 2), b.Body(p));
    AtLsb(B, p + 1, b.Type(), 2);
  }

  lemma DynamicComplete(B: seq<bit>, p: nat, b: Block, out: seq<byte>, limit: Option<nat>)
    requires b.Dynamic? && b.Valid(p) && At(B, p + 3, b.Body(p))
    requires !Overflows(limit, |b.Expand(out)|)
    ensures DynamicBlock(B, p + 3, out, limit) == Done(p + 3 + |b.Body(p)|, b.Expand(out))
  {
    hide At, Header.Encode, Header.Valid, Header.LL, Header.DL, ReadHeader, Codes, EncodeTokens, ExpandTokens, ValidTokens, CodesOk;
    var h, ts := b.header, b.tokens;
    AtConcat(B, p + 3, h.Encode(), EncodeTokens(ts, h.LL(), h.DL()));
    HeaderComplete(B, p + 3, h);
    HeaderCodesOk(h);
    CodesComplete(B, p + 3 + |h.Encode()|, ts, h.LL(), h.DL(), out, limit);
  }

  lemma DynamicSound(B: seq<bit>, p: nat, out: seq<byte>, limit: Option<nat>) returns (b: Block)
    requires DynamicBlock(B, p + 3, out, limit).Done?
    ensures b.Dynamic? && b.Valid(p) && At(B, p + 3, b.Body(p))
    ensures DynamicBlock(B, p + 3, out, limit) == Done(p + 3 + |b.Body(p)|, b.Expand(out))
  {
    hide At, Header.Encode, Header.Valid, Header.LL, Header.DL, ReadHeader, Codes, EncodeTokens, ExpandTokens, ValidTokens, CodesOk;
    var h := HeaderSound(B, p + 3);
    HeaderCodesOk(h);
    var ts := CodesSound(B, p + 3 + |h.Encode()|, h.LL(), h.DL(), out, limit);
    b := Block.Dynamic(h, ts);
    AtConcat(B, p + 3, h.Encode(), EncodeTokens(ts, h.LL(), h.DL()));
  }

  lemma BlockSound(B: seq<bit>, p: nat, out: seq<byte>, limit: Option<nat>) returns (b: Block)
    requires p + 3 <= |B| && Inflate.Block(B, p, out, limit).Done?
    ensures b.Valid(p) && At(B, p, b.Encode(B[p], p))
    ensures Inflate.Block(B, p, out, limit) == Done(p + |b.Encode(B[p], p)|, b.Expand(out))
  {
    hide At, Codes, DynamicBlock, StoredBlock, Lsb, EncodeTokens, CodesOk;
    match Lsb(B, p + 1, 2)
    case 0 =>
      b := StoredSound(B, p, out, limit);
      BlockAt(B, p, b, B[p]);
    case 1 =>
      FixedCodesOk();
      var ts := CodesSound(B, p + 3, FixedLiteralLengths(), FixedDistanceLengths(), out, limit);
      b := Block.Fixed(ts);
      BlockAt(B, p, b, B[p]);
    case 2 =>
      b := DynamicSound(B, p, out, limit);
      BlockAt(B, p, b, B[p]);
  }

  // ---------- streams ----------

  ghost predicate ValidBlocks(bs: seq<Block>, p: nat) {
    && bs != [] && bs[0].Valid(p)
    && (|bs| > 1 ==> ValidBlocks(bs[1..], p + |bs[0].Encode(0, p)|))
  }

  /** The blocks one after the other, only the last one marked as such. */
  ghost function EncodeBlocks(bs: seq<Block>, p: nat): seq<bit>
    requires ValidBlocks(bs, p)
  {
    hide Block.Valid, Block.Body, Block.Encode;
    var w := bs[0].Encode(if |bs| == 1 then 1 else 0, p);
    if |bs| == 1 then w else w + EncodeBlocks(bs[1..], p + |w|)
  }

  function ExpandBlocks(bs: seq<Block>, out: seq<byte>): (r: seq<byte>)
    ensures |r| >= |out|
  {
    if bs == [] then out else ExpandBlocks(bs[1..], bs[0].Expand(out))
  }

  /** Every encoding of every block list decodes to its expansion, given the room. */
  lemma {:induction false} StreamComplete(B: seq<bit>, p: nat, bs: seq<Block>, out: seq<byte>, limit: Option<nat>)
    requires ValidBlocks(bs, p) && At(B, p, EncodeBlocks(bs, p))
    requires !Overflows(limit, |ExpandBlocks(bs, out)|)
    ensures Blocks(B, p, out, limit) == Done(p + |EncodeBlocks(bs, p)|, ExpandBlocks(bs, out))
    decreases |bs|
  {
    hide At, Inflate.Block, Block.Encode, Block.Expand, Block.Valid;
    if |bs| == 1 {
      BlockComplete(B, p, bs[0], 1, out, limit);
    } else {
      var w := bs[0].Encode(0, p);
      AtConcat(B, p, w, EncodeBlocks(bs[1..], p + |w|));
      BlockComplete(B, p, bs[0], 0, out, limit);
      StreamComplete(B, p + |w|, bs[1..], bs[0].Expand(out), limit);
    }
  }

  /** Whatever decodes without error is the encoding of some block list. */
  lemma {:induction false} StreamSound(B: seq<bit>, p: nat, out: seq<byte>, limit: Option<nat>) returns (bs: seq<Block>)
    requires Blocks(B, p, out, limit).Done?
    ensures ValidBlocks(bs, p) && At(B, p, EncodeBlocks(bs, p))
    ensures Blocks(B, p, out, limit) == Done(p + |EncodeBlocks(bs, p)|, ExpandBlocks(bs, out))
    decreases |B| - p
  {
    hide At, Inflate.Block, Block.Encode, Block.Expand, Block.Valid;
    var b := BlockSound(B, p, out, limit);
    if B[p] == 1 {
      bs := [b];
    } else {
      var w := b.Encode(0, p);
      var rest := StreamSound(B, p + |w|, b.Expand(out), limit);
      bs := [b] + rest;
      assert bs[1..] == rest;
      AtConcat(B, p, w, EncodeBlocks(rest, p + |w|));
    }
  }

  /** An input decodes without error exactly when it begins with an encoding whose expansion has room. */
  lemma DecodesIffEncoded(B: seq<bit>, limit: Option<nat>)
    ensures Blocks(B, 0, [], limit).Done? <==>
              exists bs :: ValidBlocks(bs, 0) && At(B, 0, EncodeBlocks(bs, 0)) && !Overflows(limit, |ExpandBlocks(bs, [])|)
  {
    hide Blocks, ValidBlocks, EncodeBlocks, ExpandBlocks, At;
    if Blocks(B, 0, [], limit).Done? {
      var bs := StreamSound(B, 0, [], limit);
      assert ValidBlocks(bs, 0);
    }
    forall bs | ValidBlocks(bs, 0) && At(B, 0, EncodeBlocks(bs, 0)) && !Overflows(limit, |ExpandBlocks(bs, [])|)
      ensures Blocks(B, 0, [], limit).Done?
    {
      StreamComplete(B, 0, bs, [], limit);
    }
  }
}
