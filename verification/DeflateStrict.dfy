/** A stream has one encoding only, so whether its back-references stay inside the output, as RFC 1951 demands, is a
    property of the stream. */
module DeflateStrict {
  import opened Bits
  import opened Huffman
  import opened Inflate
  import opened DeflateFormat
  import opened DeflateStream

  // ---------- one encoding ----------

  lemma TokenUnique(B: seq<bit>, p: nat, t: Token, u: Token, LL: seq<codelen>, DL: seq<codelen>)
    requires CodesOk(LL, DL) && t.Valid(LL, DL) && u.Valid(LL, DL)
    requires At(B, p, t.Encode(LL, DL)) && At(B, p, u.Encode(LL, DL))
    ensures t == u
  {
    hide At, DecodeSymbol, Lsb, ConstructResult, Token.Encode, Pow2, LenBase, LenExtraBits, DistBase, DistExtraBits;
    TokenStep(B, p, t, LL, DL);
    TokenStep(B, p, u, LL, DL);
  }

  /** The end of the tokens is no token. */
  lemma EndUnique(B: seq<bit>, p: nat, t: Token, LL: seq<codelen>, DL: seq<codelen>)
    requires CodesOk(LL, DL) && t.Valid(LL, DL) && At(B, p, Codeword(LL, 256))
    ensures !At(B, p, t.Encode(LL, DL))
  {
    hide At, DecodeSymbol, Lsb, ConstructResult, Token.Encode, Pow2, LenBase, LenExtraBits, DistBase, DistExtraBits, Codeword;
    SymbolAtIff(B, p, LL, 256);
    TokenStep(B, p, t, LL, DL);
  }

  lemma {:induction false} TokensUnique(B: seq<bit>, p: nat, ts: seq<Token>, us: seq<Token>, LL: seq<codelen>, DL: seq<codelen>)
    requires CodesOk(LL, DL) && ValidTokens(ts, LL, DL) && ValidTokens(us, LL, DL)
    requires At(B, p, EncodeTokens(ts, LL, DL)) && At(B, p, EncodeTokens(us, LL, DL))
    ensures ts == us
    decreases |ts|
  {
    hide At, ConstructResult, Token.Encode, Token.Valid, Codeword;
    if ts != [] { AtConcat(B, p, ts[0].Encode(LL, DL), EncodeTokens(ts[1..], LL, DL)); }
    if us != [] { AtConcat(B, p, us[0].Encode(LL, DL), EncodeTokens(us[1..], LL, DL)); }
    if ts == [] {
      if us != [] { EndUnique(B, p, us[0], LL, DL); }
    } else if us == [] {
      EndUnique(B, p, ts[0], LL, DL);
    } else {
      TokenUnique(B, p, ts[0], us[0], LL, DL);
      TokensUnique(B, p + |ts[0].Encode(LL, DL)|, ts[1..], us[1..], LL, DL);
      assert ts == [ts[0]] + ts[1..] && us == [us[0]] + us[1..];
    }
  }

  lemma OpUnique(B: seq<bit>, p: nat, a: LengthOp, b: LengthOp, CL: seq<codelen>, first: bool)
    requires |CL| == 19 && ConstructResult(CL) >= 0 && a.Valid(CL, first) && b.Valid(CL, first)
    requires At(B, p, a.Encode(CL)) && At(B, p, b.Encode(CL))
    ensures a == b
  {
    hide At, DecodeSymbol, Lsb, ConstructResult, LengthOp.Encode, LengthOp.Extra, Codeword;
    OpLayout(B, p, a, CL, first);
    OpLayout(B, p, b, CL, first);
    SymbolAt(B, p, CL, a.Symbol());
    SymbolAt(B, p, CL, b.Symbol());
  }

  lemma {:induction false} OpsUnique(B: seq<bit>, p: nat, os: seq<LengthOp>, us: seq<LengthOp>, CL: seq<codelen>, total: nat,
                                     acc: seq<codelen>)
    requires |CL| == 19 && ConstructResult(CL) >= 0 && ValidOps(os, CL, acc == []) && ValidOps(us, CL, acc == []) && p <= |B|
    requires |ExpandOps(os, acc)| == total && |ExpandOps(us, acc)| == total
    requires At(B, p, EncodeOps(os, CL)) && At(B, p, EncodeOps(us, CL))
    ensures os == us
    decreases |os|
  {
    hide At, ConstructResult, LengthOp.Encode, LengthOp.Valid, LengthOp.Expand;
    if os != [] { FirstOp(B, p, os, CL, total, acc); }
    if us != [] { FirstOp(B, p, us, CL, total, acc); }
    if os != [] && us != [] {
      OpUnique(B, p, os[0], us[0], CL, acc == []);
      OpsUnique(B, p + |os[0].Encode(CL)|, os[1..], us[1..], CL, total, os[0].Expand(acc));
      assert os == [os[0]] + os[1..] && us == [us[0]] + us[1..];
    }
  }

  lemma FirstOp(B: seq<bit>, p: nat, os: seq<LengthOp>, CL: seq<codelen>, total: nat, acc: seq<codelen>)
    requires |CL| == 19 && ConstructResult(CL) >= 0 && os != [] && ValidOps(os, CL, acc == []) && p <= |B|
    requires |ExpandOps(os, acc)| == total && At(B, p, EncodeOps(os, CL))
    ensures |acc| < |os[0].Expand(acc)| <= total && p + |os[0].Encode(CL)| <= |B|
    ensures At(B, p, os[0].Encode(CL)) && At(B, p + |os[0].Encode(CL)|, EncodeOps(os[1..], CL))
  {
    hide At, ConstructResult, LengthOp.Encode, LengthOp.Valid, LengthOp.Expand, ReadLengths;
    AtConcat(B, p, os[0].Encode(CL), EncodeOps(os[1..], CL));
    ExpandGrows(os[1..], os[0].Expand(acc));
    LengthsStep(B, p, os[0], CL, total, acc);
  }

  lemma CountsUnique(B: seq<bit>, p: nat, h: Header, g: Header)
    requires h.CountsOk() && g.CountsOk() && At(B, p, h.EncodeCounts()) && At(B, p, g.EncodeCounts())
    ensures h.nlen == g.nlen && h.ndist == g.ndist && h.transmitted == g.transmitted && h.ClLengths() == g.ClLengths()
  {
    hide At, Lsb, Header.EncodeCounts;
    HeaderLayout(B, p, h);
    HeaderLayout(B, p, g);
    assert h.transmitted == g.transmitted;
  }

  lemma HeaderUnique(B: seq<bit>, p: nat, h: Header, g: Header)
    requires h.Valid() && g.Valid() && At(B, p, h.Encode()) && At(B, p, g.Encode())
    ensures h == g
  {
    hide At, EncodeOps, ExpandOps, ValidOps, ConstructResult, Usable, Header.EncodeCounts, Header.ClLengths;
    AtConcat(B, p, h.EncodeCounts(), EncodeOps(h.ops, h.ClLengths()));
    AtConcat(B, p, g.EncodeCounts(), EncodeOps(g.ops, g.ClLengths()));
    CountsUnique(B, p, h, g);
    HeaderLayout(B, p, h);
    HeaderLayout(B, p, g);
    var q := p + |h.EncodeCounts()|;
    AtFits(B, p, h.EncodeCounts());
    OpsUnique(B, q, h.ops, g.ops, h.ClLengths(), h.nlen + h.ndist, []);
  }

  lemma StoredUnique(B: seq<bit>, p: nat, b: Block, c: Block)
    requires b.Stored? && c.Stored? && b.Valid(p) && c.Valid(p) && At(B, p + 3, b.Body(p)) && At(B, p + 3, c.Body(p))
    ensures b == c
  {
    hide At, Lsb, LsbBits, Stream, BytesAt;
    var a := Align(p + 3);
    StoredAt(B, p + 3, a, b.pad, b.data);
    StoredAt(B, p + 3, a, c.pad, c.data);
    SameAt(B, p + 3, b.pad, c.pad);
  }

  lemma SameAt(B: seq<bit>, p: nat, u: seq<bit>, w: seq<bit>)
    requires At(B, p, u) && At(B, p, w) && |u| == |w|
    ensures u == w
  {}

  lemma DynamicUnique(B: seq<bit>, p: nat, b: Block, c: Block)
    requires b.Dynamic? && c.Dynamic? && b.Valid(p) && c.Valid(p) && At(B, p + 3, b.Body(p)) && At(B, p + 3, c.Body(p))
    ensures b == c
  {
    hide At, Header.Encode, Header.Valid, Header.LL, Header.DL, EncodeTokens, ValidTokens, CodesOk;
    var h, g := b.header, c.header;
    AtConcat(B, p + 3, h.Encode(), EncodeTokens(b.tokens, h.LL(), h.DL()));
    AtConcat(B, p + 3, g.Encode(), EncodeTokens(c.tokens, g.LL(), g.DL()));
    HeaderUnique(B, p + 3, h, g);
    HeaderCodesOk(h);
    TokensUnique(B, p + 3 + |h.Encode()|, b.tokens, c.tokens, h.LL(), h.DL());
  }

  lemma BlockUnique(B: seq<bit>, p: nat, b: Block, last: bit, c: Block, end: bit)
    requires b.Valid(p) && c.Valid(p) && At(B, p, b.Encode(last, p)) && At(B, p, c.Encode(end, p))
    ensures b == c && last == end
  {
    hide At, Lsb, EncodeTokens, ValidTokens, CodesOk, Header.Valid, Block.Encode;
    BlockAt(B, p, b, last);
    BlockAt(B, p, c, end);
    match b {
      case Stored(_, _) => StoredUnique(B, p, b, c);
      case Fixed(ts) =>
        FixedCodesOk();
        TokensUnique(B, p + 3, ts, c.tokens, FixedLiteralLengths(), FixedDistanceLengths());
      case Dynamic(_, _) => DynamicUnique(B, p, b, c);
    }
  }

  /** A bit stream begins with at most one encoding. */
  lemma {:induction false} EncodingUnique(B: seq<bit>, p: nat, bs: seq<Block>, cs: seq<Block>)
    requires ValidBlocks(bs, p) && ValidBlocks(cs, p) && At(B, p, EncodeBlocks(bs, p)) && At(B, p, EncodeBlocks(cs, p))
    ensures bs == cs
    decreases |bs|
  {
    hide At, Block.Encode, Block.Valid;
    FirstBlock(B, p, bs);
    FirstBlock(B, p, cs);
    BlockUnique(B, p, bs[0], if |bs| == 1 then 1 else 0, cs[0], if |cs| == 1 then 1 else 0);
    if |bs| > 1 {
      EncodingUnique(B, p + |bs[0].Encode(0, p)|, bs[1..], cs[1..]);
    }
    assert bs == [bs[0]] + bs[1..] && cs == [cs[0]] + cs[1..];
  }

  lemma FirstBlock(B: seq<bit>, p: nat, bs: seq<Block>)
    requires ValidBlocks(bs, p) && At(B, p, EncodeBlocks(bs, p))
    ensures bs != [] && bs[0].Valid(p) && At(B, p, bs[0].Encode(if |bs| == 1 then 1 else 0, p))
    ensures |bs| > 1 ==> var q := p + |bs[0].Encode(0, p)|; ValidBlocks(bs[1..], q) && At(B, q, EncodeBlocks(bs[1..], q))
  {
    hide At, Block.Encode, Block.Valid;
    if |bs| > 1 {
      var w := bs[0].Encode(0, p);
      AtConcat(B, p, w, EncodeBlocks(bs[1..], p + |w|));
    }
  }

  // ---------- back-references inside the output ----------

  /** No back-reference to before the start of the output. */
  predicate Inside(t: Token, out: seq<byte>) {
    match t
    case Literal(_) => true
    case Copy(l, _, d, de) => l < 29 && d < 30 ==> DistBase(d) + de <= |out|
  }

  predicate AllInside(ts: seq<Token>, out: seq<byte>) {
    ts == [] || (Inside(ts[0], out) && AllInside(ts[1..], ts[0].Expand(out)))
  }

  predicate BlockInside(b: Block, out: seq<byte>) { b.Stored? || AllInside(b.tokens, out) }

  predicate Strict(bs: seq<Block>, out: seq<byte>) {
    bs == [] || (BlockInside(bs[0], out) && Strict(bs[1..], bs[0].Expand(out)))
  }

  lemma {:induction false} CopyAfter(X: seq<byte>, out: seq<byte>, dist: nat, len: nat)
    requires 0 < dist <= |out|
    ensures BackCopy(X + out, dist, len) == X + BackCopy(out, dist, len)
    decreases len
  {
    if len > 0 {
      var b := out[|out| - dist];
      assert (X + out)[|X + out| - dist] == b;
      assert X + out + [b] == X + (out + [b]);
      CopyAfter(X, out + [b], dist, len - 1);
    }
  }

  lemma TokenAfter(X: seq<byte>, t: Token, out: seq<byte>)
    requires Inside(t, out)
    ensures t.Expand(X + out) == X + t.Expand(out)
  {
    hide BackCopy, DistBase, LenBase;
    match t {
      case Literal(b) => assert X + out + [b] == X + (out + [b]);
      case Copy(l, le, d, de) => if l < 29 && d < 30 { CopyAfter(X, out, DistBase(d) + de, LenBase(l) + le); }
    }
  }

  lemma {:induction false} TokensAfter(X: seq<byte>, ts: seq<Token>, out: seq<byte>)
    requires AllInside(ts, out)
    ensures ExpandTokens(ts, X + out) == X + ExpandTokens(ts, out)
    decreases |ts|
  {
    hide Inside, Token.Expand;
    if ts != [] {
      TokenAfter(X, ts[0], out);
      TokensAfter(X, ts[1..], ts[0].Expand(out));
    }
  }

  lemma BlockAfter(X: seq<byte>, b: Block, out: seq<byte>)
    requires BlockInside(b, out)
    ensures b.Expand(X + out) == X + b.Expand(out)
  {
    hide AllInside, ExpandTokens;
    match b {
      case Stored(_, data) => assert X + out + data == X + (out + data);
      case Fixed(ts) => TokensAfter(X, ts, out);
      case Dynamic(_, ts) => TokensAfter(X, ts, out);
    }
  }

  lemma {:induction false} StrictAfter(X: seq<byte>, bs: seq<Block>, out: seq<byte>)
    requires Strict(bs, out)
    ensures ExpandBlocks(bs, X + out) == X + ExpandBlocks(bs, out)
    decreases |bs|
  {
    hide BlockInside, Block.Expand;
    if bs != [] {
      BlockAfter(X, bs[0], out);
      StrictAfter(X, bs[1..], bs[0].Expand(out));
    }
  }

  // ---------- back-references to before it ----------

  /** `o` is not `X` before `w`, by a byte of `w`. */
  ghost predicate Differs(X: seq<byte>, o: seq<byte>, w: seq<byte>) {
    exists j :: 0 <= j < |w| && |X| + j < |o| && o[|X| + j] != w[j]
  }

  lemma DiffersLater(X: seq<byte>, o: seq<byte>, w: seq<byte>, o1: seq<byte>, w1: seq<byte>)
    requires Differs(X, o, w) && o <= o1 && w <= w1
    ensures Differs(X, o1, w1)
  {
    var j :| 0 <= j < |w| && |X| + j < |o| && o[|X| + j] != w[j];
    assert w1[j] == w[j] && o1[|X| + j] == o[|X| + j];
  }

  lemma ExpandPrefix(t: Token, out: seq<byte>)
    ensures out <= t.Expand(out)
  {
    hide BackCopy, LenBase, DistBase;
  }

  lemma {:induction false} TokensPrefix(ts: seq<Token>, out: seq<byte>)
    ensures out <= ExpandTokens(ts, out)
    decreases |ts|
  {
    hide Token.Expand;
    if ts != [] {
      ExpandPrefix(ts[0], out);
      TokensPrefix(ts[1..], ts[0].Expand(out));
    }
  }

  lemma {:induction false} BlocksPrefix(bs: seq<Block>, out: seq<byte>)
    ensures out <= ExpandBlocks(bs, out)
    decreases |bs|
  {
    hide ExpandTokens;
    if bs != [] {
      if !bs[0].Stored? { TokensPrefix(bs[0].tokens, out); }
      BlocksPrefix(bs[1..], bs[0].Expand(out));
    }
  }

  function Ones(n: nat): (X: seq<byte>)
    ensures |X| == n && forall i :: 0 <= i < n ==> X[i] == 1
  {
    seq(n, _ => 1)
  }

  lemma CopyFirst(out: seq<byte>, dist: nat, len: nat)
    requires dist > 0 && len > 0
    ensures BackCopy(out, dist, len)[|out|] == if dist > |out| then 0 else out[|out| - dist]
  {
    BackCopyPeriodic(out, dist, len, |out|);
  }

  lemma LenPositive(l: nat)
    requires l < 29
    ensures LenBase(l) > 0
  {}

  lemma TokenDiffers(t: Token, out: seq<byte>) returns (X: seq<byte>)
    requires !Inside(t, out)
    ensures Differs(X, t.Expand(X + out), t.Expand(out))
  {
    hide BackCopy, LenBase, DistBase;
    var dist, len := DistBase(t.dist) + t.distExtra, LenBase(t.len) + t.lenExtra;
    X := Ones(dist - |out|);
    LenPositive(t.len);
    CopyFirst(out, dist, len);
    CopyFirst(X + out, dist, len);
    assert (X + out)[0] == 1;
    assert t.Expand(X + out)[|X| + |out|] != t.Expand(out)[|out|];
  }

  lemma {:induction false} TokensDiffer(ts: seq<Token>, out: seq<byte>) returns (X: seq<byte>)
    requires !AllInside(ts, out)
    ensures Differs(X, ExpandTokens(ts, X + out), ExpandTokens(ts, out))
    decreases |ts|
  {
    hide Inside, Token.Expand, Differs;
    if Inside(ts[0], out) {
      X := TokensDiffer(ts[1..], ts[0].Expand(out));
      TokenAfter(X, ts[0], out);
    } else {
      X := TokenDiffers(ts[0], out);
      TokensPrefix(ts[1..], ts[0].Expand(out));
      TokensPrefix(ts[1..], ts[0].Expand(X + out));
      DiffersLater(X, ts[0].Expand(X + out), ts[0].Expand(out), ExpandTokens(ts, X + out), ExpandTokens(ts, out));
    }
  }

  lemma {:induction false} BlocksDiffer(bs: seq<Block>, out: seq<byte>) returns (X: seq<byte>)
    requires !Strict(bs, out)
    ensures Differs(X, ExpandBlocks(bs, X + out), ExpandBlocks(bs, out))
    decreases |bs|
  {
    hide Differs, AllInside, ExpandTokens;
    if BlockInside(bs[0], out) {
      hide Block.Expand, BlockInside;
      X := BlocksDiffer(bs[1..], bs[0].Expand(out));
      BlockAfter(X, bs[0], out);
    } else {
      X := TokensDiffer(bs[0].tokens, out);
      BlocksPrefix(bs[1..], bs[0].Expand(out));
      BlocksPrefix(bs[1..], bs[0].Expand(X + out));
      DiffersLater(X, bs[0].Expand(X + out), bs[0].Expand(out), ExpandBlocks(bs, X + out), ExpandBlocks(bs, out));
    }
  }

  /** No byte is taken from before the start exactly when the output does not depend on what stands there. */
  lemma StrictIff(bs: seq<Block>)
    ensures Strict(bs, []) <==> forall X :: ExpandBlocks(bs, X) == X + ExpandBlocks(bs, [])
  {
    hide Strict, ExpandBlocks;
    if Strict(bs, []) {
      forall X
        ensures ExpandBlocks(bs, X) == X + ExpandBlocks(bs, [])
      {
        assert X + [] == X;
        StrictAfter(X, bs, []);
      }
    } else {
      var X := BlocksDiffer(bs, []);
      assert X + [] == X;
    }
  }

  // ---------- streams ----------

  ghost predicate BeginsWith(B: seq<bit>, bs: seq<Block>) { ValidBlocks(bs, 0) && At(B, 0, EncodeBlocks(bs, 0)) }

  /** The input begins with an encoding that RFC 1951 allows. */
  ghost predicate BeginsStrictly(B: seq<bit>) { exists bs :: BeginsWith(B, bs) && Strict(bs, []) }

  /** An input that decodes is strict exactly when decoding it after any earlier output `X` leaves `X` and then the same. */
  lemma StrictStream(B: seq<bit>, limit: Option<nat>)
    requires Blocks(B, 0, [], limit).Done?
    ensures var r := Blocks(B, 0, [], limit);
            BeginsStrictly(B) <==> forall X :: Blocks(B, 0, X, None) == Done(r.pos, X + r.out)
  {
    hide Blocks, ValidBlocks, EncodeBlocks, ExpandBlocks, At, Strict;
    var r := Blocks(B, 0, [], limit);
    var bs := StreamSound(B, 0, [], limit);
    assert BeginsWith(B, bs);
    forall cs | BeginsWith(B, cs)
      ensures cs == bs
    {
      EncodingUnique(B, 0, bs, cs);
    }
    forall X: seq<byte>
      ensures Blocks(B, 0, X, None) == Done(r.pos, ExpandBlocks(bs, X))
    {
      StreamComplete(B, 0, bs, X, None);
    }
    StrictIff(bs);
  }

  /** Three bytes from before the start: the source decodes it to zeros, RFC 1951 does not allow it. */
  lemma BeforeStart() returns (B: seq<bit>)
    ensures Blocks(B, 0, [], None) == Done(|B|, [0, 0, 0]) && !BeginsStrictly(B)
  {
    hide Blocks, EncodeTokens, At, Block.Encode;
    var bs := [Block.Fixed([Copy(0, 0, 0, 0)])];
    OneCopy();
    B := EncodeBlocks(bs, 0);
    AtAll(B);
    StreamComplete(B, 0, bs, [], None);
    OneCopyExpands();
    forall cs | BeginsWith(B, cs)
      ensures !Strict(cs, [])
    {
      EncodingUnique(B, 0, bs, cs);
    }
  }

  lemma AtAll(B: seq<bit>)
    ensures At(B, 0, B)
  {}

  lemma OneCopy()
    ensures ValidTokens([Copy(0, 0, 0, 0)], FixedLiteralLengths(), FixedDistanceLengths())
  {}

  lemma OneCopyExpands()
    ensures var bs := [Block.Fixed([Copy(0, 0, 0, 0)])]; ExpandBlocks(bs, []) == [0, 0, 0] && !Strict(bs, [])
  {
    assert BackCopy([0, 0], 1, 1) == [0, 0, 0];
    assert BackCopy([0], 1, 2) == [0, 0, 0];
    assert BackCopy([], 1, 3) == [0, 0, 0];
  }
}
