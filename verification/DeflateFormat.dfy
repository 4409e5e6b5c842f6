/** The DEFLATE format (RFC 1951 section 3.2) as an encoder with every choice explicit,
    and the proof that decoding is its exact inverse. */
module DeflateFormat {
  import opened Bits
  import opened Huffman
  import opened Inflate

  // ---------- compressed data ----------

  /** A literal byte, or a length/distance pair: two symbols and their extra bits. */
  datatype Token = Literal(b: byte) | Copy(len: nat, lenExtra: nat, dist: nat, distExtra: nat) {
    predicate Valid(LL: seq<codelen>, DL: seq<codelen>) {
      match this
      case Literal(b) => b < |LL| && LL[b] > 0
      case Copy(l, le, d, de) =>
        && l < 29 && 257 + l < |LL| && LL[257 + l] > 0 && le < Pow2(LenExtraBits(l))
        && d < 30 && d < |DL| && DL[d] > 0 && de < Pow2(DistExtraBits(d))
    }

    function Encode(LL: seq<codelen>, DL: seq<codelen>): seq<bit>
      requires Valid(LL, DL)
    {
      match this
      case Literal(b) => Codeword(LL, b)
      case Copy(l, le, d, de) =>
        Codeword(LL, 257 + l) + (LsbBits(le, LenExtraBits(l)) + (Codeword(DL, d) + LsbBits(de, DistExtraBits(d))))
    }

    function Expand(out: seq<byte>): (r: seq<byte>)
      ensures |out| <= |r|
    {
      match this
      case Literal(b) => out + [b]
      case Copy(l, le, d, de) => if l >= 29 || d >= 30 then out else BackCopy(out, DistBase(d) + de, LenBase(l) + le)
    }
  }

  predicate ValidTokens(ts: seq<Token>, LL: seq<codelen>, DL: seq<codelen>) {
    forall i :: 0 <= i < |ts| ==> ts[i].Valid(LL, DL)
  }

  /** The tokens, then the end-of-block symbol. */
  function EncodeTokens(ts: seq<Token>, LL: seq<codelen>, DL: seq<codelen>): seq<bit>
    requires ValidTokens(ts, LL, DL) && |LL| > 256
  {
    if ts == [] then Codeword(LL, 256)
    else ts[0].Encode(LL, DL) + EncodeTokens(ts[1..], LL, DL)
  }

  function ExpandTokens(ts: seq<Token>, out: seq<byte>): (r: seq<byte>)
    ensures |out| <= |r|
  {
    if ts == [] then out else ExpandTokens(ts[1..], ts[0].Expand(out))
  }

  ghost predicate CodesOk(LL: seq<codelen>, DL: seq<codelen>) {
    && 256 < |LL| <= FIXLCODES && |DL| <= MAXDCODES
    && ConstructResult(LL) >= 0 && ConstructResult(DL) >= 0
    && LL[256] > 0
  }

  lemma SymbolAt(B: seq<bit>, p: nat, L: seq<codelen>, s: nat)
    requires ConstructResult(L) >= 0 && s < |L| && L[s] > 0
    requires At(B, p, Codeword(L, s))
    ensures DecodeSymbol(B, p, L) == Symbol(s, p + L[s])
  {
    MatchesIsCodeword(B, p, L, s);
    DecodeSymbolIs(B, p, L, s);
  }

  lemma SymbolRead(B: seq<bit>, p: nat, L: seq<codelen>)
    requires ConstructResult(L) >= 0 && DecodeSymbol(B, p, L).Symbol?
    ensures var r := DecodeSymbol(B, p, L);
            r.sym < |L| && L[r.sym] > 0 && r.pos == p + L[r.sym] && At(B, p, Codeword(L, r.sym))
  {
    MatchesIsCodeword(B, p, L, DecodeSymbol(B, p, L).sym);
  }

  lemma FourParts(B: seq<bit>, p: nat, u: seq<bit>, x: nat, m: nat, w: seq<bit>, y: nat, n: nat)
    requires x < Pow2(m) && y < Pow2(n)
    ensures At(B, p, u + (LsbBits(x, m) + (w + LsbBits(y, n)))) <==>
              && At(B, p, u)
              && p + |u| + m <= |B| && Lsb(B, p + |u|, m) == x
              && At(B, p + |u| + m, w)
              && p + |u| + m + |w| + n <= |B| && Lsb(B, p + |u| + m + |w|, n) == y
  {
    hide *;
    AtConcat(B, p, u, LsbBits(x, m) + (w + LsbBits(y, n)));
    AtConcat(B, p + |u|, LsbBits(x, m), w + LsbBits(y, n));
    AtConcat(B, p + |u| + m, w, LsbBits(y, n));
    AtLsb(B, p + |u|, x, m);
    AtLsb(B, p + |u| + m + |w|, y, n);
  }

  /** One decoding step over a token. */
  ghost predicate StepsTo(B: seq<bit>, p: nat, t: Token, LL: seq<codelen>, DL: seq<codelen>, q: nat)
    requires t.Valid(LL, DL)
  {
    match t
    case Literal(b) => DecodeSymbol(B, p, LL) == Symbol(b, q)
    case Copy(l, le, d, de) =>
      var p1 := p + LL[257 + l];
      var p2 := p1 + LenExtraBits(l);
      var p3 := p2 + DL[d];
      && DecodeSymbol(B, p, LL) == Symbol(257 + l, p1)
      && p2 <= |B| && Lsb(B, p1, LenExtraBits(l)) == le
      && DecodeSymbol(B, p2, DL) == Symbol(d, p3)
      && p3 + DistExtraBits(d) <= |B| && Lsb(B, p3, DistExtraBits(d)) == de
      && q == p3 + DistExtraBits(d)
  }

  /** A token decodes in one step exactly where its encoding stands. */
  lemma TokenStep(B: seq<bit>, p: nat, t: Token, LL: seq<codelen>, DL: seq<codelen>)
    requires CodesOk(LL, DL) && t.Valid(LL, DL)
    ensures At(B, p, t.Encode(LL, DL)) <==> StepsTo(B, p, t, LL, DL, p + |t.Encode(LL, DL)|)
  {
    hide At, DecodeSymbol, Lsb, LsbBits, Codeword, ConstructResult, Pow2, LenBase, LenExtraBits, DistBase, DistExtraBits;
    match t
    case Literal(b) =>
      SymbolAtIff(B, p, LL, b);
    case Copy(l, le, d, de) =>
      SymbolAtIff(B, p, LL, 257 + l);
      SymbolAtIff(B, p + LL[257 + l] + LenExtraBits(l), DL, d);
      FourParts(B, p, Codeword(LL, 257 + l), le, LenExtraBits(l), Codeword(DL, d), de, DistExtraBits(d));
  }

  lemma SymbolAtIff(B: seq<bit>, p: nat, L: seq<codelen>, s: nat)
    requires ConstructResult(L) >= 0 && s < |L| && L[s] > 0
    ensures At(B, p, Codeword(L, s)) <==> DecodeSymbol(B, p, L) == Symbol(s, p + L[s])
  {
    MatchesIsCodeword(B, p, L, s);
    if Matches(B, p, L, s) { DecodeSymbolIs(B, p, L, s); }
  }

  lemma CodesStep(B: seq<bit>, p: nat, t: Token, LL: seq<codelen>, DL: seq<codelen>, q: nat,
                  out: seq<byte>, limit: Option<nat>)
    requires CodesOk(LL, DL) && t.Valid(LL, DL) && StepsTo(B, p, t, LL, DL, q)
    requires !Overflows(limit, |t.Expand(out)|)
    ensures CodesRound(B, p, out, LL, DL, limit) == Next(q, t.Expand(out))
  {
    hide At, DecodeSymbol, Lsb, LsbBits, Codeword, ConstructResult, Pow2, BackCopy, LenBase, LenExtraBits, DistBase, DistExtraBits, Codes;
  }

  /** The token at `p`, when decoding goes past it. */
  lemma TokenRead(B: seq<bit>, p: nat, LL: seq<codelen>, DL: seq<codelen>, out: seq<byte>, limit: Option<nat>)
    returns (t: Token, q: nat)
    requires CodesOk(LL, DL)
    requires CodesRound(B, p, out, LL, DL, limit).Next?
    ensures t.Valid(LL, DL) && StepsTo(B, p, t, LL, DL, q)
    ensures !Overflows(limit, |t.Expand(out)|)
  {
    hide At, DecodeSymbol, Lsb, LsbBits, Codeword, ConstructResult, Pow2, BackCopy, LenBase, LenExtraBits, DistBase, DistExtraBits, Codes;
    var Symbol(s, p1) := DecodeSymbol(B, p, LL);
    SymbolRead(B, p, LL);
    if s < 256 {
      t, q := Literal(s), p1;
    } else {
      var l := s - 257;
      var p2 := p1 + LenExtraBits(l);
      var Symbol(d, p3) := DecodeSymbol(B, p2, DL);
      SymbolRead(B, p2, DL);
      t, q := Copy(l, Lsb(B, p1, LenExtraBits(l)), d, Lsb(B, p3, DistExtraBits(d))), p3 + DistExtraBits(d);
    }
  }

  lemma StepEnd(B: seq<bit>, p: nat, t: Token, LL: seq<codelen>, DL: seq<codelen>, q: nat)
    requires t.Valid(LL, DL) && StepsTo(B, p, t, LL, DL, q)
    ensures q == p + |t.Encode(LL, DL)|
  {}

  /** Decoding an encoded token list yields its expansion and stops right behind it. */
  lemma {:induction false} CodesComplete(B: seq<bit>, p: nat, ts: seq<Token>, LL: seq<codelen>, DL: seq<codelen>,
                                         out: seq<byte>, limit: Option<nat>)
    requires CodesOk(LL, DL) && ValidTokens(ts, LL, DL)
    requires At(B, p, EncodeTokens(ts, LL, DL))
    requires !Overflows(limit, |ExpandTokens(ts, out)|)
    ensures Codes(B, p, out, LL, DL, limit)
            == Done(p + |EncodeTokens(ts, LL, DL)|, ExpandTokens(ts, out))
    decreases |ts|
  {
    hide At, DecodeSymbol, Lsb, LsbBits, Codeword, ConstructResult, Pow2, BackCopy, LenBase, LenExtraBits, DistBase, DistExtraBits;
    if ts == [] {
      SymbolAtIff(B, p, LL, 256);
    } else {
      var t, rest := ts[0], EncodeTokens(ts[1..], LL, DL);
      var q := p + |t.Encode(LL, DL)|;
      AtConcat(B, p, t.Encode(LL, DL), rest);
      TokenStep(B, p, t, LL, DL);
      CodesStep(B, p, t, LL, DL, q, out, limit);
      CodesComplete(B, q, ts[1..], LL, DL, t.Expand(out), limit);
    }
  }

  lemma EndRead(B: seq<bit>, p: nat, LL: seq<codelen>, DL: seq<codelen>, out: seq<byte>, limit: Option<nat>)
    requires CodesOk(LL, DL)
    requires var r := CodesRound(B, p, out, LL, DL, limit); r.Stop? && r.result.Done?
    ensures CodesRound(B, p, out, LL, DL, limit).result == Done(p + LL[256], out)
    ensures At(B, p, Codeword(LL, 256))
  {
    hide At, DecodeSymbol, Lsb, LsbBits, Codeword, ConstructResult, Pow2, BackCopy, LenBase, LenExtraBits, DistBase, DistExtraBits, Codes;
    SymbolRead(B, p, LL);
  }

  lemma ValidCons(t: Token, rest: seq<Token>, LL: seq<codelen>, DL: seq<codelen>)
    requires t.Valid(LL, DL) && ValidTokens(rest, LL, DL) && |LL| > 256
    ensures ValidTokens([t] + rest, LL, DL)
    ensures EncodeTokens([t] + rest, LL, DL) == t.Encode(LL, DL) + EncodeTokens(rest, LL, DL)
  {
    assert ([t] + rest)[1..] == rest;
  }

  lemma ExpandCons(t: Token, rest: seq<Token>, out: seq<byte>)
    ensures ExpandTokens([t] + rest, out) == ExpandTokens(rest, t.Expand(out))
  {
    assert ([t] + rest)[1..] == rest;
  }

  /** Whatever decodes without error is the encoding of some token list. */
  lemma {:induction false} CodesSound(B: seq<bit>, p: nat, LL: seq<codelen>, DL: seq<codelen>,
                                      out: seq<byte>, limit: Option<nat>) returns (ts: seq<Token>)
    requires CodesOk(LL, DL)
    requires Codes(B, p, out, LL, DL, limit).Done?
    ensures ValidTokens(ts, LL, DL) && At(B, p, EncodeTokens(ts, LL, DL))
    ensures Codes(B, p, out, LL, DL, limit)
            == Done(p + |EncodeTokens(ts, LL, DL)|, ExpandTokens(ts, out))
    decreases |B| - p
  {
    hide At, DecodeSymbol, Lsb, LsbBits, Codeword, ConstructResult, Pow2, BackCopy, LenBase, LenExtraBits, DistBase, DistExtraBits, CodesRound, StepsTo, Token.Encode, Token.Valid, Token.Expand;
    if CodesRound(B, p, out, LL, DL, limit).Stop? {
      EndRead(B, p, LL, DL, out, limit);
      ts := [];
    } else {
      var t, q := TokenRead(B, p, LL, DL, out, limit);
      StepEnd(B, p, t, LL, DL, q);
      TokenStep(B, p, t, LL, DL);
      CodesStep(B, p, t, LL, DL, q, out, limit);
      var rest := CodesSound(B, q, LL, DL, t.Expand(out), limit);
      ts := [t] + rest;
      ValidCons(t, rest, LL, DL);
      ExpandCons(t, rest, out);
      AtConcat(B, p, t.Encode(LL, DL), EncodeTokens(rest, LL, DL));
    }
  }

  // ---------- run-length coded code lengths ----------

  datatype LengthOp =
    | One(l: codelen)
    | Previous(n: nat)    // copy the previous length 3 to 6 times
    | ZerosShort(n: nat)  // 3 to 10 zeros
    | ZerosLong(n: nat)   // 11 to 138 zeros
  {
    predicate Valid(CL: seq<codelen>, first: bool)
      requires |CL| == 19
    {
      match this
      case One(l) => CL[l] > 0
      case Previous(n) => !first && 3 <= n <= 6 && CL[16] > 0
      case ZerosShort(n) => 3 <= n <= 10 && CL[17] > 0
      case ZerosLong(n) => 11 <= n <= 138 && CL[18] > 0
    }

    function Symbol(): (s: nat)
      ensures s < 19
    {
      match this case One(l) => l case Previous(_) => 16 case ZerosShort(_) => 17 case ZerosLong(_) => 18
    }

    function Extra(): seq<bit> {
      match this
      case One(_) => []
      case Previous(n) => LsbBits(if n >= 3 then n - 3 else 0, 2)
      case ZerosShort(n) => LsbBits(if n >= 3 then n - 3 else 0, 3)
      case ZerosLong(n) => LsbBits(if n >= 11 then n - 11 else 0, 7)
    }

    function Encode(CL: seq<codelen>): seq<bit>
      requires |CL| == 19
    {
      Codeword(CL, Symbol()) + Extra()
    }

    function Expand(acc: seq<codelen>): (r: seq<codelen>)
      ensures |r| >= |acc|
    {
      match this
      case One(l) => acc + [l]
      case Previous(n) => acc + Repeat(if acc == [] then 0 else acc[|acc| - 1], n)
      case ZerosShort(n) => acc + Repeat(0, n)
      case ZerosLong(n) => acc + Repeat(0, n)
    }
  }

  predicate ValidOps(ops: seq<LengthOp>, CL: seq<codelen>, first: bool)
    requires |CL| == 19
  {
    ops != [] ==> ops[0].Valid(CL, first) && ValidOps(ops[1..], CL, false)
  }

  function EncodeOps(ops: seq<LengthOp>, CL: seq<codelen>): seq<bit>
    requires |CL| == 19
  {
    if ops == [] then [] else ops[0].Encode(CL) + EncodeOps(ops[1..], CL)
  }

  function ExpandOps(ops: seq<LengthOp>, acc: seq<codelen>): (r: seq<codelen>)
    ensures |r| >= |acc|
  {
    if ops == [] then acc else ExpandOps(ops[1..], ops[0].Expand(acc))
  }

  lemma OpLayout(B: seq<bit>, p: nat, op: LengthOp, CL: seq<codelen>, first: bool)
    requires |CL| == 19 && op.Valid(CL, first)
    ensures |op.Encode(CL)| == CL[op.Symbol()] + |op.Extra()|
    ensures At(B, p, op.Encode(CL)) <==>
              At(B, p, Codeword(CL, op.Symbol())) && At(B, p + CL[op.Symbol()], op.Extra())
    ensures !op.One? ==>
              var k := |op.Extra()|;
              var q := p + CL[op.Symbol()];
              k == (if op.Previous? then 2 else if op.ZerosShort? then 3 else 7) &&
              (At(B, q, op.Extra()) <==>
                 q + k <= |B| && Lsb(B, q, k) == op.n - if op.ZerosLong? then 11 else 3)
  {
    hide At, Lsb, LsbBits, Codeword;
    var q := p + CL[op.Symbol()];
    AtConcat(B, p, Codeword(CL, op.Symbol()), op.Extra());
    if At(B, p, Codeword(CL, op.Symbol())) && op.One? { AtEmpty(B, q); }
    assert Pow2(2) == 4 && Pow2(3) == 8 && Pow2(7) == 128;
    match op
    case One(_) =>
    case Previous(n) => AtLsb(B, q, n - 3, 2);
    case ZerosShort(n) => AtLsb(B, q, n - 3, 3);
    case ZerosLong(n) => AtLsb(B, q, n - 11, 7);
  }

  lemma LengthsStep(B: seq<bit>, p: nat, op: LengthOp, CL: seq<codelen>, total: nat, acc: seq<codelen>)
    requires |CL| == 19 && ConstructResult(CL) >= 0 && op.Valid(CL, acc == []) && p <= |B|
    requires |op.Expand(acc)| <= total && At(B, p, op.Encode(CL))
    ensures p + |op.Encode(CL)| <= |B| && |acc| < |op.Expand(acc)|
    ensures ReadLengths(B, p, CL, total, acc)
            == ReadLengths(B, p + |op.Encode(CL)|, CL, total, op.Expand(acc))
  {
    hide At, DecodeSymbol, Lsb, LsbBits, Codeword, ConstructResult, Pow2;
    OpLayout(B, p, op, CL, acc == []);
    SymbolAt(B, p, CL, op.Symbol());
    AtFits(B, p, op.Encode(CL));
  }

  lemma OpRead(B: seq<bit>, p: nat, CL: seq<codelen>, total: nat, acc: seq<codelen>) returns (op: LengthOp)
    requires |CL| == 19 && ConstructResult(CL) >= 0 && |acc| < total && p <= |B|
    requires ReadLengths(B, p, CL, total, acc).Lengths?
    ensures op.Valid(CL, acc == []) && At(B, p, op.Encode(CL))
    ensures |op.Expand(acc)| <= total
  {
    SymbolRead(B, p, CL);
    var Symbol(s, q) := DecodeSymbol(B, p, CL);
    hide At, DecodeSymbol, LsbBits, Codeword, ConstructResult, Lsb;
    assert Pow2(2) == 4 && Pow2(3) == 8 && Pow2(7) == 128;
    AtEmpty(B, q);
    op := if s < 16 then One(s)
          else if s == 16 then Previous(3 + Lsb(B, q, 2))
          else if s == 17 then ZerosShort(3 + Lsb(B, q, 3))
          else ZerosLong(11 + Lsb(B, q, 7));
    OpLayout(B, p, op, CL, acc == []);
  }

  lemma ExpandGrows(ops: seq<LengthOp>, acc: seq<codelen>)
    ensures |ExpandOps(ops, acc)| >= |acc|
  {
    hide ExpandOps;
  }

  lemma {:induction false} LengthsComplete(B: seq<bit>, p: nat, ops: seq<LengthOp>, CL: seq<codelen>,
                                           total: nat, acc: seq<codelen>)
    requires |CL| == 19 && ConstructResult(CL) >= 0 && ValidOps(ops, CL, acc == [])
    requires |ExpandOps(ops, acc)| == total && At(B, p, EncodeOps(ops, CL)) && p <= |B|
    ensures ReadLengths(B, p, CL, total, acc)
            == Lengths(p + |EncodeOps(ops, CL)|, ExpandOps(ops, acc))
    decreases |ops|
  {
    hide At, ConstructResult, DecodeSymbol, LengthOp.Encode, LengthOp.Valid, LengthOp.Expand;
    if ops != [] {
      hide ReadLengths;
      var op := ops[0];
      AtConcat(B, p, op.Encode(CL), EncodeOps(ops[1..], CL));
      ExpandGrows(ops[1..], op.Expand(acc));
      LengthsStep(B, p, op, CL, total, acc);
      LengthsComplete(B, p + |op.Encode(CL)|, ops[1..], CL, total, op.Expand(acc));
    }
  }

  lemma {:induction false} LengthsSound(B: seq<bit>, p: nat, CL: seq<codelen>, total: nat, acc: seq<codelen>)
    returns (ops: seq<LengthOp>)
    requires |CL| == 19 && ConstructResult(CL) >= 0 && |acc| <= total && p <= |B|
    requires ReadLengths(B, p, CL, total, acc).Lengths?
    ensures ValidOps(ops, CL, acc == []) && At(B, p, EncodeOps(ops, CL))
    ensures ReadLengths(B, p, CL, total, acc)
            == Lengths(p + |EncodeOps(ops, CL)|, ExpandOps(ops, acc))
    decreases total - |acc|
  {
    hide At, ConstructResult, LengthOp.Encode, LengthOp.Valid, LengthOp.Expand;
    if |acc| == total {
      AtEmpty(B, p);
      ops := [];
    } else {
      var op := OpRead(B, p, CL, total, acc);
      LengthsStep(B, p, op, CL, total, acc);
      var rest := LengthsSound(B, p + |op.Encode(CL)|, CL, total, op.Expand(acc));
      ops := [op] + rest;
      assert ops[1..] == rest;
      AtConcat(B, p, op.Encode(CL), EncodeOps(rest, CL));
    }
  }
}
