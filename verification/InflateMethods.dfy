/** The decoder as it runs: a bit buffer refilled byte by byte, tables, and in-place output. */
module InflateMethods {
  import opened Bits
  import opened Huffman
  import opened Inflate

  lemma NextByte(input: seq<byte>, k: nat, p: nat, n: nat)
    requires k < |input| && p + n == 8 * k
    ensures Lsb(Stream(input), p, n + 8) == Lsb(Stream(input), p, n) + input[k] * Pow2(n)
  {
    hide Lsb, Stream, Pow2;
    LsbSplit(Stream(input), p, n, 8);
    StreamByte(input, k);
  }

  lemma NextBit(B: seq<bit>, p: nat, n: nat)
    requires n > 0 && p + n <= |B|
    ensures Lsb(B, p, n) % 2 == B[p] && Lsb(B, p, n) / 2 == Lsb(B, p + 1, n - 1)
  {}

  /** `zdst_t`: input and output positions and the bits read ahead. */
  class Zdst {
    const input: seq<byte>
    const out: array?<byte>
    const outlen: nat
    var incnt: nat
    var outcnt: nat
    var bitbuf: nat
    var bitcnt: nat
    ghost var written: seq<byte>  // all output so far, stored or not

    ghost function B(): seq<bit> { Stream(input) }

    /** Position in the bit stream. */
    ghost function Pos(): nat
      requires bitcnt <= 8 * incnt
      reads this
    {
      8 * incnt - bitcnt
    }

    ghost function Limit(): Option<nat> { if out == null then None else Some(outlen) }

    /** The buffer holds the bits between the stream position and the next unread byte. */
    ghost predicate BitsOk()
      reads this
    {
      && incnt <= |input| && bitcnt < 8 && bitcnt <= 8 * incnt
      && bitbuf == Lsb(B(), Pos(), bitcnt)
    }

    ghost predicate OutOk()
      reads this, out
    {
      && outcnt == |written|
      && (out != null ==> outcnt <= outlen <= out.Length && out[..outcnt] == written)
    }

    ghost predicate Valid()
      reads this, out
    {
      BitsOk() && OutOk()
    }

    /** The state is what the decoding function says. */
    ghost predicate Agrees(r: Result, err: int)
      reads this, out
    {
      && OutOk()
      && match r
         case Done(p, o) => err == 0 && BitsOk() && Pos() == p && written == o
         case Fail(e, o) => err == e && written == o && (e == -12 ==> incnt == |input|)
    }

    constructor (dest: array?<byte>, destlen: nat, source: seq<byte>)
      requires dest != null ==> destlen <= dest.Length
      ensures Valid() && Pos() == 0 && written == [] && out == dest && outlen == destlen && input == source
    {
      out, outlen, outcnt := dest, destlen, 0;
      input, incnt := source, 0;
      bitbuf, bitcnt := 0, 0;
      written := [];
    }

    /** Reads `need` bits; at the end of the input reports -12 and 0 instead. */
    method Bits(need: nat, err0: int) returns (v: nat, err: int)
      requires BitsOk()
      modifies this`incnt, this`bitbuf, this`bitcnt
      ensures old(Pos()) + need <= |B()| ==>
                err == err0 && BitsOk() && Pos() == old(Pos()) + need && v == Lsb(B(), old(Pos()), need)
      ensures old(Pos()) + need > |B()| ==> err == -12 && v == 0 && incnt == |input|
      ensures old(Pos()) + need > |B()| && need <= 8 ==> BitsOk() && Pos() == old(Pos())
    {
      ghost var p := Pos();
      var val := bitbuf;
      while bitcnt < need
        invariant incnt <= |input| && old(bitcnt) <= bitcnt && p + bitcnt == 8 * incnt
        invariant val == Lsb(B(), p, bitcnt) && bitbuf == old(bitbuf)
        invariant bitcnt < need + 8
        invariant bitcnt > 7 ==> bitcnt - 8 < need
        invariant need <= 8 && bitcnt < need ==> incnt == old(incnt)
        decreases need - bitcnt
      {
        if incnt == |input| { return 0, -12; }
        NextByte(input, incnt, p, bitcnt);
        val := val + input[incnt] * Pow2(bitcnt);  // the bits of `val` end below bit `bitcnt`
        incnt := incnt + 1;
        bitcnt := bitcnt + 8;
      }
      LsbTake(B(), p, need, bitcnt);
      bitbuf := val / Pow2(need);
      bitcnt := bitcnt - need;
      return val % Pow2(need), err0;
    }

    /** Decodes one symbol bit by bit. `code` is the value of the `len - 1` bits read,
        shifted for the next one; `first` the smallest codeword of length `len`;
        `index` the number of shorter codewords. */
    method Decode(h: Huff, ghost L: seq<codelen>) returns (symbol: int)
      requires BitsOk() && h.Holds(L)
      modifies this`incnt, this`bitbuf, this`bitcnt
      ensures match DecodeSymbol(B(), old(Pos()), L)
              case Symbol(s, p) => symbol == s && BitsOk() && Pos() == p
              case NoSymbol(e) => symbol == e && (e == -12 ==> incnt == |input|)
    {
      hide DecodeSymbol, Lsb, Msb, Matches, Beyond, Stream, First, Offs, Count, Huff.Holds, Unread, Searching;
      ghost var p := Pos();
      var buf, left := bitbuf, bitcnt;
      var code, first, index, len := 0, 0, 0, 1;
      SearchStart(B(), p, L);
      UnreadStart();
      while true
        invariant Unread(p + len - 1, buf, left, len) && len <= MAXBITS && bitcnt == old(bitcnt)
        invariant (8 * incnt - p) % 8 == bitcnt
        invariant Searching(B(), p, L, len, code, first, index)
        decreases MAXBITS - len, if left == 0 then 1 else 0
      {
        UnreadRange(p + len - 1, buf, left, len);
        UnreadEnds(p + len - 1, buf, left, len);
        symbol, code, first, index, len := DecodeBuffered(h, L, p, buf, left, code, first, index, len);
        if symbol >= 0 { return symbol; }
        left := MAXBITS + 1 - len;
        if left == 0 { break; }
        if incnt == |input| {
          SearchEnd(B(), p, L, len, code, first, index);
          return -12;
        }
        buf := input[incnt];
        incnt := incnt + 1;
        if left > 8 { left := 8; }
        UnreadByte(len);
      }
      SearchEnd(B(), p, L, len, code, first, index);
      return -10;
    }

    /** The inner loop of `Decode` over the `left` buffered bits: a symbol, or -1 with the search advanced. */
    method DecodeBuffered(h: Huff, ghost L: seq<codelen>, ghost p: nat, buf0: int, left0: int,
                          code0: int, first0: int, index0: int, len0: nat)
      returns (symbol: int, code: int, first: int, index: int, len: nat)
      requires h.Holds(L) && bitcnt < 8 && (8 * incnt - p) % 8 == bitcnt && 1 <= len0 <= MAXBITS
      requires Unread(p + len0 - 1, buf0, left0, len0) && Searching(B(), p, L, len0, code0, first0, index0)
      modifies this`bitbuf, this`bitcnt
      ensures symbol >= 0 ==> exists q :: DecodeSymbol(B(), p, L) == Symbol(symbol, q) && BitsOk() && Pos() == q
      ensures symbol < 0 ==> bitcnt == old(bitcnt) && len == len0 + left0 && len <= MAXBITS + 1
      ensures symbol < 0 ==> Searching(B(), p, L, len, code, first, index)
    {
      hide DecodeSymbol, Lsb, Msb, Matches, Stream, First, Offs, Count, Unread, Searching, Huff.Holds;
      var buf, left := buf0, left0;
      code, first, index, len := code0, first0, index0, len0;
      UnreadRange(p + len - 1, buf, left, len);
      while left > 0
        invariant 1 <= len && Unread(p + len - 1, buf, left, len) && bitcnt == old(bitcnt)
        invariant Searching(B(), p, L, len, code, first, index)
        invariant left >= 0 && left + len == left0 + len0
        decreases left
      {
        UnreadStep(p + len - 1, buf, left, len);
        left := left - 1;
        ghost var shifted := code;
        code := code + buf % 2;  // `code` is even before
        buf := buf / 2;
        h.CountOf(L, len);
        var count := h.count[len];
        if code - count < first {
          ghost var s := SearchHit(B(), p, L, len, shifted, first, index);
          h.SymbolOf(L, s);
          bitbuf := buf;
          bitcnt := (bitcnt - len) % 8;
          Refilled(p + len, buf, left, len + 1, old(bitcnt));
          symbol := h.symbol[index + (code - first)];
          return;
        }
        SearchOn(B(), p, L, len, shifted, first, index);
        index := index + count;
        first := first + count;
        first := first * 2;
        code := code * 2;
        len := len + 1;
      }
      symbol := -1;
    }

    /** At the start the buffer holds all bits read and not used. */
    lemma UnreadStart()
      requires BitsOk()
      ensures Unread(Pos(), bitbuf, bitcnt, 1)
    {
      hide Lsb, Stream;
    }

    /** A byte just read. */
    lemma UnreadByte(len: int)
      requires 0 < incnt <= |input| && 1 <= len <= MAXBITS
      ensures Unread(8 * (incnt - 1), input[incnt - 1], Min(8, MAXBITS + 1 - len), len)
    {
      hide Lsb, Stream;
      StreamByte(input, incnt - 1);
    }

    /** Using up what is left reaches the next byte or the greatest code length. */
    lemma UnreadEnds(q: nat, buf: int, left: int, len: int)
      requires Unread(q, buf, left, len)
      ensures len + left == MAXBITS + 1 || q + left == 8 * incnt
      ensures q <= 8 * incnt && incnt <= |input| && len + left <= MAXBITS + 1
    {}

    lemma UnreadRange(q: nat, buf: int, left: int, len: int)
      requires Unread(q, buf, left, len)
      ensures 1 <= len <= MAXBITS + 1 && 0 <= left <= MAXBITS + 1 - len
    {}

    lemma UnreadStep(q: nat, buf: int, left: int, len: int)
      requires Unread(q, buf, left, len) && left > 0
      ensures q < |B()| && buf >= 0 && buf % 2 == B()[q] && len <= MAXBITS
      ensures Unread(q + 1, buf / 2, left - 1, len + 1) && 8 * incnt - (q + 1) <= 7
    {
      hide Lsb, Stream;
      NextBit(B(), q, 8 * incnt - q);
    }

    /** After a match the new bit count restores the buffer invariant. */
    lemma Refilled(q: nat, buf: int, left: int, len: int, cnt: nat)
      requires Unread(q, buf, left, len) && 8 * incnt - q <= 7 && cnt < 8
      requires q >= len - 1 && (8 * incnt - (q - (len - 1))) % 8 == cnt
      requires bitbuf == buf && bitcnt == (cnt - (len - 1)) % 8
      ensures BitsOk() && Pos() == q
    {
      hide Lsb, Stream;
      ModStep(8 * incnt - (q - (len - 1)), len - 1, cnt);
    }

    method Stored() returns (err: int)
      requires Valid()
      modifies this, out
      ensures Agrees(StoredBlock(B(), old(Pos()), old(written), Limit()), err)
      ensures FrameOk(old(OutBytes()), old(outcnt))
    {
      hide Lsb, Stream, Word, Align, StoredBytes;
      AlignPos(incnt, bitcnt);
      bitbuf, bitcnt := 0, 0;
      if incnt + 4 > |input| { return 2; }
      ghost var a := 8 * incnt;
      TwoBytes(input, incnt);
      TwoBytes(input, incnt + 2);
      var len := Word(input[incnt], input[incnt + 1]);
      var low, high := input[incnt + 2], input[incnt + 3];
      Complement(len, low, high);
      incnt := incnt + 4;
      if low != 255 - len % 256 || high != 255 - len / 256 { return -2; }
      err := StoredData(len);
    }

    /** The copying part of `z_stored`. */
    method StoredData(len: nat) returns (err: int)
      requires OutOk() && incnt <= |input| && bitbuf == 0 && bitcnt == 0
      modifies this, out
      ensures Agrees(StoredBytes(B(), 8 * old(incnt), len, old(written), Limit()), err)
      ensures FrameOk(old(OutBytes()), old(outcnt))
    {
      hide Lsb, Stream, BytesAt;
      if incnt + len > |input| { return 2; }
      if out != null {
        if outcnt + len > outlen { return 1; }
        CopyInput(len);
      } else {
        BytesOfInput(input, incnt, len);
        outcnt := outcnt + len;
        written := written + input[incnt..incnt + len];
        incnt := incnt + len;
      }
      EmptyBuffer();
      return 0;
    }

    lemma EmptyBuffer()
      requires incnt <= |input| && bitbuf == 0 && bitcnt == 0
      ensures BitsOk()
    {}

    method CopyInput(len: nat)
      requires OutOk() && out != null && incnt + len <= |input| && outcnt + len <= outlen
      modifies this`incnt, this`outcnt, this`written, out
      ensures OutOk() && incnt == old(incnt) + len
      ensures written == old(written) + BytesAt(B(), 8 * old(incnt), len)
      ensures FrameOk(old(OutBytes()), old(outcnt))
    {
      hide Lsb, Stream;
      BytesOfInput(input, incnt, len);
      var n := len;
      while n > 0
        invariant 0 <= n <= len && OutOk() && outcnt + n <= outlen && incnt + n == old(incnt) + len
        invariant incnt <= |input| && written == old(written) + input[old(incnt)..incnt]
        invariant FrameOk(old(OutBytes()), old(outcnt))
      {
        n := n - 1;
        out[outcnt] := input[incnt];
        written := written + [input[incnt]];
        outcnt := outcnt + 1;
        incnt := incnt + 1;
      }
    }

    ghost function OutBytes(): seq<byte>
      reads out
    {
      if out == null then [] else out[..]
    }

    /** Nothing outside the output room was touched since the output array held `before`. */
    ghost predicate FrameOk(before: seq<byte>, cnt: nat)
      reads this, out
    {
      cnt <= outcnt &&
      (out != null && outlen <= out.Length ==>
        |before| == out.Length && forall i :: outcnt <= i < out.Length ==> out[i] == before[i])
    }

    /** One literal byte to the output, or 1 without room. */
    method PutLiteral(symbol: byte) returns (err: int)
      requires OutOk()
      modifies this`outcnt, this`written, out
      ensures OutOk() && FrameOk(old(OutBytes()), old(outcnt))
      ensures err == if Overflows(Limit(), |old(written)| + 1) then 1 else 0
      ensures written == if err == 1 then old(written) else old(written) + [symbol]
    {
      if out != null {
        if outcnt == outlen { return 1; }
        out[outcnt] := symbol;
      }
      outcnt := outcnt + 1;
      written := written + [symbol];
      return 0;
    }

    /** A back-copy inside the output, or 1 without room. */
    method PutCopy(len: nat, dist: nat) returns (err: int)
      requires OutOk() && dist > 0
      modifies this`outcnt, this`written, out
      ensures OutOk() && FrameOk(old(OutBytes()), old(outcnt))
      ensures err == if Overflows(Limit(), |old(written)| + len) then 1 else 0
      ensures written == if err == 1 then old(written) else BackCopy(old(written), dist, len)
    {
      if out != null {
        if outcnt + len > outlen { return 1; }
        var n := len;
        while n > 0
          invariant 0 <= n <= len && OutOk() && FrameOk(old(OutBytes()), old(outcnt)) && outcnt + n <= outlen
          invariant BackCopy(written, dist, n) == BackCopy(old(written), dist, len)
        {
          n := n - 1;
          out[outcnt] := if dist > outcnt then 0 else out[outcnt - dist];
          written := written + [out[outcnt]];
          outcnt := outcnt + 1;
        }
      } else {
        outcnt := outcnt + len;
        written := BackCopy(written, dist, len);
      }
      return 0;
    }

    /** A length/distance pair after its length symbol: extra bits, distance symbol, extra bits, copy. */
    method Copy(symbol: nat, distcode: Huff, ghost DL: seq<codelen>) returns (err: int)
      requires Valid() && distcode.Holds(DL) && |DL| <= MAXDCODES
      modifies this, out
      ensures FrameOk(old(OutBytes()), old(outcnt))
      ensures match CopyRound(B(), old(Pos()), old(written), symbol, DL, Limit())
              case Next(p, o) => err == 0 && Valid() && Pos() == p && written == o
              case Stop(r) => err != 0 && Agrees(r, err)
    {
      hide Lsb, Stream, DecodeSymbol, Huff.Holds, LenBase, LenExtraBits, DistBase, DistExtraBits, BackCopy;
      if symbol >= 29 { return -10; }
      var extra, e := Bits(LenExtraBits(symbol), 0);
      var len := LenBase(symbol) + extra;
      if e != 0 { return e; }
      var sym := Decode(distcode, DL);
      if sym < 0 { return sym; }
      extra, e := Bits(DistExtraBits(sym), 0);
      var dist := DistBase(sym) + extra;
      if e != 0 { return e; }
      err := PutCopy(len, dist);
    }

    method Codes(lencode: Huff, distcode: Huff, ghost LL: seq<codelen>, ghost DL: seq<codelen>) returns (err: int)
      requires Valid() && lencode.Holds(LL) && distcode.Holds(DL) && |LL| <= FIXLCODES && |DL| <= MAXDCODES
      modifies this, out
      ensures FrameOk(old(OutBytes()), old(outcnt))
      ensures Agrees(Inflate.Codes(B(), old(Pos()), old(written), LL, DL, Limit()), err)
    {
      hide Lsb, Stream, DecodeSymbol, CopyRound, Huff.Holds;
      while true
        invariant Valid() && FrameOk(old(OutBytes()), old(outcnt))
        invariant lencode.Holds(LL) && distcode.Holds(DL)
        invariant Inflate.Codes(B(), Pos(), written, LL, DL, Limit())
                  == Inflate.Codes(B(), old(Pos()), old(written), LL, DL, Limit())
        decreases 8 * |input| - Pos()
      {
        var symbol := Decode(lencode, LL);
        if symbol < 0 { return symbol; }
        if symbol < 256 {
          var e := PutLiteral(symbol);
          if e != 0 { return e; }
        } else if symbol > 256 {
          var e := Copy(symbol - 257, distcode, DL);
          if e != 0 { return e; }
        } else {
          return 0;
        }
      }
    }

    /** The 3-bit lengths of the code length code. */
    method CodeLengthCode(lengths: array<codelen>, ncode: nat) returns (err: int)
      requires BitsOk() && lengths.Length == MAXLCODES + MAXDCODES && ncode <= 19
      modifies this`incnt, this`bitbuf, this`bitcnt, lengths
      ensures old(Pos()) + 3 * ncode > |B()| ==> err == -12 && incnt == |input|
      ensures old(Pos()) + 3 * ncode <= |B()| ==>
                && err == 0 && BitsOk() && Pos() == old(Pos()) + 3 * ncode
                && lengths[..19] == CodeLengthLengths(B(), old(Pos()), ncode)
    {
      hide Lsb, Stream, OrderAt, PlaceOf;
      PlaceInvertsOrder();
      ghost var p := Pos();
      var index := 0;
      assert Pow2(3) == 8;
      while index < ncode
        invariant 0 <= index <= ncode && BitsOk() && Pos() == p + 3 * index
        invariant forall k :: 0 <= k < index ==> lengths[OrderAt(k)] == Lsb(B(), p + 3 * k, 3)
      {
        var v, e := Bits(3, 0);
        if e != 0 { return e; }
        lengths[OrderAt(index)] := v;
        index := index + 1;
      }
      while index < 19
        invariant ncode <= index <= 19 && BitsOk() && Pos() == p + 3 * ncode
        invariant forall k :: 0 <= k < ncode ==> lengths[OrderAt(k)] == Lsb(B(), p + 3 * k, 3)
        invariant forall k :: ncode <= k < index ==> lengths[OrderAt(k)] == 0
      {
        lengths[OrderAt(index)] := 0;
        index := index + 1;
      }
      OrderFilled(lengths[..19], B(), p, ncode);
      return 0;
    }

    /** The run-length coded lengths of both codes. */
    method RunLengths(h: Huff, ghost CL: seq<codelen>, lengths: array<codelen>, total: nat) returns (err: int)
      requires BitsOk() && |CL| == 19 && h.Holds(CL) && total <= lengths.Length
      modifies this`incnt, this`bitbuf, this`bitcnt, lengths
      ensures match ReadLengths(B(), old(Pos()), CL, total, [])
              case Lengths(q, L) => err == 0 && BitsOk() && Pos() == q && lengths[..total] == L
              case BadLengths(e) => err == e && (e == -12 ==> incnt == |input|)
    {
      hide Lsb, Stream, DecodeSymbol, ReadRun, Huff.Holds;
      var index := 0;
      while index < total
        invariant 0 <= index <= total && BitsOk() && h.Holds(CL)
        invariant ReadLengths(B(), Pos(), CL, total, lengths[..index]) == ReadLengths(B(), old(Pos()), CL, total, [])
        decreases total - index
      {
        var symbol := Decode(h, CL);
        if symbol < 0 { return symbol; }
        if symbol < 16 {
          lengths[index] := symbol;
          index := index + 1;
          assert lengths[..index] == lengths[..index - 1] + [symbol];
        } else {
          var e, n := Run(symbol, lengths, index, total);
          if e != 0 { return e; }
          index := index + n;
        }
      }
      return 0;
    }

    /** One run: extra bits and `n` equal lengths. */
    method Run(symbol: nat, lengths: array<codelen>, index: nat, total: nat) returns (err: int, n: nat)
      requires BitsOk() && 16 <= symbol < 19 && index <= total <= lengths.Length
      modifies this`incnt, this`bitbuf, this`bitcnt, lengths
      ensures match ReadRun(B(), old(Pos()), symbol, total, old(lengths[..index]))
              case Lengths(q, L) => err == 0 && BitsOk() && Pos() == q && index + n == |L| && lengths[..index + n] == L
              case BadLengths(e) => err == e && (e == -12 ==> incnt == |input|)
    {
      hide Lsb, Stream;
      var len := 0;
      n := 0;
      if symbol == 16 {
        if index == 0 { return -5, 0; }
        len := lengths[index - 1];
        n, err := Bits(2, 0);
        n := n + 3;
      } else if symbol == 17 {
        n, err := Bits(3, 0);
        n := n + 3;
      } else {
        n, err := Bits(7, 0);
        n := n + 11;
      }
      if err != 0 { return; }
      if index + n > total { return -6, n; }
      Fill(lengths, index, n, len);
    }

    method Fixed(tables: FixedTables) returns (err: int)
      requires Valid() && tables.Valid()
      modifies this, out, tables, tables.lencode.count, tables.lencode.symbol, tables.distcode.count, tables.distcode.symbol
      ensures tables.Valid() && FrameOk(old(OutBytes()), old(outcnt))
      ensures Agrees(Inflate.Codes(B(), old(Pos()), old(written), FixedLiteralLengths(), FixedDistanceLengths(), Limit()), err)
    {
      hide Inflate.Codes, FixedLiteralLengths, FixedDistanceLengths, Huff.Holds, Lsb, Stream;
      tables.Prepare();
      err := Codes(tables.lencode, tables.distcode, FixedLiteralLengths(), FixedDistanceLengths());
    }

    /** The header of a dynamic block, leaving the tables of its two codes. */
    method DynamicHeader(lencode: Huff, distcode: Huff) returns (err: int)
      requires BitsOk() && lencode.Valid() && distcode.Valid()
      requires lencode.symbol.Length == MAXLCODES && distcode.symbol.Length == MAXDCODES
      requires {lencode.count, lencode.symbol} !! {distcode.count, distcode.symbol}
      modifies this`incnt, this`bitbuf, this`bitcnt, lencode.count, lencode.symbol, distcode.count, distcode.symbol
      ensures match ReadHeader(B(), old(Pos()))
              case CodePair(q, LL, DL) =>
                err == 0 && BitsOk() && Pos() == q && lencode.Holds(LL) && distcode.Holds(DL)
              case BadCodes(e) => err == e && (e == -12 ==> incnt == |input|)
    {
      hide Lsb, Stream, Huff.Holds, CodeLengthLengths, ReadCodePair;
      ghost var p := Pos();
      HeaderFields(B(), p);
      var nlen, ndist, ncode;
      nlen, err := Bits(5, 0);
      ndist, err := Bits(5, err);
      ncode, err := Bits(4, err);
      if err != 0 { return; }
      nlen, ndist, ncode := nlen + 257, ndist + 1, ncode + 4;
      if nlen > MAXLCODES || ndist > MAXDCODES { return -3; }
      var lengths := new codelen[MAXLCODES + MAXDCODES];
      err := CodeLengthCode(lengths, ncode);
      if err != 0 { return; }
      err := CodePair(lencode, distcode, lengths, nlen, ndist);
    }

    /** The part of `z_dynamic` after the code length code has been read into `lengths`. */
    method CodePair(lencode: Huff, distcode: Huff, lengths: array<codelen>, nlen: nat, ndist: nat) returns (err: int)
      requires BitsOk() && lencode.Valid() && distcode.Valid()
      requires lencode.symbol.Length == MAXLCODES && distcode.symbol.Length == MAXDCODES
      requires {lencode.count, lencode.symbol} !! {distcode.count, distcode.symbol}
      requires lengths.Length == MAXLCODES + MAXDCODES && 257 <= nlen <= MAXLCODES && 1 <= ndist <= MAXDCODES
      modifies this`incnt, this`bitbuf, this`bitcnt, lengths
      modifies lencode.count, lencode.symbol, distcode.count, distcode.symbol
      ensures match ReadCodePair(B(), old(Pos()), old(lengths[..19]), nlen, ndist)
              case CodePair(q, LL, DL) =>
                err == 0 && BitsOk() && Pos() == q && lencode.Holds(LL) && distcode.Holds(DL)
              case BadCodes(e) => err == e && (e == -12 ==> incnt == |input|)
    {
      hide Lsb, Stream, Huff.Holds, ConstructResult, Count, ReadLengths, Usable;
      ghost var CL := lengths[..19];
      err := lencode.Construct(lengths[..19]);
      if err != 0 { return -4; }
      err := RunLengths(lencode, CL, lengths, nlen + ndist);
      if err != 0 { return; }
      if lengths[256] == 0 { return -9; }
      ghost var L := lengths[..nlen + ndist];
      assert L[..nlen] == lengths[..nlen] && L[nlen..] == lengths[nlen..nlen + ndist];
      err := BuildUsable(lencode, lengths[..nlen], -7);
      if err != 0 { return; }
      err := BuildUsable(distcode, lengths[nlen..nlen + ndist], -8);
    }

    method Dynamic() returns (err: int)
      requires Valid()
      modifies this, out
      ensures FrameOk(old(OutBytes()), old(outcnt))
      ensures Agrees(DynamicBlock(B(), old(Pos()), old(written), Limit()), err)
    {
      hide Lsb, Stream, Huff.Holds, ReadHeader, Inflate.Codes;
      var lencode := new Huff(MAXLCODES);
      var distcode := new Huff(MAXDCODES);
      ghost var p := Pos();
      err := DynamicHeader(lencode, distcode);
      if err != 0 { return; }
      ghost var codes := ReadHeader(B(), p);
      err := Codes(lencode, distcode, codes.literal, codes.distance);
    }

    /** The loop of `zinflate` over blocks. */
    method AllBlocks(tables: FixedTables) returns (err: int)
      requires Valid() && tables.Valid()
      modifies this, out, tables, tables.lencode.count, tables.lencode.symbol, tables.distcode.count, tables.distcode.symbol
      ensures tables.Valid() && FrameOk(old(OutBytes()), old(outcnt))
      ensures Agrees(Blocks(B(), old(Pos()), old(written), Limit()), err)
    {
      hide Lsb, Stream, Inflate.Block;
      while true
        invariant Valid() && tables.Valid() && FrameOk(old(OutBytes()), old(outcnt))
        invariant Blocks(B(), Pos(), written, Limit()) == Blocks(B(), old(Pos()), old(written), Limit())
        decreases 8 * |input| - Pos()
      {
        var last;
        last, err := OneBlock(tables);
        if err != 0 { return; }
        if last != 0 { break; }
      }
      err := 0;
    }

    /** One round of that loop. */
    method OneBlock(tables: FixedTables) returns (last: nat, err: int)
      requires Valid() && tables.Valid()
      modifies this, out, tables, tables.lencode.count, tables.lencode.symbol, tables.distcode.count, tables.distcode.symbol
      ensures tables.Valid() && FrameOk(old(OutBytes()), old(outcnt))
      ensures old(Pos()) + 3 > |B()| ==> Agrees(Fail(-12, old(written)), err)
      ensures old(Pos()) + 3 <= |B()| ==>
                last == B()[old(Pos())] && Agrees(Inflate.Block(B(), old(Pos()), old(written), Limit()), err)
    {
      hide Stream, StoredBlock, Inflate.Codes, DynamicBlock, FixedLiteralLengths, FixedDistanceLengths;
      ghost var p := Pos();
      var kind;
      TypeRange(B(), p);
      hide Lsb;
      last, err := Bits(1, 0);
      kind, err := Bits(2, err);
      if err != 0 { return; }
      match kind
      case 0 => err := Stored();
      case 1 => err := Fixed(tables);
      case 2 => err := Dynamic();
      case _ => err := -1;
    }

    /** `buf` holds the bits from `q` to the next unread byte, of which `left` may still be used. */
    ghost predicate Unread(q: nat, buf: int, left: int, len: int)
      reads this`incnt
    {
      && incnt <= |input| && q <= 8 * incnt <= q + 8 && 1 <= len <= MAXBITS + 1
      && buf == Lsb(B(), q, 8 * incnt - q)
      && left == Min(8 * incnt - q, MAXBITS + 1 - len)
    }
  }

  /** The tables of the fixed codes, built on first use and kept for all later streams. */
  class FixedTables {
    var virgin: bool
    const lencode: Huff
    const distcode: Huff

    ghost predicate Valid()
      reads this, lencode.count, lencode.symbol, distcode.count, distcode.symbol
    {
      && lencode.Valid() && lencode.symbol.Length == FIXLCODES
      && distcode.Valid() && distcode.symbol.Length == MAXDCODES
      && {lencode.count, lencode.symbol} !! {distcode.count, distcode.symbol}
      && (!virgin ==> lencode.Holds(FixedLiteralLengths()) && distcode.Holds(FixedDistanceLengths()))
    }

    constructor ()
      ensures Valid() && fresh(lencode.count) && fresh(lencode.symbol) && fresh(distcode.count) && fresh(distcode.symbol)
    {
      virgin := true;
      lencode := new Huff(FIXLCODES);
      distcode := new Huff(MAXDCODES);
    }

    method Prepare()
      requires Valid()
      modifies this, lencode.count, lencode.symbol, distcode.count, distcode.symbol
      ensures Valid() && !virgin
    {
      if virgin {
        hide FixedLiteralLengths, FixedDistanceLengths, Huff.Holds;
        var lengths := new codelen[FIXLCODES];
        BuildLiteral(lencode, lengths);
        BuildDistance(distcode, lengths);
        virgin := false;
      }
    }
  }

  method BuildLiteral(h: Huff, lengths: array<codelen>)
    requires h.Valid() && h.symbol.Length == FIXLCODES && lengths.Length == FIXLCODES
    modifies h.count, h.symbol, lengths
    ensures h.Holds(FixedLiteralLengths())
  {
    hide FixedLiteralLengths, Huff.Holds, ConstructResult, Count;
    FillFixed(lengths);
    FixedCodesFit();
    var _ := h.Construct(lengths[..]);
  }

  method BuildDistance(h: Huff, lengths: array<codelen>)
    requires h.Valid() && h.symbol.Length == MAXDCODES && lengths.Length == FIXLCODES
    modifies h.count, h.symbol, lengths
    ensures h.Holds(FixedDistanceLengths())
  {
    hide FixedDistanceLengths, Huff.Holds, ConstructResult, Count;
    FillFives(lengths);
    FixedCodesFit();
    var _ := h.Construct(lengths[..MAXDCODES]);
  }

  method FillFixed(lengths: array<codelen>)
    requires lengths.Length == FIXLCODES
    modifies lengths
    ensures lengths[..] == FixedLiteralLengths()
  {
    var symbol := 0;
    while symbol < 144
      invariant 0 <= symbol <= 144 && forall s :: 0 <= s < symbol ==> lengths[s] == FixedLiteralLengths()[s]
    { lengths[symbol] := 8; symbol := symbol + 1; }
    while symbol < 256
      invariant 144 <= symbol <= 256 && forall s :: 0 <= s < symbol ==> lengths[s] == FixedLiteralLengths()[s]
    { lengths[symbol] := 9; symbol := symbol + 1; }
    while symbol < 280
      invariant 256 <= symbol <= 280 && forall s :: 0 <= s < symbol ==> lengths[s] == FixedLiteralLengths()[s]
    { lengths[symbol] := 7; symbol := symbol + 1; }
    while symbol < FIXLCODES
      invariant 280 <= symbol <= FIXLCODES && forall s :: 0 <= s < symbol ==> lengths[s] == FixedLiteralLengths()[s]
    { lengths[symbol] := 8; symbol := symbol + 1; }
  }

  method FillFives(lengths: array<codelen>)
    requires lengths.Length == FIXLCODES
    modifies lengths
    ensures lengths[..MAXDCODES] == FixedDistanceLengths()
  {
    var symbol := 0;
    while symbol < MAXDCODES
      invariant 0 <= symbol <= MAXDCODES && forall s :: 0 <= s < symbol ==> lengths[s] == 5
    { lengths[symbol] := 5; symbol := symbol + 1; }
  }

  lemma OrderFilled(lens: seq<codelen>, B: seq<bit>, p: nat, n: nat)
    requires |lens| == 19 && n <= 19 && p + 3 * n <= |B|
    requires forall k :: 0 <= k < 19 ==> 0 <= OrderAt(k) < 19 && lens[OrderAt(k)] == if k < n then Lsb(B, p + 3 * k, 3) else 0
    ensures lens == CodeLengthLengths(B, p, n)
  {
    hide Lsb, OrderAt, PlaceOf;
    PlaceInvertsOrder();
    forall j | 0 <= j < 19
      ensures lens[j] == if PlaceOf(j) < n then Lsb(B, p + 3 * PlaceOf(j), 3) else 0
    {
      assert j == OrderAt(PlaceOf(j));
    }
  }

  method Fill(lengths: array<codelen>, index: nat, n: nat, len: codelen)
    requires index + n <= lengths.Length
    modifies lengths
    ensures lengths[..index + n] == old(lengths[..index]) + Repeat(len, n)
  {
    var k := 0;
    while k < n
      invariant 0 <= k <= n && lengths[..index] == old(lengths[..index])
      invariant forall i :: index <= i < index + k ==> lengths[i] == len
    {
      lengths[index + k] := len;
      k := k + 1;
    }
  }

  lemma HeaderFields(B: seq<bit>, p: nat)
    requires p <= |B|
    ensures p + 14 <= |B| ==> Lsb(B, p, 5) < 32 && Lsb(B, p + 5, 5) < 32 && Lsb(B, p + 10, 4) < 16
  {
    assert Pow2(5) == 32 && Pow2(4) == 16;
  }

  lemma TypeRange(B: seq<bit>, p: nat)
    requires p <= |B|
    ensures p + 3 <= |B| ==> Lsb(B, p, 1) == B[p] && Lsb(B, p + 1, 2) < 4
  {
    assert Pow2(2) == 4;
  }

  /** Builds a code's tables; `refusal` is the error when the code is unusable. */
  method BuildUsable(h: Huff, L: seq<codelen>, refusal: int) returns (err: int)
    requires h.Valid() && |L| <= h.symbol.Length && refusal != 0
    modifies h.count, h.symbol
    ensures err == if Usable(L) then 0 else refusal
    ensures err == 0 ==> h.Holds(L)
  {
    hide ConstructResult;
    err := h.Construct(L);
    if err != 0 && (err < 0 || |L| != h.count[0] + h.count[1]) { return refusal; }
    return 0;
  }

  /** `zinflate`: the two lengths go in and come back updated unless the error is positive. */
  method Zinflate(tables: FixedTables, dest: array?<byte>, destlen: nat, source: seq<byte>, sourcelen: nat)
    returns (err: int, destlen': nat, sourcelen': nat)
    requires tables.Valid() && sourcelen <= |source| && (dest != null ==> destlen <= dest.Length)
    modifies dest, tables, tables.lencode.count, tables.lencode.symbol, tables.distcode.count, tables.distcode.symbol
    ensures tables.Valid()
    ensures match Blocks(Stream(source[..sourcelen]), 0, [], if dest == null then None else Some(destlen))
            case Done(p, o) =>
              && err == 0 && destlen' == |o| && sourcelen' == (p + 7) / 8
              && (dest != null ==> |o| <= destlen && dest[..|o|] == o && dest[|o|..] == old(dest[|o|..]))
            case Fail(e, o) =>
              && err == e
              && destlen' == (if e > 0 then destlen else |o|)
              && (e > 0 ==> sourcelen' == sourcelen) && (e == -12 ==> sourcelen' == sourcelen)
              && (dest != null ==> |o| <= destlen && dest[..|o|] == o && dest[|o|..] == old(dest[|o|..]))
  {
    hide Lsb, Stream, Blocks;
    var s := new Zdst(dest, destlen, source[..sourcelen]);
    err := s.AllBlocks(tables);
    destlen', sourcelen' := destlen, sourcelen;
    if err <= 0 {
      destlen', sourcelen' := s.outcnt, s.incnt;
    }
  }

  function Min(a: int, b: int): int { if a < b then a else b }

  lemma ModStep(n: int, len: nat, m: int)
    requires n % 8 == m && 0 <= n - len <= 7
    ensures (m - len) % 8 == n - len
  {}

  /** `len - 1` bits have been read and no codeword that short matches. */
  ghost predicate Searching(B: seq<bit>, p: nat, L: seq<codelen>, len: nat, code: int, first: int, index: int) {
    && 1 <= len && Beyond(B, p, L, len - 1)
    && code == 2 * Msb(B, p, len - 1) && first == First(L, len) && index == Offs(L, len)
  }

  lemma SearchStart(B: seq<bit>, p: nat, L: seq<codelen>)
    requires p <= |B|
    ensures Searching(B, p, L, 1, 0, 0, 0)
  {}

  lemma SearchHit(B: seq<bit>, p: nat, L: seq<codelen>, len: nat, code: int, first: int, index: int) returns (s: nat)
    requires Searching(B, p, L, len, code, first, index) && len <= MAXBITS && p + len <= |B|
    requires code + B[p + len - 1] - Count(L, len) < first
    ensures s < |L| && L[s] == len && Slot(L, s) == index + (code + B[p + len - 1] - first)
    ensures DecodeSymbol(B, p, L) == Symbol(s, p + len)
  {
    var c := code + B[p + len - 1];
    assert c == Msb(B, p, len);
    assert c >= first;
    s := SymbolOfRank(L, len, c - first, |L|);
    assert Matches(B, p, L, s);
    DecodeSymbolIs(B, p, L, s);
  }

  lemma SearchOn(B: seq<bit>, p: nat, L: seq<codelen>, len: nat, code: int, first: int, index: int)
    requires Searching(B, p, L, len, code, first, index) && p + len <= |B|
    requires code + B[p + len - 1] - Count(L, len) >= first
    ensures var c := code + B[p + len - 1];
            Searching(B, p, L, len + 1, 2 * c, 2 * (first + Count(L, len)), index + Count(L, len))
  {
    assert code + B[p + len - 1] == Msb(B, p, len);
  }

  lemma SearchEnd(B: seq<bit>, p: nat, L: seq<codelen>, len: nat, code: int, first: int, index: int)
    requires Searching(B, p, L, len, code, first, index) && len <= MAXBITS + 1
    requires len == MAXBITS + 1 || p + len - 1 == |B|
    ensures DecodeSymbol(B, p, L) == NoSymbol(if len == MAXBITS + 1 then -10 else -12)
  {
    var n := len - 1;
    forall s: nat | Matches(B, p, L, s)
      ensures false
    {
      BeyondMeansNoMatch(B, p, L, n, s);
    }
  }

  /** Two bytes as the 16-bit number they stand for. */
  function Word(low: byte, high: byte): (w: nat)
    ensures w < 65536
  { (low as int) + 256 * (high as int) }

  lemma AlignPos(cnt: nat, left: nat)
    requires left < 8 && left <= 8 * cnt
    ensures Align(8 * cnt - left) == 8 * cnt
  {}

  lemma Complement(len: nat, low: byte, high: byte)
    requires len < 65536
    ensures low == 255 - len % 256 && high == 255 - len / 256 <==> Word(low, high) == 65535 - len
  {}

  lemma TwoBytes(input: seq<byte>, k: nat)
    requires k + 2 <= |input|
    ensures Lsb(Stream(input), 8 * k, 16) == Word(input[k], input[k + 1])
  {
    assert Pow2(8) == 256;
    hide Lsb, Stream, Pow2;
    StreamByte(input, k);
    StreamByte(input, k + 1);
    LsbSplit(Stream(input), 8 * k, 8, 8);
  }

  lemma OneByte(input: seq<byte>, k: nat, i: nat)
    requires k + i < |input|
    ensures Lsb(Stream(input), 8 * k + 8 * i, 8) == input[k + i]
  {
    hide Lsb, Stream, Pow2;
    StreamByte(input, k + i);
    assert 8 * k + 8 * i == 8 * (k + i);
  }

  lemma BytesOfInput(input: seq<byte>, k: nat, n: nat)
    requires k + n <= |input|
    ensures BytesAt(Stream(input), 8 * k, n) == input[k..k + n]
  {
    hide Lsb, Stream, Pow2, BytesAt;
    forall i | 0 <= i < n
      ensures Lsb(Stream(input), 8 * k + 8 * i, 8) == input[k..k + n][i]
    {
      OneByte(input, k, i);
    }
    assert BytesAt(Stream(input), 8 * k, n) == input[k..k + n];
  }
}
