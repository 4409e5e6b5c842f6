/** Canonical Huffman codes (RFC 1951 section 3.2.2) and the tables built from their lengths. */
module Huffman {
  import opened Bits

  const MAXBITS := 15

  /** A code length; 0 marks a symbol without a codeword. */
  type codelen = x: int | 0 <= x <= 15

  /** How many of the first `k` symbols have length `l`. */
  function CountUpTo(L: seq<codelen>, l: nat, k: nat): (c: nat)
    requires k <= |L|
    ensures c <= k
  {
    if k == 0 then 0 else CountUpTo(L, l, k - 1) + if L[k - 1] == l then 1 else 0
  }

  function Count(L: seq<codelen>, l: nat): nat { CountUpTo(L, l, |L|) }

  /** Rank of `s` among the symbols of its length. */
  function Rank(L: seq<codelen>, s: nat): nat
    requires s < |L|
  {
    CountUpTo(L, L[s], s)
  }

  /** The smallest codeword of length `l`: the `next_code` computation of the standard. */
  function First(L: seq<codelen>, l: nat): nat {
    if l <= 1 then 0 else 2 * (First(L, l - 1) + Count(L, l - 1))
  }

  /** The codeword of symbol `s`, read as a number with its first bit most significant. */
  function Code(L: seq<codelen>, s: nat): nat
    requires s < |L|
  {
    First(L, L[s]) + Rank(L, s)
  }

  /** Number of the first `k` symbols whose length is between 1 and `l - 1`. */
  function ShorterUpTo(L: seq<codelen>, l: nat, k: nat): nat
    requires k <= |L|
  {
    if l <= 1 then 0 else ShorterUpTo(L, l - 1, k) + CountUpTo(L, l - 1, k)
  }

  function Offs(L: seq<codelen>, l: nat): nat { ShorterUpTo(L, l, |L|) }

  /** Where symbol `s` belongs in the table sorted by (length, symbol). */
  function Slot(L: seq<codelen>, s: nat): nat
    requires s < |L|
  {
    Offs(L, L[s]) + Rank(L, s)
  }

  /** Codewords of length `l` still free once all lengths up to `l` are handed out. */
  function Left(L: seq<codelen>, l: nat): int {
    if l == 0 then 1 else 2 * Left(L, l - 1) - Count(L, l)
  }

  /** Code space, in units of 2^-m, taken by those of the first `k` symbols no longer than `m`. */
  function Kraft(L: seq<codelen>, k: nat, m: nat): nat
    requires k <= |L|
  {
    if k == 0 then 0
    else Kraft(L, k - 1, m) + if 0 < L[k - 1] <= m then Pow2(m - L[k - 1]) else 0
  }

  /** The first negative `Left`, or the last one. */
  function LeftScan(L: seq<codelen>, l: nat): int
    requires 1 <= l <= MAXBITS + 1
    decreases MAXBITS + 1 - l
  {
    if l == MAXBITS + 1 then Left(L, MAXBITS)
    else if Left(L, l) < 0 then Left(L, l)
    else LeftScan(L, l + 1)
  }

  /** What `z_construct` reports: 0 for no codewords at all, else the unused code space. */
  function ConstructResult(L: seq<codelen>): int {
    if Count(L, 0) == |L| then 0 else LeftScan(L, 1)
  }

  ghost predicate NoCodewords(L: seq<codelen>) {
    forall s :: 0 <= s < |L| ==> L[s] == 0
  }

  // ---------- counting lemmas ----------

  lemma CountMonotone(L: seq<codelen>, l: nat, j: nat, k: nat)
    requires j <= k <= |L|
    ensures CountUpTo(L, l, j) <= CountUpTo(L, l, k)
  {
    if j < k { CountMonotone(L, l, j, k - 1); }
  }

  lemma RankBelow(L: seq<codelen>, l: nat, s: nat, k: nat)
    requires s < k <= |L| && L[s] == l
    ensures CountUpTo(L, l, s) < CountUpTo(L, l, k)
  {
    CountMonotone(L, l, s + 1, k);
  }

  lemma CountsZeroIff(L: seq<codelen>, k: nat)
    requires k <= |L|
    ensures CountUpTo(L, 0, k) == k <==> forall s :: 0 <= s < k ==> L[s] == 0
  {
    if k != 0 { CountsZeroIff(L, k - 1); }
  }

  /** Every rank below the count belongs to a symbol. */
  lemma {:induction false} SymbolOfRank(L: seq<codelen>, l: nat, r: nat, k: nat) returns (s: nat)
    requires k <= |L| && r < CountUpTo(L, l, k)
    ensures s < k && L[s] == l && CountUpTo(L, l, s) == r
  {
    if r == CountUpTo(L, l, k - 1) {
      s := k - 1;
    } else {
      s := SymbolOfRank(L, l, r, k - 1);
    }
  }

  lemma {:induction false} ShorterStep(L: seq<codelen>, l: nat, k: nat)
    requires k < |L|
    ensures ShorterUpTo(L, l, k + 1) == ShorterUpTo(L, l, k) + if 0 < L[k] < l then 1 else 0
  {
    if l > 1 { ShorterStep(L, l - 1, k); }
  }

  lemma {:induction false} ShorterNone(L: seq<codelen>, l: nat)
    ensures ShorterUpTo(L, l, 0) == 0
  {
    if l > 1 { ShorterNone(L, l - 1); }
  }

  /** The counts of all lengths add up to the number of symbols. */
  lemma {:induction false} CountsTotal(L: seq<codelen>, k: nat)
    requires k <= |L|
    ensures ShorterUpTo(L, MAXBITS + 1, k) + CountUpTo(L, 0, k) == k
  {
    if k == 0 {
      ShorterNone(L, MAXBITS + 1);
    } else {
      CountsTotal(L, k - 1);
      ShorterStep(L, MAXBITS + 1, k - 1);
    }
  }

  lemma {:induction false} OffsMonotone(L: seq<codelen>, l: nat, m: nat)
    requires 1 <= l < m
    ensures Offs(L, l) + Count(L, l) <= Offs(L, m)
  {
    if l < m - 1 { OffsMonotone(L, l, m - 1); }
  }

  lemma SlotInRange(L: seq<codelen>, s: nat)
    requires s < |L| && L[s] > 0
    ensures Slot(L, s) < |L|
    ensures Offs(L, L[s]) <= Slot(L, s) < Offs(L, L[s]) + Count(L, L[s])
  {
    RankBelow(L, L[s], s, |L|);
    OffsMonotone(L, L[s], MAXBITS + 1);
    CountsTotal(L, |L|);
  }

  /** Slots order symbols by (length, symbol). */
  lemma SlotOrder(L: seq<codelen>, s: nat, t: nat)
    requires s < |L| && t < |L| && L[s] > 0 && L[t] > 0
    requires L[s] < L[t] || (L[s] == L[t] && s < t)
    ensures Slot(L, s) < Slot(L, t)
  {
    if L[s] < L[t] {
      SlotInRange(L, s);
      OffsMonotone(L, L[s], L[t]);
    } else {
      RankBelow(L, L[s], s, t);
    }
  }

  lemma SlotFresh(L: seq<codelen>, t: nat)
    requires t < |L| && L[t] > 0
    ensures Slot(L, t) < |L|
    ensures forall s :: 0 <= s < t && L[s] > 0 ==> Slot(L, s) != Slot(L, t)
  {
    SlotInRange(L, t);
    hide Slot;
    forall s | 0 <= s < t && L[s] > 0
      ensures Slot(L, s) != Slot(L, t)
    {
      if L[t] < L[s] { SlotOrder(L, t, s); } else { SlotOrder(L, s, t); }
    }
  }

  // ---------- Kraft space ----------

  lemma {:induction false} KraftStep(L: seq<codelen>, k: nat, m: nat)
    requires k <= |L|
    ensures Kraft(L, k, m + 1) == 2 * Kraft(L, k, m) + CountUpTo(L, m + 1, k)
  {
    if k != 0 { KraftStep(L, k - 1, m); }
  }

  lemma {:induction false} KraftNone(L: seq<codelen>, k: nat)
    requires k <= |L|
    ensures Kraft(L, k, 0) == 0
  {
    if k != 0 { KraftNone(L, k - 1); }
  }

  /** `Left` is the code space that no codeword of length at most `m` uses. */
  lemma {:induction false} LeftIsUnusedKraftSpace(L: seq<codelen>, m: nat)
    ensures Left(L, m) == Pow2(m) - Kraft(L, |L|, m)
  {
    if m == 0 {
      KraftNone(L, |L|);
    } else {
      LeftIsUnusedKraftSpace(L, m - 1);
      KraftStep(L, |L|, m - 1);
    }
  }

  lemma {:induction false} LeftIsUnusedCodes(L: seq<codelen>, m: nat)
    requires m >= 1
    ensures Left(L, m) == Pow2(m) - First(L, m) - Count(L, m)
  {
    if m > 1 { LeftIsUnusedCodes(L, m - 1); }
  }

  lemma {:induction false} LeftStaysNegative(L: seq<codelen>, l: nat, m: nat)
    requires l <= m && Left(L, l) < 0
    ensures Left(L, m) < 0
  {
    if l < m { LeftStaysNegative(L, l, m - 1); }
  }

  lemma {:induction false} LeftScanMeaning(L: seq<codelen>, l: nat)
    requires 1 <= l <= MAXBITS + 1
    ensures LeftScan(L, l) < 0 <==> Left(L, MAXBITS) < 0
    ensures LeftScan(L, l) >= 0 ==> LeftScan(L, l) == Left(L, MAXBITS)
    decreases MAXBITS + 1 - l
  {
    if l <= MAXBITS {
      if Left(L, l) < 0 {
        LeftStaysNegative(L, l, MAXBITS);
      } else {
        LeftScanMeaning(L, l + 1);
      }
    }
  }

  lemma {:induction false} ScanStops(L: seq<codelen>, l: nat, k: nat)
    requires 1 <= l <= k <= MAXBITS && Left(L, k) < 0 && forall j :: l <= j < k ==> Left(L, j) >= 0
    ensures LeftScan(L, l) == Left(L, k)
    decreases k - l
  {
    if l < k { ScanStops(L, l + 1, k); }
  }

  /** An over-subscribed code is reported by how much it is so at the first length at which it is. */
  lemma OverSubscribed(L: seq<codelen>, k: nat)
    requires 1 <= k <= MAXBITS && Kraft(L, |L|, k) > Pow2(k) && forall j :: 1 <= j < k ==> Kraft(L, |L|, j) <= Pow2(j)
    ensures ConstructResult(L) == Pow2(k) - Kraft(L, |L|, k)
  {
    hide LeftScan, Left;
    forall j: nat
      ensures Left(L, j) == Pow2(j) - Kraft(L, |L|, j)
    {
      LeftIsUnusedKraftSpace(L, j);
    }
    CountsZeroIff(L, |L|);
    if NoCodewords(L) { NoSpace(L, |L|, k); }
    ScanStops(L, 1, k);
  }

  lemma {:induction false} NoSpace(L: seq<codelen>, n: nat, m: nat)
    requires n <= |L| && NoCodewords(L)
    ensures Kraft(L, n, m) == 0
  {
    if n != 0 { NoSpace(L, n - 1, m); }
  }

  /** The result is negative exactly when the lengths need more code space than there is;
      otherwise, unless no symbol has a codeword, it is the unused space in units of 2^-15. */
  lemma ConstructResultMeaning(L: seq<codelen>)
    ensures ConstructResult(L) < 0 <==> Kraft(L, |L|, MAXBITS) > Pow2(MAXBITS)
    ensures ConstructResult(L) >= 0 && !NoCodewords(L) ==>
              ConstructResult(L) == Pow2(MAXBITS) - Kraft(L, |L|, MAXBITS)
    ensures NoCodewords(L) ==> ConstructResult(L) == 0
  {
    CountsZeroIff(L, |L|);
    LeftScanMeaning(L, 1);
    LeftIsUnusedKraftSpace(L, MAXBITS);
    if NoCodewords(L) { NoSpace(L, |L|, MAXBITS); }
  }

  // ---------- codewords ----------

  /** `B` continues at `p` with the codeword of symbol `s`. */
  ghost predicate Matches(B: seq<bit>, p: nat, L: seq<codelen>, s: nat) {
    && s < |L| && L[s] > 0
    && p + L[s] <= |B| && Msb(B, p, L[s]) == Code(L, s)
  }

  /** After `n` bits nothing has matched: the value read is past every codeword that short. */
  ghost predicate Beyond(B: seq<bit>, p: nat, L: seq<codelen>, n: nat) {
    p + n <= |B| && (n == 0 || Msb(B, p, n) >= First(L, n) + Count(L, n))
  }

  /** A stream that carries a codeword of length `n` is beyond all shorter ones. */
  lemma {:induction false} MatchIsBeyond(B: seq<bit>, p: nat, L: seq<codelen>, n: nat, m: nat)
    requires m < n && p + n <= |B| && Msb(B, p, n) >= First(L, n)
    ensures Beyond(B, p, L, m)
  {
    if m < n - 1 { MatchIsBeyond(B, p, L, n - 1, m); }
  }

  lemma MatchWithin(B: seq<bit>, p: nat, L: seq<codelen>, s: nat)
    requires Matches(B, p, L, s)
    ensures First(L, L[s]) <= Msb(B, p, L[s]) < First(L, L[s]) + Count(L, L[s])
  {
    RankBelow(L, L[s], s, |L|);
  }

  lemma {:induction false} BeyondMeansNoMatch(B: seq<bit>, p: nat, L: seq<codelen>, n: nat, s: nat)
    requires Beyond(B, p, L, n) && Matches(B, p, L, s)
    ensures L[s] > n
  {
    MatchWithin(B, p, L, s);
    if n > L[s] { BeyondGrows(B, p, L, L[s], n); }
  }

  lemma {:induction false} BeyondGrows(B: seq<bit>, p: nat, L: seq<codelen>, n: nat, m: nat)
    requires 1 <= n < m && p + m <= |B| && Beyond(B, p, L, m)
    ensures Beyond(B, p, L, n)
  {
    assert 2 * Msb(B, p, m - 1) + 1 >= Msb(B, p, m) >= First(L, m) == 2 * (First(L, m - 1) + Count(L, m - 1));
    if n < m - 1 { BeyondGrows(B, p, L, n, m - 1); }
  }

  /** No codeword is a prefix of another: at most one symbol matches. */
  lemma {:induction false} MatchUnique(B: seq<bit>, p: nat, L: seq<codelen>, s: nat, t: nat)
    requires Matches(B, p, L, s) && Matches(B, p, L, t)
    ensures s == t
  {
    MatchWithin(B, p, L, s);
    MatchWithin(B, p, L, t);
    if L[s] < L[t] {
      MatchIsBeyond(B, p, L, L[t], L[s]);
    } else if L[t] < L[s] {
      MatchIsBeyond(B, p, L, L[s], L[t]);
    } else if s < t {
      RankBelow(L, L[s], s, t);
    } else if t < s {
      RankBelow(L, L[s], t, s);
    }
  }

  /** The codeword of `s` as a bit string, as an encoder emits it. */
  function Codeword(L: seq<codelen>, s: nat): (w: seq<bit>)
    requires s < |L|
    ensures |w| == L[s]
  {
    MsbBits(Code(L, s), L[s])
  }

  /** Lengths that are not over-subscribed give each symbol a codeword that fits its length. */
  lemma CodeFits(L: seq<codelen>, s: nat)
    requires ConstructResult(L) >= 0
    requires s < |L| && L[s] > 0
    ensures Code(L, s) < Pow2(L[s])
  {
    ConstructResultMeaning(L);
    LeftIsUnusedKraftSpace(L, MAXBITS);
    if Left(L, L[s]) < 0 { LeftStaysNegative(L, L[s], MAXBITS); }
    LeftIsUnusedCodes(L, L[s]);
    RankBelow(L, L[s], s, |L|);
  }

  /** Emitted codewords are exactly what `Matches` recognises. */
  lemma MatchesIsCodeword(B: seq<bit>, p: nat, L: seq<codelen>, s: nat)
    requires ConstructResult(L) >= 0
    requires s < |L| && L[s] > 0
    ensures Matches(B, p, L, s) <==> At(B, p, Codeword(L, s))
  {
    CodeFits(L, s);
    AtMsb(B, p, Code(L, s), L[s]);
  }

  // ---------- the decoding tables ----------

  /** `zdhuff_t`: number of symbols of each length, and the symbols in canonical order. */
  class Huff {
    const count: array<int>
    const symbol: array<int>

    ghost predicate Valid()
    {
      count.Length == MAXBITS + 1 && count != symbol
    }

    /** The tables describe the canonical code with lengths `L`. */
    ghost predicate Holds(L: seq<codelen>)
      reads count, symbol
    {
      && Valid()
      && (forall l :: 0 <= l <= MAXBITS ==> count[l] == Count(L, l))
      && forall s :: 0 <= s < |L| && L[s] > 0 ==> Slot(L, s) < symbol.Length && symbol[Slot(L, s)] == s
    }

    lemma CountOf(L: seq<codelen>, l: nat)
      requires Holds(L) && l <= MAXBITS
      ensures count.Length == MAXBITS + 1 && count[l] == Count(L, l)
    {}

    lemma SymbolOf(L: seq<codelen>, s: nat)
      requires Holds(L) && s < |L| && L[s] > 0
      ensures Slot(L, s) < symbol.Length && symbol[Slot(L, s)] == s
    {}

    constructor (capacity: nat)
      ensures Valid() && symbol.Length == capacity && fresh(count) && fresh(symbol)
    {
      count, symbol := new int[MAXBITS + 1], new int[capacity];
    }

    /** Builds the tables for the lengths `L`; see `ConstructResultMeaning` for the result.
        Over-subscribed lengths leave the symbol table alone. */
    method Construct(L: seq<codelen>) returns (left: int)
      requires Valid() && |L| <= symbol.Length
      modifies count, symbol
      ensures left == ConstructResult(L)
      ensures forall l :: 0 <= l <= MAXBITS ==> count[l] == Count(L, l)
      ensures left >= 0 ==> Holds(L)
      ensures left < 0 ==> symbol[..] == old(symbol[..])
    {
      var len := 0;
      while len <= MAXBITS
        invariant 0 <= len <= MAXBITS + 1
        invariant forall l :: 0 <= l < len ==> count[l] == 0
        invariant symbol[..] == old(symbol[..])
      {
        count[len] := 0;
        len := len + 1;
      }
      var sym := 0;
      while sym < |L|
        invariant 0 <= sym <= |L|
        invariant forall l :: 0 <= l <= MAXBITS ==> count[l] == CountUpTo(L, l, sym)
        invariant symbol[..] == old(symbol[..])
      {
        count[L[sym]] := count[L[sym]] + 1;
        sym := sym + 1;
      }
      CountsZeroIff(L, |L|);
      if count[0] == |L| { return 0; }
      left := 1;
      len := 1;
      while len <= MAXBITS
        invariant 1 <= len <= MAXBITS + 1
        invariant left == Left(L, len - 1) && ConstructResult(L) == LeftScan(L, len)
      {
        left := left * 2;
        left := left - count[len];
        if left < 0 { return left; }
        len := len + 1;
      }
      FillSymbols(L);
    }

    /** The last two loops of `z_construct`: offsets of each length, then the symbols in order. */
    method FillSymbols(L: seq<codelen>)
      requires Valid() && |L| <= symbol.Length
      requires forall l :: 0 <= l <= MAXBITS ==> count[l] == Count(L, l)
      modifies symbol
      ensures Holds(L)
    {
      var offs := new int[MAXBITS + 1];
      offs[1] := 0;
      var len := 1;
      while len < MAXBITS
        invariant 1 <= len <= MAXBITS
        invariant forall l :: 1 <= l <= len ==> offs[l] == Offs(L, l)
        modifies offs
      {
        offs[len + 1] := offs[len] + count[len];
        len := len + 1;
      }
      var sym := 0;
      while sym < |L|
        invariant 0 <= sym <= |L|
        invariant forall l :: 1 <= l <= MAXBITS ==> offs[l] == Offs(L, l) + CountUpTo(L, l, sym)
        invariant forall s :: 0 <= s < sym && L[s] > 0 ==> Slot(L, s) < symbol.Length && symbol[Slot(L, s)] == s
        modifies offs, symbol
      {
        if L[sym] != 0 {
          SlotFresh(L, sym);
          symbol[offs[L[sym]]] := sym;
          offs[L[sym]] := offs[L[sym]] + 1;
        }
        sym := sym + 1;
      }
    }
  }
}
