/** `sd_update`: making a choice or undoing it, in place. */
module SudokuUpdate {
  import opened SudokuBoard

  /** The smallest count that some update since `start` left, and a constraint that has it; 10 if none below. */
  ghost predicate MinOf(start: seq<nat>, sc: seq<nat>, min: int, minc: int) {
    && |start| == COLS && |sc| == COLS && min <= 10
    && (min < 10 ==> 0 <= minc < COLS && sc[minc] == min)
    && (forall c :: 0 <= c < COLS ==> sc[c] <= start[c])
    && forall c :: 0 <= c < COLS && sc[c] < start[c] ==> sc[c] >= min
  }

  ghost predicate Positive(a: Aux, sc: seq<nat>, x: nat)
    requires Incidence(a) && x < ROWS && |sc| == COLS
  {
    forall c :: c in a.c[x] ==> sc[c] >= 1
  }

  predicate InPrefix(s: seq<nat>, k: nat, c: nat)
    requires k <= |s|
  {
    exists j :: 0 <= j < k && s[j] == c
  }

  /** Counting `d` on the first `k` constraints of row `x`. */
  ghost predicate MovedUpTo(a: Aux, sc: seq<nat>, tc: seq<nat>, x: nat, k: nat, d: int) {
    && Incidence(a) && x < ROWS && |sc| == COLS && |tc| == COLS && k <= 4
    && forall c :: 0 <= c < COLS ==> tc[c] == if InPrefix(a.c[x], k, c) then Byte(sc[c] + d) else sc[c]
  }

  lemma MovedStep(a: Aux, sc: seq<nat>, tc: seq<nat>, x: nat, k: nat, d: int)
    requires k < 4 && MovedUpTo(a, sc, tc, x, k, d)
    ensures a.c[x][k] < COLS && tc[a.c[x][k]] == sc[a.c[x][k]]
    ensures MovedUpTo(a, sc, tc[a.c[x][k] := Byte(tc[a.c[x][k]] + d)], x, k + 1, d)
  {
    var cc := a.c[x][k];
    assert !InPrefix(a.c[x], k, cc);
    var uc := tc[cc := Byte(tc[cc] + d)];
    forall c | 0 <= c < COLS
      ensures uc[c] == if InPrefix(a.c[x], k + 1, c) then Byte(sc[c] + d) else sc[c]
    {
      assert InPrefix(a.c[x], k + 1, c) <==> InPrefix(a.c[x], k, c) || c == cc;
    }
  }

  lemma MovedAll(a: Aux, sc: seq<nat>, tc: seq<nat>, x: nat, d: int)
    requires MovedUpTo(a, sc, tc, x, 4, d)
    ensures Moved(a, sc, tc, x, d)
  {
    forall c | 0 <= c < COLS
      ensures InPrefix(a.c[x], 4, c) <==> c in a.c[x]
    {}
  }

  lemma MovedNone(a: Aux, sc: seq<nat>, x: nat, d: int)
    requires Incidence(a) && x < ROWS && |sc| == COLS
    ensures MovedUpTo(a, sc, sc, x, 0, d)
  {}

  lemma MinStep(a: Aux, start: seq<nat>, sc: seq<nat>, x: nat, k: nat, min: int, minc: int)
    requires Incidence(a) && x < ROWS && k < 4 && MinOf(start, sc, min, minc) && sc[a.c[x][k]] >= 1
    ensures var cc := a.c[x][k];
            var v := Byte(sc[cc] - 1);
            sc[cc] < 256 ==>
            MinOf(start, sc[cc := v], if v < min then v else min, if v < min then cc else minc)
  {}

  /** Takes one choice from each constraint of row `x`, keeping track of the smallest count. */
  method TakeFrom(a: Aux, sc: array<nat>, x: nat, ghost start: seq<nat>, min0: int, minc0: int) returns (min: int, minc: int)
    requires Incidence(a) && x < ROWS && sc.Length == COLS
    modifies sc
    ensures Moved(a, old(sc[..]), sc[..], x, -1)
    ensures MinOf(start, old(sc[..]), min0, minc0) && Positive(a, old(sc[..]), x) && Bytes(old(sc[..])) ==> MinOf(start, sc[..], min, minc)
  {
    hide Incidence, MinOf, MovedUpTo, InPrefix, Positive;
    min, minc := min0, minc0;
    var k := 0;
    ghost var s0 := sc[..];
    MovedNone(a, s0, x, -1);
    RowShape(a, x);
    while k < 4
      invariant 0 <= k <= 4 && MovedUpTo(a, s0, sc[..], x, k, -1)
      invariant MinOf(start, s0, min0, minc0) && Positive(a, s0, x) && Bytes(s0) ==> MinOf(start, sc[..], min, minc)
    {
      var cc := a.c[x][k];
      MovedStep(a, s0, sc[..], x, k, -1);
      if MinOf(start, s0, min0, minc0) && Positive(a, s0, x) && Bytes(s0) {
        PositiveAt(a, s0, x, k);
        MinStep(a, start, sc[..], x, k, min, minc);
      }
      ghost var s1 := sc[..];
      var was: int := sc[cc];
      sc[cc] := Byte(was - 1);
      assert sc[..] == s1[cc := Byte(s1[cc] - 1)];
      if sc[cc] < min { min, minc := sc[cc], cc; }
      k := k + 1;
    }
    MovedAll(a, s0, sc[..], x, -1);
  }

  ghost predicate Bytes(sc: seq<nat>) { forall c :: 0 <= c < |sc| ==> sc[c] < 256 }

  lemma RowShape(a: Aux, x: nat)
    requires Incidence(a) && x < ROWS
    ensures x < |a.c| && |a.c[x]| == 4 && forall k :: 0 <= k < 4 ==> a.c[x][k] < COLS
  {}

  lemma PositiveAt(a: Aux, sc: seq<nat>, x: nat, k: nat)
    requires Incidence(a) && x < ROWS && |sc| == COLS && Positive(a, sc, x) && Bytes(sc) && k < 4
    ensures 1 <= sc[a.c[x][k]] < 256
  {}

  /** Gives one choice back to each constraint of row `x`. */
  method GiveBack(a: Aux, sc: array<nat>, x: nat)
    requires Incidence(a) && x < ROWS && sc.Length == COLS
    modifies sc
    ensures Moved(a, old(sc[..]), sc[..], x, 1)
  {
    hide Incidence, MovedUpTo, InPrefix;
    var k := 0;
    ghost var s0 := sc[..];
    MovedNone(a, s0, x, 1);
    RowShape(a, x);
    while k < 4
      invariant 0 <= k <= 4 && MovedUpTo(a, s0, sc[..], x, k, 1)
    {
      MovedStep(a, s0, sc[..], x, k, 1);
      ghost var s1 := sc[..];
      sc[a.c[x][k]] := Byte(sc[a.c[x][k]] + 1);
      assert sc[..] == s1[a.c[x][k] := Byte(s1[a.c[x][k]] + 1)];
      k := k + 1;
    }
    MovedAll(a, s0, sc[..], x, 1);
  }

  /** Each constraint's count is its free choices plus 128 when used: nothing wraps around. */
  ghost predicate Tidy(a: Aux, sr: seq<int>, sc: seq<nat>)
    requires Sized(a, sr, sc)
  {
    forall c :: 0 <= c < COLS ==> Excess(a, sr, sc, c) == 0 || Excess(a, sr, sc, c) == 128
  }

  lemma {:induction false} FreeRowCounts(rows: seq<nat>, sr: seq<int>, i: nat, k: nat)
    requires i < k <= |rows| && forall j :: 0 <= j < k ==> rows[j] < |sr|
    requires sr[rows[i]] <= 0
    ensures FreeUpTo(rows, sr, k) >= 1
  {
    if i < k - 1 { FreeRowCounts(rows, sr, i, k - 1); }
  }

  lemma TidyPositive(a: Aux, sr: seq<int>, sc: seq<nat>, x: nat)
    requires Sized(a, sr, sc) && Tidy(a, sr, sc) && Bytes(sc) && x < ROWS && sr[x] == 0
    ensures Positive(a, sc, x)
  {
    forall c | c in a.c[x]
      ensures sc[c] >= 1
    {
      assert x in a.r[c];
      var i :| 0 <= i < 9 && a.r[c][i] == x;
      FreeRowCounts(a.r[c], sr, i, 9);
      assert Excess(a, sr, sc, c) == 0 || Excess(a, sr, sc, c) == 128;
    }
  }

  lemma SameExcessTidy(a: Aux, sr: seq<int>, sc: seq<nat>, t: seq<int>, tc: seq<nat>)
    requires Sized(a, sr, sc) && Sized(a, t, tc) && SameExcess(a, sr, sc, t, tc) && Tidy(a, sr, sc)
    ensures Tidy(a, t, tc)
  {}

  lemma MovedBytes(a: Aux, sc: seq<nat>, tc: seq<nat>, x: nat, d: int)
    requires Moved(a, sc, tc, x, d) && Bytes(sc)
    ensures Bytes(tc)
  {}

  /** One step of moving forward: row `x` is forbidden once more. The row counts are held in signed bytes; `n` are the
      counts they stand for. */
  method Forbid(a: Aux, sr: array<int>, sc: array<nat>, x: nat, ghost n: seq<int>, ghost start: seq<nat>, min0: int, minc0: int)
    returns (min: int, minc: int)
    requires Sized(a, n, sc[..]) && x < ROWS && Bytes(sc[..]) && Held(sr[..], n) && n[x] < 199
    modifies sr, sc
    ensures Sized(a, n[x := n[x] + 1], sc[..]) && Bytes(sc[..])
    ensures Held(sr[..], n[x := n[x] + 1])
    ensures SameExcess(a, n, old(sc[..]), n[x := n[x] + 1], sc[..])
    ensures Tidy(a, n, old(sc[..])) && MinOf(start, old(sc[..]), min0, minc0) ==> MinOf(start, sc[..], min, minc)
  {
    hide Incidence, MinOf, Tidy, SameExcess, Positive, Moved, Int8;
    ghost var s0, c0 := sr[..], sc[..];
    min, minc := min0, minc0;
    var was := sr[x];
    HeldZero(n[x]);
    HeldStep(n[x], 1);
    sr[x] := Int8(was + 1);
    assert sr[..] == s0[x := Int8(n[x] + 1)];
    if was == 0 {
      if Tidy(a, n, c0) { TidyPositive(a, n, c0, x); }
      min, minc := TakeFrom(a, sc, x, start, min0, minc0);
      MovedBytes(a, c0, sc[..], x, -1);
    }
    UpKeepsExcess(a, n, c0, x, sc[..]);
  }

  /** One step of reverting: row `x` is forbidden once less. */
  method Allow(a: Aux, sr: array<int>, sc: array<nat>, x: nat, ghost n: seq<int>)
    requires Sized(a, n, sc[..]) && x < ROWS && Bytes(sc[..]) && Held(sr[..], n) && -199 < n[x]
    modifies sr, sc
    ensures Sized(a, n[x := n[x] - 1], sc[..]) && Bytes(sc[..])
    ensures Held(sr[..], n[x := n[x] - 1])
    ensures SameExcess(a, n, old(sc[..]), n[x := n[x] - 1], sc[..])
  {
    hide Incidence, SameExcess, Moved, Int8;
    ghost var s0, c0 := sr[..], sc[..];
    HeldZero(n[x] - 1);
    HeldStep(n[x], -1);
    var was := sr[x];
    sr[x] := Int8(was - 1);
    assert sr[..] == s0[x := Int8(n[x] - 1)];
    if sr[x] == 0 {
      GiveBack(a, sc, x);
      MovedBytes(a, c0, sc[..], x, 1);
    }
    DownKeepsExcess(a, n, c0, x, sc[..]);
  }

  // ---------- a whole constraint, then a whole choice ----------

  /** `sr` after counting `d` on the first `k` of `rows`. */
  function BumpUpTo(sr: seq<int>, rows: seq<nat>, k: nat, d: int): (t: seq<int>)
    requires k <= |rows| && forall j :: 0 <= j < k ==> rows[j] < |sr|
    ensures |t| == |sr|
  {
    if k == 0 then sr
    else
      var t := BumpUpTo(sr, rows, k - 1, d);
      t[rows[k - 1] := t[rows[k - 1]] + d]
  }

  lemma {:induction false} BumpAt(sr: seq<int>, rows: seq<nat>, k: nat, d: int, x: nat)
    requires k <= |rows| && x < |sr| && forall j :: 0 <= j < k ==> rows[j] < |sr|
    requires forall i, j :: 0 <= i < j < k ==> rows[i] != rows[j]
    ensures BumpUpTo(sr, rows, k, d)[x] == sr[x] + if x in rows[..k] then d else 0
  {
    if k > 0 {
      BumpAt(sr, rows, k - 1, d, x);
      assert rows[..k] == rows[..k - 1] + [rows[k - 1]];
    }
  }

  lemma SameExcessTrans(a: Aux, r0: seq<int>, c0: seq<nat>, r1: seq<int>, c1: seq<nat>, r2: seq<int>, c2: seq<nat>)
    requires Sized(a, r0, c0) && Sized(a, r1, c1) && Sized(a, r2, c2)
    requires SameExcess(a, r0, c0, r1, c1) && SameExcess(a, r1, c1, r2, c2)
    ensures SameExcess(a, r0, c0, r2, c2)
  {
    hide Excess, Incidence;
  }

  lemma SameExcessSelf(a: Aux, sr: seq<int>, sc: seq<nat>)
    requires Sized(a, sr, sc)
    ensures SameExcess(a, sr, sc, sr, sc)
  {}

  lemma ColumnShape(a: Aux, c: nat)
    requires Incidence(a) && c < COLS
    ensures c < |a.r| && |a.r[c]| == 9 && forall k :: 0 <= k < 9 ==> a.r[c][k] < ROWS
    ensures forall i, j :: 0 <= i < j < 9 ==> a.r[c][i] != a.r[c][j]
  {}

  ghost predicate Near(n: seq<int>, d: int) { forall y :: 0 <= y < |n| ==> -d <= n[y] <= d }

  lemma BumpNear(sr: seq<int>, rows: seq<nat>, k: nat, d: int, m: int)
    requires k <= |rows| && (forall j :: 0 <= j < k ==> rows[j] < |sr|) && (d == 1 || d == -1) && Near(sr, m)
    requires forall i, j :: 0 <= i < j < k ==> rows[i] != rows[j]
    ensures Near(BumpUpTo(sr, rows, k, d), m + 1)
  {
    forall y | 0 <= y < |sr|
      ensures -(m + 1) <= BumpUpTo(sr, rows, k, d)[y] <= m + 1
    {
      BumpAt(sr, rows, k, d, y);
    }
  }

  /** Moving forward over the choices of one constraint. */
  method ForbidColumn(a: Aux, sr: array<int>, sc: array<nat>, c: nat, ghost n: seq<int>, ghost start: seq<nat>, min0: int, minc0: int)
    returns (min: int, minc: int)
    requires Sized(a, n, sc[..]) && c < COLS && Bytes(sc[..]) && Held(sr[..], n) && Near(n, 190)
    modifies sr, sc
    ensures Sized(a, BumpUpTo(n, a.r[c], 9, 1), sc[..]) && Bytes(sc[..])
    ensures Held(sr[..], BumpUpTo(n, a.r[c], 9, 1))
    ensures SameExcess(a, n, old(sc[..]), BumpUpTo(n, a.r[c], 9, 1), sc[..])
    ensures Tidy(a, n, old(sc[..])) && MinOf(start, old(sc[..]), min0, minc0) ==> MinOf(start, sc[..], min, minc)
  {
    hide Incidence, MinOf, Tidy, SameExcess, Held, Near;
    ghost var c0 := sc[..];
    min, minc := min0, minc0;
    SameExcessSelf(a, n, c0);
    ColumnShape(a, c);
    var r2 := 0;
    while r2 < 9
      invariant 0 <= r2 <= 9 && Sized(a, BumpUpTo(n, a.r[c], r2, 1), sc[..]) && Bytes(sc[..])
      invariant Held(sr[..], BumpUpTo(n, a.r[c], r2, 1)) && SameExcess(a, n, c0, BumpUpTo(n, a.r[c], r2, 1), sc[..])
      invariant Tidy(a, n, c0) && MinOf(start, c0, min0, minc0) ==> MinOf(start, sc[..], min, minc)
    {
      ghost var m, c1 := BumpUpTo(n, a.r[c], r2, 1), sc[..];
      if Tidy(a, n, c0) { SameExcessTidy(a, n, c0, m, c1); }
      BumpNear(n, a.r[c], r2, 1, 190);
      NearAt(m, 191, a.r[c][r2]);
      HeldSize(sr[..], m);
      min, minc := Forbid(a, sr, sc, a.r[c][r2], m, start, min, minc);
      SameExcessTrans(a, n, c0, m, c1, BumpUpTo(n, a.r[c], r2 + 1, 1), sc[..]);
      r2 := r2 + 1;
    }
  }

  lemma NearAt(n: seq<int>, d: int, y: nat)
    requires Near(n, d) && y < |n|
    ensures -d <= n[y] <= d
  {}

  lemma HeldSize(sr: seq<int>, n: seq<int>)
    requires Held(sr, n)
    ensures |sr| == |n|
  {}

  /** Reverting over the choices of one constraint. */
  method AllowColumn(a: Aux, sr: array<int>, sc: array<nat>, c: nat, ghost n: seq<int>)
    requires Sized(a, n, sc[..]) && c < COLS && Bytes(sc[..]) && Held(sr[..], n) && Near(n, 190)
    modifies sr, sc
    ensures Sized(a, BumpUpTo(n, a.r[c], 9, -1), sc[..]) && Bytes(sc[..])
    ensures Held(sr[..], BumpUpTo(n, a.r[c], 9, -1))
    ensures SameExcess(a, n, old(sc[..]), BumpUpTo(n, a.r[c], 9, -1), sc[..])
  {
    hide Incidence, SameExcess, Held, Near;
    ghost var c0 := sc[..];
    SameExcessSelf(a, n, c0);
    ColumnShape(a, c);
    var r2 := 0;
    while r2 < 9
      invariant 0 <= r2 <= 9 && Sized(a, BumpUpTo(n, a.r[c], r2, -1), sc[..]) && Bytes(sc[..])
      invariant Held(sr[..], BumpUpTo(n, a.r[c], r2, -1)) && SameExcess(a, n, c0, BumpUpTo(n, a.r[c], r2, -1), sc[..])
    {
      ghost var m, c1 := BumpUpTo(n, a.r[c], r2, -1), sc[..];
      BumpNear(n, a.r[c], r2, -1, 190);
      NearAt(m, 191, a.r[c][r2]);
      HeldSize(sr[..], m);
      Allow(a, sr, sc, a.r[c][r2], m);
      SameExcessTrans(a, n, c0, m, c1, BumpUpTo(n, a.r[c], r2 + 1, -1), sc[..]);
      r2 := r2 + 1;
    }
  }

  /** `t` is `s` with `d` counted on every row for each of the first `k` constraints it shares with `x`. */
  ghost predicate SharedUpTo(a: Aux, s: seq<int>, t: seq<int>, x: nat, k: nat, d: int) {
    && Incidence(a) && x < ROWS && |s| == ROWS && |t| == ROWS && k <= 4
    && forall y :: 0 <= y < ROWS ==> t[y] == s[y] + d * ShareUpTo(a, x, y, k)
  }

  lemma SharedStep(a: Aux, s: seq<int>, t: seq<int>, x: nat, k: nat, d: int)
    requires k < 4 && SharedUpTo(a, s, t, x, k, d) && (d == 1 || d == -1)
    ensures a.c[x][k] < COLS && |a.r[a.c[x][k]]| == 9 && forall j :: 0 <= j < 9 ==> a.r[a.c[x][k]][j] < |t|
    ensures SharedUpTo(a, s, BumpUpTo(t, a.r[a.c[x][k]], 9, d), x, k + 1, d)
  {
    var c := a.c[x][k];
    RowShape(a, x);
    ColumnShape(a, c);
    forall y | 0 <= y < ROWS
      ensures BumpUpTo(t, a.r[c], 9, d)[y] == s[y] + d * ShareUpTo(a, x, y, k + 1)
    {
      Transposed(a, y, c);
      RowShape(a, y);
      hide Incidence, BumpUpTo;
      BumpAt(t, a.r[c], 9, d, y);
      assert a.r[c][..9] == a.r[c];
      ShareNext(a, x, y, k, d);
      hide ShareUpTo;
    }
  }

  lemma ShareNext(a: Aux, x: nat, y: nat, k: nat, d: int)
    requires x < |a.c| && y < |a.c| && k < |a.c[x]| && (d == 1 || d == -1)
    ensures d * ShareUpTo(a, x, y, k + 1) == d * ShareUpTo(a, x, y, k) + if a.c[x][k] in a.c[y] then d else 0
  {}

  lemma Transposed(a: Aux, y: nat, c: nat)
    requires Incidence(a) && y < ROWS && c < COLS
    ensures y < |a.c| && c < |a.r| && (y in a.r[c] <==> c in a.c[y])
  {}

  lemma SharedNone(a: Aux, s: seq<int>, x: nat, d: int)
    requires Incidence(a) && x < ROWS && |s| == ROWS
    ensures SharedUpTo(a, s, s, x, 0, d)
  {}

  /** The counts after marking (`d` is 128) or unmarking (-128) the constraints of `r`. */
  ghost function MarkOf(a: Aux, sc: seq<nat>, r: nat, d: int): (tc: seq<nat>)
    requires Incidence(a) && r < ROWS && |sc| == COLS && Bytes(sc)
    ensures |tc| == COLS && Bytes(tc) && Moved(a, sc, tc, r, d)
  {
    seq(COLS, c requires 0 <= c < COLS => if c in a.c[r] then Byte(sc[c] + d) else sc[c])
  }

  lemma MarkUnique(a: Aux, sc: seq<nat>, tc: seq<nat>, r: nat, d: int)
    requires Incidence(a) && r < ROWS && |sc| == COLS && Bytes(sc) && Moved(a, sc, tc, r, d)
    ensures tc == MarkOf(a, sc, r, d)
  {}

  /** What `sd_update` with `v` does to the counts: rows are counted once per constraint shared
      with `r`, the constraints of `r` are marked, and beyond that every count moves exactly with the
      number of free choices of its constraint. */
  ghost predicate Updated(a: Aux, s: seq<int>, c: seq<nat>, r: nat, v: int, s1: seq<int>, c1: seq<nat>)
    requires Sized(a, s, c) && Bytes(c) && r < ROWS
  {
    && Sized(a, s1, c1) && Bytes(c1)
    && SharedUpTo(a, s, s1, r, 4, v)
    && SameExcess(a, s, MarkOf(a, c, r, 128 * v), s1, c1)
  }

  /** The row counts of `s` after choosing `r`, not yet wrapped around. */
  ghost function Counted(a: Aux, s: seq<int>, r: nat): (n: seq<int>)
    requires Incidence(a) && |s| == ROWS && r < ROWS
    ensures |n| == ROWS && forall y :: 0 <= y < ROWS ==> n[y] == s[y] + Share(a, r, y)
  {
    seq(ROWS, y requires 0 <= y < ROWS => s[y] + Share(a, r, y))
  }

  /** The arrays before and after `sd_update` forward, in signed and unsigned bytes. */
  ghost predicate Forward(a: Aux, s: seq<int>, c: seq<nat>, r: nat, s1: seq<int>, c1: seq<nat>)
    requires Sized(a, s, c) && Bytes(c) && r < ROWS
  {
    var n := Counted(a, s, r);
    Held(s1, n) && Sized(a, n, c1) && Updated(a, s, c, r, 1, n, c1)
  }

  /** The arrays before and after `sd_update` in reverse. */
  ghost predicate Backward(a: Aux, s1: seq<int>, c1: seq<nat>, r: nat, s2: seq<int>, c2: seq<nat>)
    requires Sized(a, s1, c1) && Bytes(c1) && r < ROWS
  {
    && Sized(a, s2, c2) && Int8s(s2)
    && var n := Counted(a, s2, r);
       Held(s1, n) && Sized(a, n, c1) && Updated(a, n, c1, r, -1, s2, c2)
  }

  /** `sd_update` forward (`v` is 1): rows sharing a constraint with `r` are forbidden once more per
      shared constraint, counts lose the choices that were free, used constraints are marked. */
  method Choose(a: Aux, sr: array<int>, sc: array<nat>, r: nat) returns (min: int, minc: int)
    requires Sized(a, sr[..], sc[..]) && r < ROWS && Bytes(sc[..]) && Int8s(sr[..])
    modifies sr, sc
    ensures Forward(a, old(sr[..]), old(sc[..]), r, sr[..], sc[..])
    ensures Tidy(a, old(sr[..]), MarkOf(a, old(sc[..]), r, 128)) ==> MinOf(MarkOf(a, old(sc[..]), r, 128), sc[..], min, minc)
  {
    hide Incidence, MinOf, Tidy, Held, Near, Int8s, BumpUpTo, Int8, Counted, Share, Partway, Bytes;
    ghost var s0, n := sr[..], sr[..];
    HeldSelf(s0);
    Mark(a, sc, r, 128);
    ghost var start := sc[..];
    min, minc := 10, 0;
    MinStart(start);
    PartwayNone(a, s0, start, r, 1);
    RowShape(a, r);
    var c2 := 0;
    while c2 < 4
      invariant 0 <= c2 <= 4 && Partway(a, s0, start, n, sc[..], r, c2, 1) && Sized(a, s0, start) && Held(sr[..], n)
      invariant Tidy(a, s0, start) ==> MinOf(start, sc[..], min, minc)
    {
      ghost var c1 := sc[..];
      PartwayNear(a, s0, start, n, c1, r, c2, 1);
      ColumnShape(a, a.c[r][c2]);
      if Tidy(a, s0, start) { PartwayTidy(a, s0, start, n, c1, r, c2, 1); }
      min, minc := ForbidColumn(a, sr, sc, a.c[r][c2], n, start, min, minc);
      n := PartwayStep(a, s0, start, n, c1, sc[..], r, c2, 1);
      c2 := c2 + 1;
    }
    PartwayForward(a, s0, start, n, sc[..], r);
  }

  /** The first `k` constraints of `r` are dealt with: the counts stand at `n`, from `s`. */
  ghost predicate Partway(a: Aux, s: seq<int>, start: seq<nat>, n: seq<int>, c: seq<nat>, r: nat, k: nat, v: int) {
    && Sized(a, s, start) && Sized(a, n, c) && Bytes(c) && r < ROWS && k <= 4
    && SharedUpTo(a, s, n, r, k, v) && SameExcess(a, s, start, n, c)
  }

  lemma PartwayNone(a: Aux, s: seq<int>, start: seq<nat>, r: nat, v: int)
    requires Sized(a, s, start) && Bytes(start) && r < ROWS
    ensures Partway(a, s, start, s, start, r, 0, v)
  {
    hide Incidence, SameExcess, SharedUpTo;
    SameExcessSelf(a, s, start);
    SharedNone(a, s, r, v);
  }

  lemma PartwayNear(a: Aux, s: seq<int>, start: seq<nat>, n: seq<int>, c: seq<nat>, r: nat, k: nat, v: int)
    requires Partway(a, s, start, n, c, r, k, v) && Near(s, 132) && (v == 1 || v == -1)
    ensures Sized(a, n, c) && Bytes(c) && Near(n, 190)
  {
    hide Incidence, SameExcess, SharedUpTo, Near, Bytes;
    SharedNear(a, s, n, r, k, v, 132);
    NearMore(n, 136, 190);
  }

  lemma PartwayTidy(a: Aux, s: seq<int>, start: seq<nat>, n: seq<int>, c: seq<nat>, r: nat, k: nat, v: int)
    requires Partway(a, s, start, n, c, r, k, v) && Sized(a, s, start) && Tidy(a, s, start)
    ensures Sized(a, n, c) && Tidy(a, n, c)
  {
    hide Incidence, SameExcess, SharedUpTo, Tidy;
    SameExcessTidy(a, s, start, n, c);
  }

  lemma PartwayStep(a: Aux, s: seq<int>, start: seq<nat>, n: seq<int>, c: seq<nat>, c1: seq<nat>, r: nat, k: nat, v: int)
    returns (m: seq<int>)
    requires k < 4 && Partway(a, s, start, n, c, r, k, v) && (v == 1 || v == -1) && Bytes(c1)
    requires r < |a.c| && k < |a.c[r]| && a.c[r][k] < |a.r| && |a.r[a.c[r][k]]| == 9
    requires (forall j :: 0 <= j < 9 ==> a.r[a.c[r][k]][j] < |n|) && Sized(a, n, c)
    requires Sized(a, BumpUpTo(n, a.r[a.c[r][k]], 9, v), c1) && SameExcess(a, n, c, BumpUpTo(n, a.r[a.c[r][k]], 9, v), c1)
    ensures m == BumpUpTo(n, a.r[a.c[r][k]], 9, v) && Partway(a, s, start, m, c1, r, k + 1, v)
  {
    hide Incidence, SameExcess, SharedUpTo, BumpUpTo;
    m := BumpUpTo(n, a.r[a.c[r][k]], 9, v);
    SharedStep(a, s, n, r, k, v);
    SameExcessTrans(a, s, start, n, c, m, c1);
  }

  lemma PartwayForward(a: Aux, s: seq<int>, start: seq<nat>, n: seq<int>, c: seq<nat>, r: nat)
    requires Partway(a, s, start, n, c, r, 4, 1)
    ensures Sized(a, n, c) && Bytes(c) && n == Counted(a, s, r) && SharedUpTo(a, s, n, r, 4, 1) && SameExcess(a, s, start, n, c)
  {
    SharedCounted(a, s, n, r);
    hide Incidence, SameExcess, SharedUpTo;
  }

  lemma HeldSelf(s: seq<int>)
    requires Int8s(s)
    ensures Held(s, s) && Near(s, 132)
  {}

  lemma NearMore(n: seq<int>, d: int, e: int)
    requires Near(n, d) && d <= e
    ensures Near(n, e)
  {}

  lemma SharedNear(a: Aux, s: seq<int>, t: seq<int>, r: nat, k: nat, v: int, d: int)
    requires SharedUpTo(a, s, t, r, k, v) && (v == 1 || v == -1) && Near(s, d)
    ensures Near(t, d + 4)
  {
    hide Incidence, ShareUpTo;
    forall y | 0 <= y < ROWS
      ensures -(d + 4) <= t[y] <= d + 4
    {
      ShareAtMost(a, r, y, k);
    }
  }

  lemma ShareAtMost(a: Aux, r: nat, y: nat, k: nat)
    requires Incidence(a) && r < ROWS && y < ROWS && k <= 4
    ensures r < |a.c| && y < |a.c| && k <= |a.c[r]| && 0 <= ShareUpTo(a, r, y, k) <= 4
  {
    hide ShareUpTo;
  }

  lemma SharedCounted(a: Aux, s: seq<int>, n: seq<int>, r: nat)
    requires SharedUpTo(a, s, n, r, 4, 1)
    ensures n == Counted(a, s, r)
  {
    hide Incidence, ShareUpTo;
  }

  /** The counts that signed bytes stand for before `r` is reverted. */
  ghost function CountsBefore(a: Aux, s1: seq<int>, r: nat): (n: seq<int>)
    requires Incidence(a) && |s1| == ROWS && r < ROWS
    ensures |n| == ROWS && forall y :: 0 <= y < ROWS ==> n[y] == Int8(s1[y] - Share(a, r, y)) + Share(a, r, y)
  {
    seq(ROWS, y requires 0 <= y < ROWS => Int8(s1[y] - Share(a, r, y)) + Share(a, r, y))
  }

  lemma BeforeHeld(a: Aux, s1: seq<int>, r: nat)
    requires Incidence(a) && |s1| == ROWS && r < ROWS && Int8s(s1)
    ensures Held(s1, CountsBefore(a, s1, r)) && Near(CountsBefore(a, s1, r), 132)
  {
    hide Incidence, Share, Int8;
    forall y | 0 <= y < ROWS
      ensures s1[y] == Int8(CountsBefore(a, s1, r)[y])
    {
      BackAndForth(s1[y], Share(a, r, y));
    }
  }

  lemma BackAndForth(x: int, k: int)
    requires -128 <= x < 128
    ensures Int8(Int8(x - k) + k) == x
  {}

  /** `sd_update` in reverse (`v` is -1). */
  method Revert(a: Aux, sr: array<int>, sc: array<nat>, r: nat)
    requires Sized(a, sr[..], sc[..]) && r < ROWS && Bytes(sc[..]) && Int8s(sr[..])
    modifies sr, sc
    ensures Backward(a, old(sr[..]), old(sc[..]), r, sr[..], sc[..])
  {
    hide Incidence, Held, Near, Int8s, BumpUpTo, Int8, Counted, Share, CountsBefore, Partway, Bytes;
    ghost var s1 := sr[..];
    ghost var n0 := CountsBefore(a, s1, r);
    ghost var n := n0;
    BeforeHeld(a, s1, r);
    Mark(a, sc, r, -128);
    ghost var start := sc[..];
    PartwayNone(a, n0, start, r, -1);
    RowShape(a, r);
    var c2 := 0;
    while c2 < 4
      invariant 0 <= c2 <= 4 && Partway(a, n0, start, n, sc[..], r, c2, -1) && Held(sr[..], n)
    {
      ghost var c1 := sc[..];
      PartwayNear(a, n0, start, n, c1, r, c2, -1);
      ColumnShape(a, a.c[r][c2]);
      AllowColumn(a, sr, sc, a.c[r][c2], n);
      n := PartwayStep(a, n0, start, n, c1, sc[..], r, c2, -1);
      c2 := c2 + 1;
    }
    PartwayBackward(a, s1, n0, start, n, sc[..], r, sr[..]);
  }

  lemma PartwayBackward(a: Aux, s1: seq<int>, n0: seq<int>, start: seq<nat>, n: seq<int>, c: seq<nat>, r: nat, s2: seq<int>)
    requires Incidence(a) && r < ROWS && |s1| == ROWS && n0 == CountsBefore(a, s1, r)
    requires Partway(a, n0, start, n, c, r, 4, -1) && Held(s2, n)
    ensures Sized(a, s2, c) && Bytes(c) && s2 == n && Int8s(s2) && n0 == Counted(a, s2, r)
    ensures SharedUpTo(a, n0, s2, r, 4, -1) && Sized(a, n0, start) && SameExcess(a, n0, start, s2, c)
  {
    hide Incidence, SameExcess, SharedUpTo, Held;
    Reverted(a, s1, r, n, s2);
  }

  /** What is left is again within signed bytes, and is what the array holds. */
  lemma Reverted(a: Aux, s1: seq<int>, r: nat, n: seq<int>, s2: seq<int>)
    requires Incidence(a) && r < ROWS && |s1| == ROWS && SharedUpTo(a, CountsBefore(a, s1, r), n, r, 4, -1) && Held(s2, n)
    ensures s2 == n && Int8s(s2) && CountsBefore(a, s1, r) == Counted(a, s2, r)
  {
    hide Incidence, ShareUpTo, Int8;
    forall y | 0 <= y < ROWS
      ensures n[y] == Int8(s1[y] - Share(a, r, y)) && s2[y] == n[y]
    {
      InRange(s1[y] - Share(a, r, y));
    }
  }

  lemma InRange(x: int)
    ensures Int8(Int8(x)) == Int8(x)
  {}

  /** Adding `v << 7` to the constraints of `r`, modulo 256. */
  method Mark(a: Aux, sc: array<nat>, r: nat, d: int)
    requires Incidence(a) && r < ROWS && sc.Length == COLS && Bytes(sc[..])
    modifies sc
    ensures sc[..] == MarkOf(a, old(sc[..]), r, d)
  {
    hide Incidence, MovedUpTo, InPrefix;
    var c2 := 0;
    ghost var s0 := sc[..];
    MovedNone(a, s0, r, d);
    RowShape(a, r);
    while c2 < 4
      invariant 0 <= c2 <= 4 && MovedUpTo(a, s0, sc[..], r, c2, d)
    {
      MovedStep(a, s0, sc[..], r, c2, d);
      ghost var s1 := sc[..];
      var was: int := sc[a.c[r][c2]];
      sc[a.c[r][c2]] := Byte(was + d);
      assert sc[..] == s1[a.c[r][c2] := Byte(was + d)];
      c2 := c2 + 1;
    }
    MovedAll(a, s0, sc[..], r, d);
    MarkUnique(a, s0, sc[..], r, d);
  }

  lemma MinStart(start: seq<nat>)
    requires |start| == COLS
    ensures MinOf(start, start, 10, 0)
  {}

  lemma UndoRows(a: Aux, s: seq<int>, r: nat, s1: seq<int>, s2: seq<int>)
    requires SharedUpTo(a, s, s1, r, 4, 1) && SharedUpTo(a, s1, s2, r, 4, -1)
    ensures s2 == s
  {
    hide Incidence, ShareUpTo;
  }

  lemma UndoCount(a: Aux, s: seq<int>, c: seq<nat>, r: nat, s1: seq<int>, c1: seq<nat>, c2: seq<nat>, k: nat)
    requires Sized(a, s, c) && Bytes(c) && r < ROWS && Sized(a, s1, c1) && Bytes(c1) && |c2| == COLS && Bytes(c2)
    requires SameExcess(a, s, MarkOf(a, c, r, 128), s1, c1) && SameExcess(a, s1, MarkOf(a, c1, r, -128), s, c2)
    requires k < COLS
    ensures c2[k] == c[k]
  {
    hide Incidence, Free, MarkOf, SameExcess, Byte, Bytes;
    var m, m1 := MarkOf(a, c, r, 128), MarkOf(a, c1, r, -128);
    ExcessAt(a, s, m, s1, c1, k);
    ExcessAt(a, s1, m1, s, c2, k);
    MarkAt(a, c, r, 128, k);
    MarkAt(a, c1, r, -128, k);
    ByteAt(c, k);
    ByteAt(c2, k);
    var d := if k in a.c[r] then 128 else 0;
    CountRestored(c[k], c1[k], c2[k], Free(a, s, k), Free(a, s1, k), d);
  }

  lemma ExcessAt(a: Aux, s: seq<int>, c: seq<nat>, s1: seq<int>, c1: seq<nat>, k: nat)
    requires Sized(a, s, c) && Sized(a, s1, c1) && SameExcess(a, s, c, s1, c1) && k < COLS
    ensures Byte(c1[k] - Free(a, s1, k)) == Byte(c[k] - Free(a, s, k))
  {
    assert Excess(a, s1, c1, k) == Excess(a, s, c, k);
    hide Incidence, Free, Byte;
  }

  lemma MarkAt(a: Aux, c: seq<nat>, r: nat, d: int, k: nat)
    requires Incidence(a) && r < ROWS && |c| == COLS && Bytes(c) && k < COLS
    ensures r < |a.c| && MarkOf(a, c, r, d)[k] == Byte(c[k] + if k in a.c[r] then d else 0)
  {
    hide Incidence, MarkOf, Bytes, Moved;
    RowShape(a, r);
    ByteAt(c, k);
    MovedAt(a, c, MarkOf(a, c, r, d), r, d, k);
  }

  lemma MovedAt(a: Aux, sc: seq<nat>, tc: seq<nat>, x: nat, d: int, k: nat)
    requires Moved(a, sc, tc, x, d) && k < COLS && x < |a.c|
    ensures tc[k] == if k in a.c[x] then Byte(sc[k] + d) else sc[k]
  {
    hide Incidence, Byte;
  }

  lemma ByteAt(c: seq<nat>, k: nat)
    requires Bytes(c) && k < |c|
    ensures c[k] < 256
  {}

  lemma CountRestored(c: int, c1: int, c2: int, f: int, f1: int, d: int)
    requires 0 <= c < 256 && 0 <= c2 < 256
    requires Byte(c1 - f1) == Byte(Byte(c + d) - f) && Byte(c2 - f) == Byte(Byte(c1 - d) - f1)
    ensures c2 == c
  {}

  /** Counting up and down again, on unbounded numbers. */
  lemma UndoCounts(a: Aux, s: seq<int>, c: seq<nat>, r: nat, s1: seq<int>, c1: seq<nat>, s2: seq<int>, c2: seq<nat>)
    requires Sized(a, s, c) && Bytes(c) && r < ROWS
    requires Updated(a, s, c, r, 1, s1, c1) && Updated(a, s1, c1, r, -1, s2, c2)
    ensures s2 == s && c2 == c
  {
    hide Incidence, SharedUpTo, SameExcess, MarkOf, Bytes;
    UndoRows(a, s, r, s1, s2);
    forall k | 0 <= k < COLS
      ensures c2[k] == c[k]
    {
      UndoCount(a, s, c, r, s1, c1, c2, k);
    }
  }

  /** Undoing a choice restores both arrays exactly, from any state, whatever wraps around in them. */
  lemma UndoRestores(a: Aux, s: seq<int>, c: seq<nat>, r: nat, s1: seq<int>, c1: seq<nat>, s2: seq<int>, c2: seq<nat>)
    requires Sized(a, s, c) && Bytes(c) && Int8s(s) && r < ROWS && Forward(a, s, c, r, s1, c1)
    requires Sized(a, s1, c1) && Bytes(c1) && Backward(a, s1, c1, r, s2, c2)
    ensures s2 == s && c2 == c
  {
    hide Incidence, Updated, Bytes, Share, Int8;
    forall y | 0 <= y < ROWS
      ensures s2[y] == s[y]
    {
      SameByte(s[y], s2[y], Share(a, r, y));
    }
    assert s2 == s;
    UndoCounts(a, s, c, r, Counted(a, s, r), c1, s2, c2);
  }

  lemma SameByte(x: int, y: int, k: int)
    requires -128 <= x < 128 && -128 <= y < 128 && Int8(x + k) == Int8(y + k)
    ensures x == y
  {}

  /** While counts stay within signed bytes nothing wraps around. */
  lemma ForwardExact(a: Aux, s: seq<int>, c: seq<nat>, r: nat, s1: seq<int>, c1: seq<nat>)
    requires Sized(a, s, c) && Bytes(c) && r < ROWS && Forward(a, s, c, r, s1, c1) && Int8s(Counted(a, s, r))
    ensures Updated(a, s, c, r, 1, s1, c1)
  {
    hide Incidence, Updated, Bytes, Share, Int8;
    var n := Counted(a, s, r);
    forall y | 0 <= y < ROWS
      ensures s1[y] == n[y]
    {
      ByteIs(n[y]);
    }
    assert s1 == n;
  }

  lemma ByteIs(x: int)
    requires -128 <= x < 128
    ensures Int8(x) == x
  {}

  lemma BackwardExact(a: Aux, s1: seq<int>, c1: seq<nat>, r: nat, s2: seq<int>, c2: seq<nat>, t: seq<int>)
    requires Sized(a, s1, c1) && Bytes(c1) && r < ROWS && Backward(a, s1, c1, r, s2, c2)
    requires |t| == ROWS && Int8s(t) && s1 == Counted(a, t, r)
    ensures Updated(a, s1, c1, r, -1, s2, c2)
  {
    hide Incidence, Updated, Bytes, Share, Int8;
    forall y | 0 <= y < ROWS
      ensures s2[y] == t[y]
    {
      HeldByte(s1[y], s2[y], t[y], Share(a, r, y));
    }
    assert s2 == t;
  }

  lemma HeldByte(x: int, y: int, z: int, k: int)
    requires x == Int8(y + k) && x == z + k && -128 <= y < 128 && -128 <= z < 128
    ensures y == z
  {}
}
