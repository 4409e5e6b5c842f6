/** Exact covers, and which of them a backtracking search has passed. */
module SudokuSearch {
  import opened SudokuBoard
  import opened SudokuUpdate

  ghost predicate RowsOk(S: seq<nat>) { forall i :: 0 <= i < |S| ==> S[i] < ROWS }

  /** How many rows of `S` involve constraint `c`. */
  ghost function Cover(a: Aux, S: seq<nat>, c: nat): nat
    requires Incidence(a) && RowsOk(S)
  {
    if S == [] then 0 else Cover(a, S[..|S| - 1], c) + if c in a.c[S[|S| - 1]] then 1 else 0
  }

  /** How many constraints row `y` shares with the rows of `S`, with multiplicity. */
  ghost function Weight(a: Aux, S: seq<nat>, y: nat): nat
    requires Incidence(a) && RowsOk(S) && y < ROWS
  {
    if S == [] then 0 else Weight(a, S[..|S| - 1], y) + Share(a, S[|S| - 1], y)
  }

  /** The arrays as they are after choosing the rows of `S`. */
  ghost predicate Consistent(a: Aux, S: seq<nat>, sr: seq<int>, sc: seq<nat>) {
    && Sized(a, sr, sc) && Bytes(sc) && RowsOk(S)
    && (forall y :: 0 <= y < ROWS ==> sr[y] == Weight(a, S, y))
    && forall c :: 0 <= c < COLS ==> Excess(a, sr, sc, c) == Byte(128 * Cover(a, S, c))
  }

  /** No constraint is used twice. */
  ghost predicate Disjoint(a: Aux, S: seq<nat>)
    requires Incidence(a) && RowsOk(S)
  {
    forall c :: 0 <= c < COLS ==> Cover(a, S, c) <= 1
  }

  lemma AppendRow(a: Aux, S: seq<nat>, r: nat)
    requires Incidence(a) && RowsOk(S) && r < ROWS
    ensures RowsOk(S + [r])
    ensures forall c :: Cover(a, S + [r], c) == Cover(a, S, c) + if c in a.c[r] then 1 else 0
    ensures forall y :: 0 <= y < ROWS ==> Weight(a, S + [r], y) == Weight(a, S, y) + Share(a, r, y)
  {
    assert (S + [r])[..|S|] == S;
    hide Share;
  }

  lemma ExcessIs(a: Aux, sr: seq<int>, sc: seq<nat>, c: nat)
    requires Sized(a, sr, sc) && c < COLS
    ensures Excess(a, sr, sc, c) == Byte(sc[c] - Free(a, sr, c))
  {
    hide Incidence, Free, Byte;
  }

  lemma MarkExcess(a: Aux, sr: seq<int>, sc: seq<nat>, r: nat, d: int, c: nat)
    requires Sized(a, sr, sc) && Bytes(sc) && r < ROWS && c < COLS
    ensures r < |a.c|
    ensures Excess(a, sr, MarkOf(a, sc, r, d), c) == Byte(Excess(a, sr, sc, c) + if c in a.c[r] then d else 0)
  {
    hide Incidence, MarkOf, Bytes, Free, Excess, Byte;
    MarkAt(a, sc, r, d, c);
    ExcessIs(a, sr, sc, c);
    ExcessIs(a, sr, MarkOf(a, sc, r, d), c);
    ByteSum(sc[c], Free(a, sr, c), if c in a.c[r] then d else 0);
  }

  lemma ByteSum(x: int, f: int, d: int)
    ensures Byte(Byte(x + d) - f) == Byte(Byte(x - f) + d)
  {}

  lemma CoverStep(n: nat, u: nat)
    requires u == 0 || u == 1
    ensures Byte(Byte(128 * n) + 128 * u) == Byte(128 * (n + u))
    ensures Byte(Byte(128 * (n + u)) - 128 * u) == Byte(128 * n)
  {
    EvenOdd(n);
    EvenOdd(n + u);
  }

  lemma EvenOdd(n: nat)
    ensures Byte(128 * n) == 128 * (n % 2)
  {
    assert 128 * n == 256 * (n / 2) + 128 * (n % 2);
  }

  lemma UpdatedExcess(a: Aux, s: seq<int>, c: seq<nat>, r: nat, v: int, s1: seq<int>, c1: seq<nat>, k: nat)
    requires Sized(a, s, c) && Bytes(c) && r < ROWS && Updated(a, s, c, r, v, s1, c1) && k < COLS
    ensures r < |a.c| && Excess(a, s1, c1, k) == Byte(Excess(a, s, c, k) + if k in a.c[r] then 128 * v else 0)
  {
    assert Excess(a, s1, c1, k) == Excess(a, s, MarkOf(a, c, r, 128 * v), k) by { hide Incidence, Excess, Free, MarkOf, Bytes; }
    hide *;
    MarkExcess(a, s, c, r, 128 * v, k);
  }

  lemma ConsistentExcess(a: Aux, S: seq<nat>, sr: seq<int>, sc: seq<nat>, c: nat)
    requires Consistent(a, S, sr, sc) && c < COLS
    ensures Sized(a, sr, sc) && RowsOk(S) && Excess(a, sr, sc, c) == Byte(128 * Cover(a, S, c))
  {
    hide Incidence, Excess, Cover, Weight, Bytes, Byte, RowsOk;
  }

  lemma ChooseExcess(a: Aux, S: seq<nat>, r: nat, sr: seq<int>, sc: seq<nat>, s1: seq<int>, c1: seq<nat>, c: nat)
    requires Consistent(a, S, sr, sc) && r < ROWS && Sized(a, sr, sc) && Bytes(sc) && Updated(a, sr, sc, r, 1, s1, c1)
    requires c < COLS && RowsOk(S) && RowsOk(S + [r])
    ensures Sized(a, s1, c1) && Excess(a, s1, c1, c) == Byte(128 * Cover(a, S + [r], c))
  {
    hide Consistent, Excess, Cover, Byte, Incidence, SharedUpTo, SameExcess, Bytes, RowsOk, MarkOf, Weight;
    ConsistentExcess(a, S, sr, sc, c);
    UpdatedExcess(a, sr, sc, r, 1, s1, c1, c);
    AppendRow(a, S, r);
    CoverStep(Cover(a, S, c), if c in a.c[r] then 1 else 0);
  }

  lemma ChooseConsistent(a: Aux, S: seq<nat>, r: nat, sr: seq<int>, sc: seq<nat>, s1: seq<int>, c1: seq<nat>)
    requires Consistent(a, S, sr, sc) && r < ROWS && Updated(a, sr, sc, r, 1, s1, c1)
    ensures Consistent(a, S + [r], s1, c1)
  {
    AppendRow(a, S, r);
    hide Incidence, Excess, Cover, Weight, Byte;
    forall y | 0 <= y < ROWS
      ensures s1[y] == Weight(a, S + [r], y)
    {}
    forall c | 0 <= c < COLS
      ensures Excess(a, s1, c1, c) == Byte(128 * Cover(a, S + [r], c))
    {
      ChooseExcess(a, S, r, sr, sc, s1, c1, c);
    }
  }

  lemma RevertConsistent(a: Aux, S: seq<nat>, r: nat, sr: seq<int>, sc: seq<nat>, s1: seq<int>, c1: seq<nat>)
    requires RowsOk(S) && r < ROWS && Consistent(a, S + [r], sr, sc) && Updated(a, sr, sc, r, -1, s1, c1)
    ensures Consistent(a, S, s1, c1)
  {
    AppendRow(a, S, r);
    hide Incidence, Excess, Cover, Weight, Byte;
    forall y | 0 <= y < ROWS
      ensures s1[y] == Weight(a, S, y)
    {}
    forall c | 0 <= c < COLS
      ensures Excess(a, s1, c1, c) == Byte(128 * Cover(a, S, c))
    {
      RevertExcess(a, S, r, sr, sc, s1, c1, c);
    }
  }

  lemma RevertExcess(a: Aux, S: seq<nat>, r: nat, sr: seq<int>, sc: seq<nat>, s1: seq<int>, c1: seq<nat>, c: nat)
    requires RowsOk(S) && RowsOk(S + [r]) && r < ROWS && Consistent(a, S + [r], sr, sc) && Sized(a, sr, sc) && Bytes(sc)
    requires Updated(a, sr, sc, r, -1, s1, c1) && c < COLS
    ensures Sized(a, s1, c1) && Excess(a, s1, c1, c) == Byte(128 * Cover(a, S, c))
  {
    hide Consistent, Excess, Cover, Byte, Incidence, SharedUpTo, SameExcess, Bytes, RowsOk, MarkOf, Weight;
    ConsistentExcess(a, S + [r], sr, sc, c);
    UpdatedExcess(a, sr, sc, r, -1, s1, c1, c);
    AppendRow(a, S, r);
    CoverStep(Cover(a, S, c), if c in a.c[r] then 1 else 0);
  }

  lemma StartConsistent(a: Aux, sr: seq<int>, sc: seq<nat>)
    requires Sized(a, sr, sc)
    requires (forall y :: 0 <= y < ROWS ==> sr[y] == 0) && forall c :: 0 <= c < COLS ==> sc[c] == 9
    ensures Consistent(a, [], sr, sc)
  {
    forall c | 0 <= c < COLS
      ensures Free(a, sr, c) == 9
    {
      AllFree(a.r[c], sr, 9);
    }
  }

  lemma {:induction false} AllFree(rows: seq<nat>, sr: seq<int>, k: nat)
    requires k <= |rows| && forall j :: 0 <= j < k ==> rows[j] < |sr| && sr[rows[j]] <= 0
    ensures FreeUpTo(rows, sr, k) == k
  {
    if k > 0 { AllFree(rows, sr, k - 1); }
  }

  // ---------- free rows, unused constraints ----------

  lemma {:induction false} ShareZero(a: Aux, x: nat, y: nat, k: nat)
    requires x < |a.c| && y < |a.c| && k <= |a.c[x]|
    ensures ShareUpTo(a, x, y, k) == 0 <==> forall j :: 0 <= j < k ==> a.c[x][j] !in a.c[y]
  {
    if k > 0 { ShareZero(a, x, y, k - 1); }
  }

  /** A row is not forbidden exactly when all its constraints are unused. */
  lemma {:induction false} FreeRow(a: Aux, S: seq<nat>, y: nat)
    requires Incidence(a) && RowsOk(S) && y < ROWS
    ensures Weight(a, S, y) == 0 <==> forall c :: c in a.c[y] ==> Cover(a, S, c) == 0
    decreases |S|
  {
    if S != [] {
      var T, x := S[..|S| - 1], S[|S| - 1];
      FreeRow(a, T, y);
      ShareZero(a, x, y, 4);
      assert forall j :: 0 <= j < 4 ==> a.c[x][j] in a.c[x];
      if Share(a, x, y) == 0 {
        assert forall c :: c in a.c[y] ==> c !in a.c[x];
      } else {
        var j :| 0 <= j < 4 && a.c[x][j] in a.c[y];
        assert Cover(a, S, a.c[x][j]) > 0;
      }
    }
  }

  lemma DisjointAppend(a: Aux, S: seq<nat>, r: nat)
    requires Incidence(a) && RowsOk(S) && Disjoint(a, S) && r < ROWS && Weight(a, S, r) == 0
    ensures RowsOk(S + [r]) && Disjoint(a, S + [r])
  {
    AppendRow(a, S, r);
    FreeRow(a, S, r);
  }

  /** The count is the number of free choices, plus 128 when used an odd number of times: once, when nothing is used
      twice. */
  lemma CountMeaning(a: Aux, S: seq<nat>, sr: seq<int>, sc: seq<nat>, c: nat)
    requires Consistent(a, S, sr, sc) && c < COLS
    ensures sc[c] == Free(a, sr, c) + 128 * (Cover(a, S, c) % 2)
    ensures Disjoint(a, S) ==> sc[c] == Free(a, sr, c) + 128 * Cover(a, S, c)
  {
    hide Incidence, Free, Cover, Byte, Excess, Weight, Bytes;
    ConsistentExcess(a, S, sr, sc, c);
    ExcessIs(a, sr, sc, c);
    ConsistentBytes(a, S, sr, sc);
    ByteAt(sc, c);
    EvenOdd(Cover(a, S, c));
    CountIs(sc[c], Free(a, sr, c), Cover(a, S, c) % 2);
  }

  lemma ConsistentBytes(a: Aux, S: seq<nat>, sr: seq<int>, sc: seq<nat>)
    requires Consistent(a, S, sr, sc)
    ensures Bytes(sc)
  {
    hide Incidence, Free, Cover, Byte, Excess, Weight, Bytes;
  }

  lemma CountIs(x: nat, f: nat, odd: nat)
    requires x < 256 && f <= 9 && odd < 2 && Byte(x - f) == 128 * odd
    ensures x == f + 128 * odd
  {}
}
