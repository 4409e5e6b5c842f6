/** The exact cover matrix of a Sudoku and the counts kept while choices are made and undone. */
module SudokuBoard {
  const ROWS := 729   // choices: a number in a cell
  const COLS := 324   // constraints

  /** The sparse matrix: the 9 choices of each constraint and the 4 constraints of each choice. */
  datatype Aux = Aux(r: seq<seq<nat>>, c: seq<seq<nat>>)

  ghost predicate Incidence(a: Aux) {
    && |a.r| == COLS && |a.c| == ROWS
    && (forall c :: 0 <= c < COLS ==> |a.r[c]| == 9)
    && (forall r :: 0 <= r < ROWS ==> |a.c[r]| == 4 && a.c[r][0] == r / 9)
    && (forall c, k :: 0 <= c < COLS && 0 <= k < 9 ==> a.r[c][k] < ROWS)
    && (forall r, k :: 0 <= r < ROWS && 0 <= k < 4 ==> a.c[r][k] < COLS)
    && (forall c, j, k :: 0 <= c < COLS && 0 <= j < k < 9 ==> a.r[c][j] != a.r[c][k])
    && (forall r, j, k :: 0 <= r < ROWS && 0 <= j < k < 4 ==> a.c[r][j] != a.c[r][k])
    && (forall r, c :: 0 <= r < ROWS && 0 <= c < COLS ==> (c in a.c[r] <==> r in a.r[c]))
  }

  function Byte(x: int): (b: nat)
    ensures b < 256
  {
    x % 256
  }

  /** A signed byte. */
  function Int8(x: int): (b: int)
    ensures -128 <= b < 128
  {
    (x + 128) % 256 - 128
  }

  ghost predicate Int8s(sr: seq<int>) { forall y :: 0 <= y < |sr| ==> -128 <= sr[y] < 128 }

  /** Signed bytes that hold the numbers `n` modulo 256, all of them near enough that only 0 is held as 0. */
  ghost predicate Held(sr: seq<int>, n: seq<int>) {
    |sr| == |n| && forall y :: 0 <= y < |n| ==> sr[y] == Int8(n[y]) && -200 < n[y] < 200
  }

  lemma HeldZero(x: int)
    requires -256 < x < 256
    ensures Int8(x) == 0 <==> x == 0
  {}

  lemma HeldStep(x: int, d: int)
    ensures Int8(Int8(x) + d) == Int8(x + d)
  {}

  /** How many of the first `k` listed choices are not forbidden. */
  function FreeUpTo(rows: seq<nat>, sr: seq<int>, k: nat): (n: nat)
    requires k <= |rows| && forall j :: 0 <= j < k ==> rows[j] < |sr|
    ensures n <= k
  {
    if k == 0 then 0 else FreeUpTo(rows, sr, k - 1) + if sr[rows[k - 1]] <= 0 then 1 else 0
  }

  ghost predicate Sized(a: Aux, sr: seq<int>, sc: seq<nat>) {
    Incidence(a) && |sr| == ROWS && |sc| == COLS
  }

  /** The plain number of choices of constraint `c` that are not forbidden. */
  ghost function Free(a: Aux, sr: seq<int>, c: nat): (n: nat)
    requires Incidence(a) && |sr| == ROWS && c < COLS
    ensures n <= 9
  {
    FreeUpTo(a.r[c], sr, 9)
  }

  /** What a constraint's count holds beyond the number of its free choices. */
  ghost function Excess(a: Aux, sr: seq<int>, sc: seq<nat>, c: nat): (n: nat)
    requires Sized(a, sr, sc) && c < COLS
    ensures n < 256
  {
    Byte(sc[c] - Free(a, sr, c))
  }

  /** How many of the first `k` constraints of `x` also constrain `y`. */
  function ShareUpTo(a: Aux, x: nat, y: nat, k: nat): (n: nat)
    requires x < |a.c| && y < |a.c| && k <= |a.c[x]|
    ensures n <= k
  {
    if k == 0 then 0 else ShareUpTo(a, x, y, k - 1) + if a.c[x][k - 1] in a.c[y] then 1 else 0
  }

  ghost function Share(a: Aux, x: nat, y: nat): (n: nat)
    requires Incidence(a) && x < ROWS && y < ROWS
    ensures n <= 4
  {
    ShareUpTo(a, x, y, 4)
  }

  // ---------- one row counted up or down ----------

  lemma {:induction false} FreeSame(rows: seq<nat>, sr: seq<int>, t: seq<int>, k: nat)
    requires k <= |rows| && |sr| == |t| && forall j :: 0 <= j < k ==> rows[j] < |sr|
    requires forall j :: 0 <= j < k ==> (sr[rows[j]] <= 0 <==> t[rows[j]] <= 0)
    ensures FreeUpTo(rows, t, k) == FreeUpTo(rows, sr, k)
  {
    if k > 0 { FreeSame(rows, sr, t, k - 1); }
  }

  lemma {:induction false} FreeOneChanged(rows: seq<nat>, sr: seq<int>, t: seq<int>, i: nat, k: nat)
    requires i < k <= |rows| && |sr| == |t| && forall j :: 0 <= j < k ==> rows[j] < |sr|
    requires forall j :: 0 <= j < k && j != i ==> (sr[rows[j]] <= 0 <==> t[rows[j]] <= 0)
    requires sr[rows[i]] <= 0 && t[rows[i]] > 0
    ensures FreeUpTo(rows, sr, k) == FreeUpTo(rows, t, k) + 1
  {
    if i == k - 1 { FreeSame(rows, sr, t, k - 1); } else { FreeOneChanged(rows, sr, t, i, k - 1); }
  }

  /** Counting a row up takes one free choice from each of its constraints if the row was free. */
  lemma CountUp(a: Aux, sr: seq<int>, x: nat, c: nat)
    requires Incidence(a) && |sr| == ROWS && x < ROWS && c < COLS
    ensures var t := sr[x := sr[x] + 1];
            Free(a, sr, c) == Free(a, t, c) + if sr[x] == 0 && c in a.c[x] then 1 else 0
  {
    var t := sr[x := sr[x] + 1];
    if sr[x] == 0 && x in a.r[c] {
      var i :| 0 <= i < 9 && a.r[c][i] == x;
      FreeOneChanged(a.r[c], sr, t, i, 9);
    } else {
      FreeSame(a.r[c], sr, t, 9);
    }
  }

  /** The constraint counts after a row changed by one: those of its constraints moved by `d`. */
  ghost predicate Moved(a: Aux, sc: seq<nat>, tc: seq<nat>, x: nat, d: int) {
    && Incidence(a) && x < ROWS && |sc| == COLS && |tc| == COLS
    && forall c :: 0 <= c < COLS ==> tc[c] == if c in a.c[x] then Byte(sc[c] + d) else sc[c]
  }

  ghost predicate SameExcess(a: Aux, sr: seq<int>, sc: seq<nat>, t: seq<int>, tc: seq<nat>)
    requires Sized(a, sr, sc) && Sized(a, t, tc)
  {
    forall c :: 0 <= c < COLS ==> Excess(a, t, tc, c) == Excess(a, sr, sc, c)
  }

  lemma UpKeepsExcess(a: Aux, sr: seq<int>, sc: seq<nat>, x: nat, tc: seq<nat>)
    requires Sized(a, sr, sc) && x < ROWS && |tc| == COLS
    requires if sr[x] == 0 then Moved(a, sc, tc, x, -1) else tc == sc
    ensures SameExcess(a, sr, sc, sr[x := sr[x] + 1], tc)
  {
    var t := sr[x := sr[x] + 1];
    forall c | 0 <= c < COLS
      ensures Excess(a, t, tc, c) == Excess(a, sr, sc, c)
    {
      CountUp(a, sr, x, c);
      hide Free, Incidence;
    }
  }

  lemma DownKeepsExcess(a: Aux, sr: seq<int>, sc: seq<nat>, x: nat, tc: seq<nat>)
    requires Sized(a, sr, sc) && x < ROWS && |tc| == COLS
    requires if sr[x] == 1 then Moved(a, sc, tc, x, 1) else tc == sc
    ensures SameExcess(a, sr, sc, sr[x := sr[x] - 1], tc)
  {
    var t := sr[x := sr[x] - 1];
    assert t[x := t[x] + 1] == sr;
    forall c | 0 <= c < COLS
      ensures Excess(a, t, tc, c) == Excess(a, sr, sc, c)
    {
      CountUp(a, t, x, c);
      hide Free, Incidence;
    }
  }
}
