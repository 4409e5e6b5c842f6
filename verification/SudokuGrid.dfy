/** The incidence matrix of the Sudoku rules, and what the solver prints in terms of the grid. */
module SudokuGrid {
  import opened SudokuBoard
  import opened SudokuUpdate
  import opened SudokuSearch
  import opened SudokuPaths
  import opened SudokuSolver

  // ---------- the rules of the game ----------

  /** The 27 units of a grid: 9 boxes, 9 rows, 9 columns; the `t`-th cell of unit `u`. */
  function UnitCell(u: nat, t: nat): (m: nat)
    requires u < 27 && t < 9
    ensures m < 81
  {
    if u < 9 then (u / 3 * 3 + t / 3) * 9 + (u % 3 * 3 + t % 3)
    else if u < 18 then 9 * (u - 9) + t
    else 9 * t + (u - 18)
  }

  /** A filled grid: digits everywhere, and no digit twice in a unit. */
  ghost predicate Valid(line: string) {
    && |line| == 81 && (forall m :: 0 <= m < 81 ==> IsDigit(line[m]))
    && forall u, t, v :: 0 <= u < 27 && 0 <= t < 9 && 0 <= v < 9 && t != v ==> line[UnitCell(u, t)] != line[UnitCell(u, v)]
  }

  /** The given digits of `s` are kept. */
  ghost predicate Keeps(s: string, line: string) {
    |s| >= 81 && |line| == 81 && forall m :: 0 <= m < 81 && IsDigit(s[m]) ==> line[m] == s[m]
  }

  // ---------- the matrix ----------

  /** The four constraints of choice `r`: its cell, and its digit in its box, row and column. */
  function ConstraintsOf(r: nat): (s: seq<nat>)
    requires r < ROWS
    ensures |s| == 4 && forall q :: 0 <= q < 4 ==> s[q] < COLS
  {
    var i, j, k := r / 81, r / 9 % 9, r % 9;
    [9 * i + j, (i / 3 * 3 + j / 3) * 9 + k + 81, 9 * i + k + 162, 9 * j + k + 243]
  }

  /** The choices below `r` that constraint `c` involves, in order. */
  function ChoicesBelow(c: nat, r: nat): (s: seq<nat>)
    requires r <= ROWS
    ensures forall j :: 0 <= j < |s| ==> s[j] < r
  {
    if r == 0 then [] else ChoicesBelow(c, r - 1) + if c in ConstraintsOf(r - 1) then [r - 1] else []
  }

  /** The `t`-th choice of constraint `c`. */
  function ChoiceOf(c: nat, t: nat): (r: nat)
    requires c < COLS && t < 9
    ensures r < ROWS
  {
    if c < 81 then 9 * c + t else 9 * UnitCell((c - 81) / 9, t) + (c - 81) % 9
  }

  /** The place of cell `m` in unit `u`. */
  function PlaceIn(u: nat, m: nat): (t: nat)
    requires u < 27 && m < 81
    ensures t < 9
  {
    if u < 9 then m / 9 % 3 * 3 + m % 9 % 3 else if u < 18 then m % 9 else m / 9
  }

  /** The unit of kind `q` (0 box, 1 row, 2 column) that cell `m` lies in. */
  function UnitOf(q: nat, m: nat): (u: nat)
    requires q < 3 && m < 81
    ensures u < 27 && u / 9 == q
  {
    if q == 0 then m / 9 / 3 * 3 + m % 9 / 3 else if q == 1 then 9 + m / 9 else 18 + m % 9
  }

  lemma BoxCell(x: nat, y: nat, p: nat, q: nat)
    requires x < 3 && y < 3 && p < 3 && q < 3
    ensures var m := (x * 3 + p) * 9 + (y * 3 + q); m / 9 == x * 3 + p && m % 9 == y * 3 + q
    ensures (x * 3 + p) / 3 == x && (x * 3 + p) % 3 == p && (y * 3 + q) / 3 == y && (y * 3 + q) % 3 == q
  {}

  lemma CellOfUnit(u: nat, t: nat)
    requires u < 27 && t < 9
    ensures UnitOf(u / 9, UnitCell(u, t)) == u && PlaceIn(u, UnitCell(u, t)) == t
  {
    if u < 9 {
      CellOfBox(u, t);
    }
  }

  lemma CellOfBox(u: nat, t: nat)
    requires u < 9 && t < 9
    ensures UnitOf(0, UnitCell(u, t)) == u && PlaceIn(u, UnitCell(u, t)) == t
  {
    BoxCell(u / 3, u % 3, t / 3, t % 3);
    assert UnitCell(u, t) == (u / 3 * 3 + t / 3) * 9 + (u % 3 * 3 + t % 3);
    hide UnitCell;
  }

  lemma UnitOfCell(q: nat, m: nat)
    requires q < 3 && m < 81
    ensures UnitCell(UnitOf(q, m), PlaceIn(UnitOf(q, m), m)) == m
  {
    if q == 0 { BoxOfCell(m / 9 / 3, m / 9 % 3, m % 9 / 3, m % 9 % 3, m); }
  }

  lemma BoxOfCell(x: nat, p: nat, y: nat, q: nat, m: nat)
    requires x < 3 && p < 3 && y < 3 && q < 3 && m == 9 * (3 * x + p) + (3 * y + q)
    requires m < 81 && m / 9 == 3 * x + p && m % 9 == 3 * y + q && m / 9 / 3 == x && m / 9 % 3 == p && m % 9 / 3 == y && m % 9 % 3 == q
    ensures UnitCell(UnitOf(0, m), PlaceIn(UnitOf(0, m), m)) == m
  {
    var u, t := UnitOf(0, m), PlaceIn(UnitOf(0, m), m);
    assert u == 3 * x + y && t == 3 * p + q;
    hide UnitOf, PlaceIn;
    assert u / 3 == x && u % 3 == y && t / 3 == p && t % 3 == q;
  }

  lemma ConstraintIs(r: nat, q: nat)
    requires r < ROWS && q < 3
    ensures ConstraintsOf(r)[0] == r / 9 && ConstraintsOf(r)[q + 1] == 81 + 9 * UnitOf(q, r / 9) + r % 9
  {
    assert r / 9 / 9 == r / 81;
  }

  lemma UnitsDistinct(r: nat, j: nat, k: nat)
    requires r < ROWS && j < k < 4
    ensures ConstraintsOf(r)[j] < ConstraintsOf(r)[k]
  {}

  /** The choices of a constraint are those it involves. */
  lemma InvolvedIff(c: nat, r: nat)
    requires c < COLS && r < ROWS
    ensures c in ConstraintsOf(r) <==> exists t :: 0 <= t < 9 && ChoiceOf(c, t) == r
  {
    hide ConstraintsOf, UnitOf, UnitCell, PlaceIn;
    var s := ConstraintsOf(r);
    if c in s {
      var q :| 0 <= q < 4 && s[q] == c;
      ConstraintIs(r, if q == 0 then 0 else q - 1);
      if q == 0 {
        assert ChoiceOf(c, r % 9) == r;
      } else {
        var u := UnitOf(q - 1, r / 9);
        assert (c - 81) / 9 == u && (c - 81) % 9 == r % 9;
        UnitOfCell(q - 1, r / 9);
        assert ChoiceOf(c, PlaceIn(u, r / 9)) == r;
      }
    }
    if t :| 0 <= t < 9 && ChoiceOf(c, t) == r {
      if c < 81 {
        ConstraintIs(r, 0);
      } else {
        var u := (c - 81) / 9;
        CellOfUnit(u, t);
        ConstraintIs(r, u / 9);
        assert r / 9 == UnitCell(u, t) && r % 9 == (c - 81) % 9;
        assert s[u / 9 + 1] == c;
      }
    }
  }

  lemma CellsAscend(u: nat, t: nat, v: nat)
    requires u < 27 && t < v < 9
    ensures UnitCell(u, t) < UnitCell(u, v)
  {
    assert t / 3 < v / 3 || (t / 3 == v / 3 && t % 3 < v % 3);
  }

  lemma ChoicesAscend(c: nat, t: nat, v: nat)
    requires c < COLS && t < v < 9
    ensures ChoiceOf(c, t) < ChoiceOf(c, v)
  {
    if c >= 81 {
      hide UnitCell;
      CellsAscend((c - 81) / 9, t, v);
    }
  }

  /** The choices below `r` are a prefix of the nine choices. */
  lemma {:induction false} BelowIsPrefix(c: nat, r: nat, n: nat)
    requires c < COLS && r <= ROWS && n <= 9
    requires forall t :: 0 <= t < 9 ==> (ChoiceOf(c, t) < r <==> t < n)
    ensures |ChoicesBelow(c, r)| == n && forall t :: 0 <= t < n ==> ChoicesBelow(c, r)[t] == ChoiceOf(c, t)
  {
    hide ConstraintsOf, ChoiceOf;
    if r == 0 {
      assert ChoiceOf(c, 0) >= 0;
    } else {
      InvolvedIff(c, r - 1);
      forall t, v | 0 <= t < v < 9
        ensures ChoiceOf(c, t) < ChoiceOf(c, v)
      {
        ChoicesAscend(c, t, v);
      }
      if n > 0 && ChoiceOf(c, n - 1) == r - 1 {
        BelowIsPrefix(c, r - 1, n - 1);
      } else {
        BelowIsPrefix(c, r - 1, n);
      }
    }
  }

  lemma ChoicesAre(c: nat)
    requires c < COLS
    ensures |ChoicesBelow(c, ROWS)| == 9 && forall t :: 0 <= t < 9 ==> ChoicesBelow(c, ROWS)[t] == ChoiceOf(c, t)
  {
    hide ChoiceOf, ChoicesBelow;
    BelowIsPrefix(c, ROWS, 9);
  }

  /** The matrix of the rules. */
  ghost function Matrix(): (a: Aux)
    ensures |a.r| == COLS && |a.c| == ROWS
    ensures forall c :: 0 <= c < COLS ==> a.r[c] == ChoicesBelow(c, ROWS)
    ensures forall r :: 0 <= r < ROWS ==> a.c[r] == ConstraintsOf(r)
  {
    hide ConstraintsOf, ChoicesBelow;
    Aux(seq(COLS, c requires 0 <= c < COLS => ChoicesBelow(c, ROWS)), seq(ROWS, r requires 0 <= r < ROWS => ConstraintsOf(r)))
  }

  lemma ColumnsOk(c: nat)
    requires c < COLS
    ensures var s := ChoicesBelow(c, ROWS);
            |s| == 9 && (forall k :: 0 <= k < 9 ==> s[k] < ROWS) && forall j, k :: 0 <= j < k < 9 ==> s[j] != s[k]
  {
    hide ChoiceOf, ChoicesBelow;
    ChoicesAre(c);
    forall j, k | 0 <= j < k < 9
      ensures ChoicesBelow(c, ROWS)[j] != ChoicesBelow(c, ROWS)[k]
    {
      ChoicesAscend(c, j, k);
    }
  }

  lemma RowsOkay(r: nat)
    requires r < ROWS
    ensures var s := ConstraintsOf(r);
            |s| == 4 && s[0] == r / 9 && (forall k :: 0 <= k < 4 ==> s[k] < COLS) && forall j, k :: 0 <= j < k < 4 ==> s[j] != s[k]
  {
    ConstraintIs(r, 0);
    hide ConstraintsOf;
    forall j, k | 0 <= j < k < 4
      ensures ConstraintsOf(r)[j] != ConstraintsOf(r)[k]
    {
      UnitsDistinct(r, j, k);
    }
  }

  lemma TransposedAt(r: nat, c: nat)
    requires r < ROWS && c < COLS
    ensures c in ConstraintsOf(r) <==> r in ChoicesBelow(c, ROWS)
  {
    hide ChoiceOf, ChoicesBelow, ConstraintsOf;
    ChoicesAre(c);
    InvolvedIff(c, r);
    var s := ChoicesBelow(c, ROWS);
    assert forall t :: 0 <= t < 9 ==> s[t] in s;
  }

  /** The matrix of the rules is an incidence matrix: nine choices to a constraint, four constraints to a choice. */
  lemma MatrixIncidence()
    ensures Incidence(Matrix())
  {
    hide ChoicesBelow, ConstraintsOf, Matrix;
    forall c | 0 <= c < COLS
      ensures var s := ChoicesBelow(c, ROWS);
              |s| == 9 && (forall k :: 0 <= k < 9 ==> s[k] < ROWS) && forall j, k :: 0 <= j < k < 9 ==> s[j] != s[k]
    {
      ColumnsOk(c);
    }
    forall r | 0 <= r < ROWS
      ensures var s := ConstraintsOf(r);
              |s| == 4 && s[0] == r / 9 && (forall k :: 0 <= k < 4 ==> s[k] < COLS) && forall j, k :: 0 <= j < k < 4 ==> s[j] != s[k]
    {
      RowsOkay(r);
    }
    forall r, c | 0 <= r < ROWS && 0 <= c < COLS
      ensures c in ConstraintsOf(r) <==> r in ChoicesBelow(c, ROWS)
    {
      TransposedAt(r, c);
    }
  }

  // ---------- generating it ----------

  method GenRows() returns (c: seq<seq<nat>>)
    ensures |c| == ROWS && forall r :: 0 <= r < ROWS ==> c[r] == ConstraintsOf(r)
  {
    c := [];
    var i := 0;
    while i < 9
      invariant 0 <= i <= 9 && |c| == 81 * i && forall r :: 0 <= r < |c| ==> c[r] == ConstraintsOf(r)
    {
      var j := 0;
      while j < 9
        invariant 0 <= j <= 9 && |c| == 81 * i + 9 * j && forall r :: 0 <= r < |c| ==> c[r] == ConstraintsOf(r)
      {
        var k := 0;
        while k < 9
          invariant 0 <= k <= 9 && |c| == 81 * i + 9 * j + k && forall r :: 0 <= r < |c| ==> c[r] == ConstraintsOf(r)
        {
          GenRow(i, j, k);
          c := c + [[9 * i + j, (i / 3 * 3 + j / 3) * 9 + k + 81, 9 * i + k + 162, 9 * j + k + 243]];
          k := k + 1;
        }
        j := j + 1;
      }
      i := i + 1;
    }
  }

  lemma GenRow(i: nat, j: nat, k: nat)
    requires i < 9 && j < 9 && k < 9
    ensures ConstraintsOf(81 * i + 9 * j + k) == [9 * i + j, (i / 3 * 3 + j / 3) * 9 + k + 81, 9 * i + k + 162, 9 * j + k + 243]
  {
    var r := 81 * i + 9 * j + k;
    CellAndDigit(9 * i + j, k);
    assert r / 81 == i;
    assert (9 * i + j) % 9 == j;
  }

  lemma CellAndDigit(m: nat, k: nat)
    requires k < 9
    ensures (9 * m + k) / 9 == m && (9 * m + k) % 9 == k
  {}

  /** `r[][]` from `c[][]`. */
  method Transpose(c: seq<seq<nat>>) returns (r: seq<seq<nat>>)
    requires |c| == ROWS && forall x :: 0 <= x < ROWS ==> c[x] == ConstraintsOf(x)
    ensures |r| == COLS && forall k :: 0 <= k < COLS ==> r[k] == ChoicesBelow(k, ROWS)
  {
    hide ConstraintsOf, ChoicesBelow;
    var rr := new seq<nat>[COLS](_ => []);
    NoChoices();
    var x := 0;
    while x < ROWS
      invariant 0 <= x <= ROWS && forall k :: 0 <= k < COLS ==> rr[k] == ChoicesBelow(k, x)
    {
      RowsOkay(x);
      var c2 := 0;
      while c2 < 4
        invariant 0 <= c2 <= 4
        invariant forall k :: 0 <= k < COLS ==> rr[k] == ChoicesBelow(k, x) + if k in c[x][..c2] then [x] else []
      {
        var k := c[x][c2];
        PrefixGrows(c[x], c2);
        rr[k] := rr[k] + [x];
        c2 := c2 + 1;
      }
      assert c[x][..4] == c[x];
      MoreChoices(x);
      x := x + 1;
    }
    r := rr[..];
  }

  lemma NoChoices()
    ensures forall k :: ChoicesBelow(k, 0) == []
  {}

  lemma MoreChoices(x: nat)
    requires x < ROWS
    ensures forall k :: ChoicesBelow(k, x + 1) == ChoicesBelow(k, x) + if k in ConstraintsOf(x) then [x] else []
  {
    hide ConstraintsOf;
  }

  lemma PrefixGrows(s: seq<nat>, n: nat)
    requires n < |s| == 4 && forall i, j :: 0 <= i < j < 4 ==> s[i] != s[j]
    ensures s[n] !in s[..n] && forall k :: k in s[..n + 1] <==> k in s[..n] || k == s[n]
  {
    assert s[..n + 1] == s[..n] + [s[n]];
  }

  /** `sd_genmat`. */
  method GenMat() returns (a: Aux)
    ensures a == Matrix() && Incidence(a)
  {
    hide ConstraintsOf, ChoicesBelow, Incidence;
    var c := GenRows();
    var r := Transpose(c);
    a := Aux(r, c);
    MatrixUnique(a);
    MatrixIncidence();
  }

  lemma MatrixUnique(a: Aux)
    requires |a.r| == COLS && |a.c| == ROWS
    requires forall c :: 0 <= c < COLS ==> a.r[c] == ChoicesBelow(c, ROWS)
    requires forall r :: 0 <= r < ROWS ==> a.c[r] == ConstraintsOf(r)
    ensures a == Matrix()
  {
    hide ConstraintsOf, ChoicesBelow, Matrix;
    assert a.r == Matrix().r;
    assert a.c == Matrix().c;
  }

  // ---------- solutions of the matrix are filled grids ----------

  /** The digit, from 0, in a cell. */
  function DigitAt(line: string, m: nat): (d: nat)
    requires |line| == 81 && m < 81 && IsDigit(line[m])
    ensures d < 9
  {
    line[m] as int - 49
  }

  /** The choices that a filled grid makes. */
  ghost function ChoicesOf(line: string): (X: set<nat>)
    requires |line| == 81
    ensures forall r :: r in X <==> 0 <= r < ROWS && line[r / 9] == Ch(r)
  {
    set r: nat | r < ROWS && line[r / 9] == Ch(r)
  }

  lemma ChIs(m: nat, ch: char, d: nat)
    requires m < 81 && d < 9
    ensures 9 * m + d < ROWS && (9 * m + d) / 9 == m && (9 * m + d) % 9 == d
    ensures IsDigit(ch) ==> (Ch(9 * m + d) == ch <==> ch as int - 49 == d)
  {
    assert (9 * m + d) / 9 == m && (9 * m + d) % 9 == d;
  }

  lemma ChEqual(r: nat, q: nat)
    requires Ch(r) == Ch(q) && r / 9 == q / 9
    ensures r == q
  {}

  /** Two choices share a cell constraint exactly when they are in that cell, and a digit constraint exactly when
      both put that digit in that unit. */
  lemma UnitConstraint(r: nat, c: nat)
    requires r < ROWS && c < COLS
    ensures c < 81 ==> (c in ConstraintsOf(r) <==> r / 9 == c)
    ensures c >= 81 ==> (c in ConstraintsOf(r) <==>
                         (c - 81) / 9 == UnitOf((c - 81) / 81, r / 9) && (c - 81) % 9 == r % 9)
  {
    var s := ConstraintsOf(r);
    ConstraintIs(r, 0);
    ConstraintIs(r, 1);
    ConstraintIs(r, 2);
    hide ConstraintsOf, UnitOf;
    assert s == [s[0], s[1], s[2], s[3]];
    if c >= 81 {
      var u := (c - 81) / 9;
      assert u / 9 == (c - 81) / 81;
      assert forall q: nat :: q < 3 ==> s[q + 1] == 81 + 9 * UnitOf(q, r / 9) + r % 9;
      DigitConstraint(c, UnitOf(0, r / 9), r % 9);
      DigitConstraint(c, UnitOf(1, r / 9), r % 9);
      DigitConstraint(c, UnitOf(2, r / 9), r % 9);
    }
  }

  lemma DigitConstraint(c: nat, u: nat, d: nat)
    requires 81 <= c < COLS && u < 27 && d < 9
    ensures c == 81 + 9 * u + d <==> (c - 81) / 9 == u && (c - 81) % 9 == d
    ensures c == 81 + 9 * u + d ==> (c - 81) / 81 == u / 9
  {}

  lemma MeetsCell(s: string, X: set<nat>, line: string, m: nat)
    requires |s| >= 81 && Incidence(Matrix()) && Solves(Matrix(), Hints(s, 81), X) && Shows(X, line) && m < 81
    ensures exists r :: r in X && r / 9 == m && r < ROWS && line[m] == Ch(r)
  {
    hide Incidence, Hints, ConstraintsOf, UnitOf, Matrix;
    assert Meets(Matrix(), X, m);
    var r :| r in X && m in Matrix().c[r];
    UnitConstraint(r, m);
  }

  /** The grid of a solution determines it. */
  lemma SolutionIsChoices(s: string, X: set<nat>, line: string)
    requires |s| >= 81 && Incidence(Matrix()) && Solves(Matrix(), Hints(s, 81), X) && Shows(X, line)
    ensures X == ChoicesOf(line)
  {
    hide Incidence, Hints, Matrix, Ch, Solves;
    forall r | r in ChoicesOf(line)
      ensures r in X
    {
      MeetsCell(s, X, line, r / 9);
      var q :| q in X && q / 9 == r / 9 && line[r / 9] == Ch(q);
      ChEqual(r, q);
    }
  }

  lemma SharedUnique(s: string, X: set<nat>, r: nat, q: nat, c: nat)
    requires |s| >= 81 && Incidence(Matrix()) && Solves(Matrix(), Hints(s, 81), X) && r in X && q in X && r < ROWS && q < ROWS
    requires c < COLS && c in ConstraintsOf(r) && c in ConstraintsOf(q)
    ensures r == q
  {
    hide Incidence, Hints, Matrix, ConstraintsOf;
  }

  lemma SolutionUnits(s: string, X: set<nat>, line: string, u: nat, t: nat, v: nat)
    requires |s| >= 81 && Incidence(Matrix()) && Solves(Matrix(), Hints(s, 81), X) && Shows(X, line)
    requires u < 27 && t < 9 && v < 9 && t != v
    ensures line[UnitCell(u, t)] != line[UnitCell(u, v)]
  {
    hide Incidence, Hints, Matrix, Solves, ConstraintsOf, UnitOf, UnitCell, PlaceIn, Ch;
    var m, w := UnitCell(u, t), UnitCell(u, v);
    MeetsCell(s, X, line, m);
    MeetsCell(s, X, line, w);
    var r :| r in X && r / 9 == m && r < ROWS && line[m] == Ch(r);
    var q :| q in X && q / 9 == w && q < ROWS && line[w] == Ch(q);
    CellOfUnit(u, t);
    CellOfUnit(u, v);
    if line[m] == line[w] {
      SameDigit(r, q);
      var c := 81 + 9 * u + r % 9;
      DigitConstraint(c, u, r % 9);
      UnitConstraint(r, c);
      UnitConstraint(q, c);
      SharedUnique(s, X, r, q, c);
    }
  }

  lemma SameDigit(r: nat, q: nat)
    requires Ch(r) == Ch(q)
    ensures r % 9 == q % 9
  {}

  lemma {:induction false} HintListed(s: string, k: nat, m: nat)
    requires m < k <= 81 <= |s| && IsDigit(s[m])
    ensures 9 * m + (s[m] as int - 49) in Hints(s, k)
  {
    if m < k - 1 { HintListed(s, k - 1, m); }
  }

  lemma SolutionKeeps(s: string, X: set<nat>, line: string)
    requires |s| >= 81 && Incidence(Matrix()) && Solves(Matrix(), Hints(s, 81), X) && Shows(X, line)
    ensures Keeps(s, line)
  {
    hide Incidence, Hints, Matrix, Ch, Solves;
    SolvesHints(Matrix(), Hints(s, 81), X);
    forall m | 0 <= m < 81 && IsDigit(s[m])
      ensures line[m] == s[m]
    {
      HintListed(s, 81, m);
      ChIs(m, s[m], s[m] as int - 49);
    }
  }

  /** Every solution, written out, is a filled grid that keeps the given digits; and it is that grid's choices. */
  lemma SolutionIsGrid(s: string, X: set<nat>, line: string)
    requires |s| >= 81 && Incidence(Matrix()) && Solves(Matrix(), Hints(s, 81), X) && Shows(X, line)
    ensures Valid(line) && Keeps(s, line) && X == ChoicesOf(line)
  {
    hide Incidence, Hints, Matrix, Solves, Ch, UnitCell, Keeps;
    SolutionIsChoices(s, X, line);
    SolutionKeeps(s, X, line);
    forall m | 0 <= m < 81
      ensures IsDigit(line[m])
    {
      MeetsCell(s, X, line, m);
    }
    forall u, t, v | 0 <= u < 27 && 0 <= t < 9 && 0 <= v < 9 && t != v
      ensures line[UnitCell(u, t)] != line[UnitCell(u, v)]
    {
      SolutionUnits(s, X, line, u, t, v);
    }
  }

  // ---------- filled grids are solutions of the matrix ----------

  ghost function Digits(line: string, u: nat, n: nat): (D: set<nat>)
    requires Valid(line) && u < 27 && n <= 9
    ensures forall d :: d in D <==> exists t: nat :: t < n && DigitAt(line, UnitCell(u, t)) == d
  {
    if n == 0 then {} else Digits(line, u, n - 1) + {DigitAt(line, UnitCell(u, n - 1))}
  }

  lemma NewDigit(line: string, u: nat, n: nat)
    requires Valid(line) && u < 27 && n < 9
    ensures DigitAt(line, UnitCell(u, n)) !in Digits(line, u, n)
  {
    hide Digits, UnitCell;
    forall t: nat | t < n
      ensures DigitAt(line, UnitCell(u, t)) != DigitAt(line, UnitCell(u, n))
    {
      assert line[UnitCell(u, t)] != line[UnitCell(u, n)];
    }
  }

  lemma DigitsStep(line: string, u: nat, n: nat) returns (d: nat)
    requires Valid(line) && u < 27 && n < 9
    ensures d !in Digits(line, u, n) && Digits(line, u, n + 1) == Digits(line, u, n) + {d}
  {
    hide UnitCell, DigitAt;
    d := DigitAt(line, UnitCell(u, n));
    NewDigit(line, u, n);
  }

  lemma OneMore(s: set<nat>, d: nat)
    requires d !in s
    ensures |s + {d}| == |s| + 1
  {}

  lemma {:induction false} DigitsCount(line: string, u: nat, n: nat)
    requires Valid(line) && u < 27 && n <= 9
    ensures |Digits(line, u, n)| == n
  {
    if n > 0 {
      hide Valid, Digits;
      DigitsCount(line, u, n - 1);
      var d := DigitsStep(line, u, n - 1);
      OneMore(Digits(line, u, n - 1), d);
    }
  }

  /** Nine different digits fill a unit: every digit occurs. */
  lemma EveryDigit(line: string, u: nat, d: nat)
    requires Valid(line) && u < 27 && d < 9
    ensures exists t: nat :: t < 9 && DigitAt(line, UnitCell(u, t)) == d
  {
    hide Digits, UnitCell, UpTo, DigitAt;
    DigitsCount(line, u, 9);
    assert Digits(line, u, 9) <= UpTo(9);
    SubsetFull(Digits(line, u, 9), UpTo(9));
    assert d in Digits(line, u, 9);
  }

  lemma GridMeets(line: string, c: nat)
    requires Valid(line) && c < COLS
    ensures exists r :: r in ChoicesOf(line) && r < ROWS && c in ConstraintsOf(r)
  {
    hide ConstraintsOf, UnitOf, UnitCell, PlaceIn, Ch;
    if c < 81 {
      var d := DigitAt(line, c);
      ChIs(c, line[c], d);
      UnitConstraint(9 * c + d, c);
    } else {
      var u, d := (c - 81) / 9, (c - 81) % 9;
      EveryDigit(line, u, d);
      var t: nat :| t < 9 && DigitAt(line, UnitCell(u, t)) == d;
      var m := UnitCell(u, t);
      ChIs(m, line[m], d);
      CellOfUnit(u, t);
      DigitConstraint(c, u, d);
      UnitConstraint(9 * m + d, c);
    }
  }

  lemma GridUnique(line: string, r: nat, q: nat, c: nat)
    requires Valid(line) && r in ChoicesOf(line) && q in ChoicesOf(line) && r < ROWS && q < ROWS && c < COLS
    requires c in ConstraintsOf(r) && c in ConstraintsOf(q)
    ensures r == q
  {
    hide ConstraintsOf, UnitOf, UnitCell, PlaceIn, Ch;
    UnitConstraint(r, c);
    UnitConstraint(q, c);
    if c < 81 {
      ChEqual(r, q);
    } else {
      var k, u := (c - 81) / 81, (c - 81) / 9;
      UnitOfCell(k, r / 9);
      UnitOfCell(k, q / 9);
      ChSame(r, q);
      if PlaceIn(u, r / 9) == PlaceIn(u, q / 9) { ChEqual(r, q); }
    }
  }

  lemma ChSame(r: nat, q: nat)
    requires r % 9 == q % 9
    ensures Ch(r) == Ch(q)
  {}

  /** The choices of a filled grid that keeps the given digits are a solution, and the grid is its text. */
  lemma GridIsSolution(s: string, line: string)
    requires Incidence(Matrix()) && Valid(line) && Keeps(s, line)
    ensures Solves(Matrix(), Hints(s, 81), ChoicesOf(line)) && Shows(ChoicesOf(line), line)
  {
    hide Incidence, Hints, Matrix, ConstraintsOf, Ch, Valid;
    var X := ChoicesOf(line);
    forall h | h in Hints(s, 81)
      ensures h in X
    {
      HintsShown(s, 81);
      HintKept(s, line, h);
    }
    forall c | 0 <= c < COLS
      ensures Meets(Matrix(), X, c)
    {
      GridMeets(line, c);
    }
    forall r, q, c | r in X && q in X && c in Matrix().c[r] && c in Matrix().c[q]
      ensures r == q
    {
      RowsOkay(r);
      GridUnique(line, r, q, c);
    }
  }

  lemma {:induction false} HintFrom(s: string, k: nat, h: nat)
    requires k <= 81 <= |s| && h in Hints(s, k)
    ensures h < ROWS && h / 9 < k && IsDigit(s[h / 9]) && Ch(h) == s[h / 9]
  {
    if IsDigit(s[k - 1]) && h == (k - 1) * 9 + (s[k - 1] as int - 49) {
      HintCell(k - 1, s[k - 1]);
    } else {
      HintFrom(s, k - 1, h);
    }
  }

  lemma HintKept(s: string, line: string, h: nat)
    requires Keeps(s, line) && h in Hints(s, 81)
    ensures h in ChoicesOf(line)
  {
    hide Hints, Ch;
    HintFrom(s, 81, h);
  }

  // ---------- hints that clash ----------

  /** Two given digits are equal in one unit. */
  ghost predicate ClashAt(s: string, u: nat, t: nat, v: nat)
    requires |s| >= 81 && u < 27 && t < 9 && v < 9
  {
    t != v && IsDigit(s[UnitCell(u, t)]) && s[UnitCell(u, t)] == s[UnitCell(u, v)]
  }

  ghost predicate Clash(s: string)
    requires |s| >= 81
  {
    exists u: nat, t: nat, v: nat :: u < 27 && t < 9 && v < 9 && ClashAt(s, u, t, v)
  }

  lemma TwoUsers(a: Aux, S: seq<nat>, c: nat, r: nat, q: nat)
    requires Incidence(a) && RowsOk(S) && Distinct(S) && r in S && q in S && r != q && c in a.c[r] && c in a.c[q]
    ensures Cover(a, S, c) > 1
  {
    hide Incidence, Cover;
    CoverIsSize(a, S, c);
    assert {r, q} <= UsersOf(a, S, c);
    Within({r, q}, UsersOf(a, S, c));
  }

  lemma TwoOf(a: Aux, S: seq<nat>, c: nat) returns (r: nat, q: nat)
    requires Incidence(a) && RowsOk(S) && Distinct(S) && Cover(a, S, c) > 1
    ensures r in S && q in S && r != q && c in a.c[r] && c in a.c[q]
  {
    hide Incidence, Cover;
    CoverIsSize(a, S, c);
    var u := UsersOf(a, S, c);
    assert u != {};
    r :| r in u;
    assert u - {r} != {} by { assert u == (u - {r}) + {r}; }
    q :| q in u - {r};
  }

  lemma ClashConflicts(s: string, u: nat, t: nat, v: nat)
    requires |s| >= 81 && u < 27 && t < 9 && v < 9 && ClashAt(s, u, t, v)
    ensures Incidence(Matrix()) && RowsOk(Hints(s, 81)) && !Disjoint(Matrix(), Hints(s, 81))
  {
    hide Incidence, Hints, Matrix, ConstraintsOf, UnitOf, UnitCell, PlaceIn, Ch, Distinct, Cover;
    MatrixIncidence();
    HintsOk(s, 81);
    HintsDistinct(s, 81);
    var m, w := UnitCell(u, t), UnitCell(u, v);
    CellOfUnit(u, t);
    CellOfUnit(u, v);
    var d := s[m] as int - 49;
    HintListed(s, 81, m);
    HintListed(s, 81, w);
    var r, q, c := 9 * m + d, 9 * w + d, 81 + 9 * u + d;
    ChIs(m, s[m], d);
    ChIs(w, s[w], d);
    DigitConstraint(c, u, d);
    UnitConstraint(r, c);
    UnitConstraint(q, c);
    TwoUsers(Matrix(), Hints(s, 81), c, r, q);
  }

  /** The given digits conflict in the matrix exactly when two equal ones are in one unit. */
  lemma ClashIff(s: string)
    requires |s| >= 81
    ensures Incidence(Matrix()) && RowsOk(Hints(s, 81)) && (Disjoint(Matrix(), Hints(s, 81)) <==> !Clash(s))
  {
    hide Incidence, Hints, Matrix, Distinct, Cover, ClashAt;
    MatrixIncidence();
    HintsOk(s, 81);
    if Clash(s) {
      var u: nat, t: nat, v: nat :| u < 27 && t < 9 && v < 9 && ClashAt(s, u, t, v);
      ClashConflicts(s, u, t, v);
    }
    if !Disjoint(Matrix(), Hints(s, 81)) {
      var c :| 0 <= c < COLS && Cover(Matrix(), Hints(s, 81), c) > 1;
      HintsDistinct(s, 81);
      var r, q := TwoOf(Matrix(), Hints(s, 81), c);
      ConflictClashes(s, c, r, q);
    }
  }

  lemma ConflictClashes(s: string, c: nat, r: nat, q: nat)
    requires |s| >= 81 && c < COLS && r in Hints(s, 81) && q in Hints(s, 81) && r != q && r < ROWS && q < ROWS
    requires c in ConstraintsOf(r) && c in ConstraintsOf(q)
    ensures Clash(s)
  {
    hide Hints, ConstraintsOf, UnitOf, UnitCell, PlaceIn, Ch;
    HintFrom(s, 81, r);
    HintFrom(s, 81, q);
    UnitConstraint(r, c);
    UnitConstraint(q, c);
    if r / 9 == q / 9 { ChEqual(r, q); }
    var k, u := (c - 81) / 81, (c - 81) / 9;
    UnitOfCell(k, r / 9);
    UnitOfCell(k, q / 9);
    ChSame(r, q);
    assert ClashAt(s, u, PlaceIn(u, r / 9), PlaceIn(u, q / 9));
  }

  // ---------- what a printed line shows on the grid ----------

  /** Digits everywhere, the given ones kept, and equal digits in a unit only where both were given. */
  ghost predicate Filled(s: string, line: string) {
    && Keeps(s, line) && (forall m :: 0 <= m < 81 ==> IsDigit(line[m]))
    && forall u: nat, t: nat, v: nat :: u < 27 && t < 9 && v < 9 && ClashAt(line, u, t, v) ==> ClashAt(s, u, t, v)
  }

  lemma {:induction false} HintCells(s: string, k: nat)
    requires k <= 81 <= |s|
    ensures forall i, j :: 0 <= i < j < |Hints(s, k)| ==> Hints(s, k)[i] / 9 < Hints(s, k)[j] / 9
  {
    if k > 0 {
      HintCells(s, k - 1);
      var T := Hints(s, k - 1);
      forall j | 0 <= j < |T|
        ensures T[j] / 9 < k - 1
      {
        HintFrom(s, k - 1, T[j]);
      }
      if IsDigit(s[k - 1]) { HintCell(k - 1, s[k - 1]); }
    }
  }

  /** Two rows of which the second was added share no constraint. */
  lemma AddedApart(a: Aux, H: seq<nat>, S: seq<nat>, i: nat, j: nat, c: nat)
    requires Incidence(a) && Adds(a, H, S) && i < j < 81 && |H| <= j && S[i] < ROWS && S[j] < ROWS && c < COLS && c in a.c[S[i]]
    ensures c !in a.c[S[j]]
  {
    var T := S[..j];
    assert S[i] == T[i];
    assert S[i] in T;
    hide Incidence, Weight, Cover;
    CoverMember(a, T, c);
    if c in a.c[S[j]] { FreeIsUnused(a, T, S[j], c); }
  }

  lemma OwnCell(r: nat)
    requires r < ROWS
    ensures Incidence(Matrix()) && r / 9 < 81 && r / 9 in Matrix().c[r]
  {
    MatrixIncidence();
    RowsOkay(r);
    hide Incidence, ConstraintsOf;
  }

  lemma CellsApart(s: string, S: seq<nat>, i: nat, j: nat)
    requires |s| >= 81 && Incidence(Matrix()) && Adds(Matrix(), Hints(s, 81), S) && i < j < 81 && S[i] < ROWS && S[j] < ROWS
    ensures S[i] / 9 != S[j] / 9
  {
    hide Incidence, Hints, Matrix, Weight;
    var H := Hints(s, 81);
    if j < |H| {
      HintCells(s, 81);
      assert S[i] == S[..|H|][i] && S[j] == S[..|H|][j];
    } else {
      OwnCell(S[i]);
      OwnCell(S[j]);
      AddedApart(Matrix(), H, S, i, j, S[i] / 9);
    }
  }

  ghost function CellsOf(S: seq<nat>, k: nat): (u: set<nat>)
    requires k <= |S|
    ensures forall m :: m in u <==> exists i :: 0 <= i < k && S[i] / 9 == m
  {
    if k == 0 then {} else CellsOf(S, k - 1) + {S[k - 1] / 9}
  }

  lemma {:induction false} CellsSize(s: string, S: seq<nat>, k: nat)
    requires |s| >= 81 && Incidence(Matrix()) && Adds(Matrix(), Hints(s, 81), S) && k <= 81 && RowsOk(S)
    ensures |CellsOf(S, k)| == k
  {
    hide Incidence, Hints, Matrix, Adds;
    AddsSize(Matrix(), Hints(s, 81), S);
    if k > 0 {
      CellsSize(s, S, k - 1);
      forall i | 0 <= i < k - 1
        ensures S[i] / 9 != S[k - 1] / 9
      {
        CellsApart(s, S, i, k - 1);
      }
    }
  }

  lemma AddsSize(a: Aux, H: seq<nat>, S: seq<nat>)
    requires Incidence(a) && Adds(a, H, S)
    ensures |S| == 81 && RowsOk(S)
  {
    hide Incidence, Weight;
  }

  /** Every cell has a choice. */
  lemma CellChosen(s: string, S: seq<nat>, m: nat) returns (i: nat)
    requires |s| >= 81 && Incidence(Matrix()) && Adds(Matrix(), Hints(s, 81), S) && m < 81
    ensures i < |S| && S[i] < ROWS && S[i] / 9 == m
  {
    hide Incidence, Hints, Matrix, Adds, UpTo, CellsOf;
    AddsSize(Matrix(), Hints(s, 81), S);
    CellsSize(s, S, 81);
    assert CellsOf(S, 81) <= UpTo(81);
    SubsetFull(CellsOf(S, 81), UpTo(81));
    assert m in CellsOf(S, 81);
    i :| 0 <= i < 81 && S[i] / 9 == m;
  }

  /** Equal digits of a unit share a constraint, so the later was given, and so both were. */
  lemma ClashGiven(s: string, S: seq<nat>, line: string, u: nat, t: nat, v: nat, i: nat, j: nat)
    requires |s| >= 81 && Incidence(Matrix()) && Adds(Matrix(), Hints(s, 81), S) && Shown(S, line)
    requires u < 27 && t < 9 && v < 9 && i < j < 81 && |S| == 81 && S[i] < ROWS && S[j] < ROWS
    requires S[i] / 9 == UnitCell(u, t) && S[j] / 9 == UnitCell(u, v) && line[S[i] / 9] == line[S[j] / 9]
    ensures IsDigit(s[UnitCell(u, t)]) && s[UnitCell(u, t)] == s[UnitCell(u, v)]
  {
    hide Incidence, Hints, Matrix, ConstraintsOf, UnitOf, UnitCell, PlaceIn, Ch, Weight;
    var H, r, q := Hints(s, 81), S[i], S[j];
    assert r in S && q in S;
    SameDigit(r, q);
    CellOfUnit(u, t);
    CellOfUnit(u, v);
    var c := 81 + 9 * u + r % 9;
    DigitConstraint(c, u, r % 9);
    UnitConstraint(r, c);
    UnitConstraint(q, c);
    if j >= |H| {
      AddedApart(Matrix(), H, S, i, j, c);
    } else {
      assert r == S[..|H|][i] && q == S[..|H|][j];
      HintFrom(s, 81, r);
      HintFrom(s, 81, q);
    }
  }

  lemma CompleteFilled(s: string, line: string)
    requires |s| >= 81 && Incidence(Matrix()) && Completes(Matrix(), Hints(s, 81), line)
    ensures Filled(s, line)
  {
    hide Incidence, Hints, Matrix, UnitCell, Ch, Adds, Keeps;
    var H := Hints(s, 81);
    var S :| Adds(Matrix(), H, S) && Shown(S, line);
    AddsSize(Matrix(), H, S);
    AddedKeeps(s, S, line);
    forall m | 0 <= m < 81
      ensures IsDigit(line[m])
    {
      var i := CellChosen(s, S, m);
      assert S[i] in S;
    }
    forall u: nat, t: nat, v: nat | u < 27 && t < 9 && v < 9 && ClashAt(line, u, t, v)
      ensures ClashAt(s, u, t, v)
    {
      var i := CellChosen(s, S, UnitCell(u, t));
      var j := CellChosen(s, S, UnitCell(u, v));
      CellOfUnit(u, t);
      CellOfUnit(u, v);
      if i < j { ClashGiven(s, S, line, u, t, v, i, j); } else { ClashGiven(s, S, line, u, v, t, j, i); }
    }
  }

  lemma AddedKeeps(s: string, S: seq<nat>, line: string)
    requires |s| >= 81 && Incidence(Matrix()) && Adds(Matrix(), Hints(s, 81), S) && Shown(S, line)
    ensures Keeps(s, line)
  {
    hide Incidence, Hints, Matrix, Ch, Weight;
    var H := Hints(s, 81);
    forall m | 0 <= m < 81 && IsDigit(s[m])
      ensures line[m] == s[m]
    {
      HintListed(s, 81, m);
      var h := 9 * m + (s[m] as int - 49);
      var i :| 0 <= i < |H| && H[i] == h;
      assert S[i] == S[..|H|][i];
      assert h in S;
      ChIs(m, s[m], s[m] as int - 49);
    }
  }

  // ---------- the solver on the rules ----------

  /** With some cell empty, the first constraint that the given digits leave at most one choice has none: the solver reads
      before its arrays. */
  ghost predicate CannotStart(s: string)
    requires |s| >= 81
  {
    MatrixIncidence();
    HintsOk(s, 81);
    Stuck(Matrix(), Hints(s, 81))
  }

  /** Every puzzle that has a solution is one the solver can start with. */
  lemma SolvableCanStart(s: string, line: string)
    requires Valid(line) && Keeps(s, line)
    ensures !Clash(s) && !CannotStart(s)
  {
    MatrixIncidence();
    HintsOk(s, 81);
    hide Incidence, Hints, Matrix, Valid, Keeps, Solves, Clash, StartCount, Distinct;
    KeepsSize(s, line);
    var a, H, X := Matrix(), Hints(s, 81), ChoicesOf(line);
    GridIsSolution(s, line);
    HintsDistinct(s, 81);
    SolvableDisjoint(a, H, X);
    ClashIff(s);
    forall c | 0 <= c < COLS
      ensures StartCount(a, H, c) > 0
    {
      SolvableCount(a, H, X, c);
    }
  }

  lemma SolvableCount(a: Aux, H: seq<nat>, X: set<nat>, c: nat)
    requires Incidence(a) && RowsOk(H) && Distinct(H) && Solves(a, H, X) && c < COLS
    ensures StartCount(a, H, c) > 0
  {
    SolvableDisjoint(a, H, X);
    hide Incidence, Solves, Cover, Distinct, Weight, ChoicesLeft;
    if Cover(a, H, c) == 0 {
      OpenAt(a, H, X, c);
      var k :| 0 <= k < 9 && Weight(a, H, RowAt(a, c, k)) == 0;
      SomeLeft(a, H, c, 9, k);
    }
  }

  lemma {:induction false} SomeLeft(a: Aux, H: seq<nat>, c: nat, n: nat, k: nat)
    requires Incidence(a) && RowsOk(H) && c < COLS && k < n <= 9 && Weight(a, H, RowAt(a, c, k)) == 0
    ensures ChoicesLeft(a, H, c, n) > 0
  {
    hide Incidence, Weight;
    if k < n - 1 { SomeLeft(a, H, c, n - 1, k); }
  }

  lemma OpenAt(a: Aux, H: seq<nat>, X: set<nat>, c: nat)
    requires Incidence(a) && RowsOk(H) && Solves(a, H, X) && c < COLS && Cover(a, H, c) == 0
    ensures exists k :: 0 <= k < 9 && Weight(a, H, RowAt(a, c, k)) == 0
  {
    assert Meets(a, X, c);
    var r :| r in X && c in a.c[r];
    assert r in a.r[c];
    var k :| 0 <= k < 9 && a.r[c][k] == r;
    assert RowAt(a, c, k) == r;
    hide Incidence, Cover, Weight;
    if Weight(a, H, r) > 0 { ForbiddenRow(a, H, H, X, c, r); }
  }

  /** The whole program on one puzzle. Unless it cannot start, it prints only grids that are filled and keep the given
      digits, with no other clash than among those; when they do not clash, it prints every valid grid that keeps them
      exactly once and nothing else; and a full grid it prints as it is, valid or not. */
  method SolveGrid(s: string) returns (ok: bool, n: nat, lines: seq<string>)
    requires |s| >= 81
    ensures ok <==> !CannotStart(s)
    ensures ok ==> n == |lines| && forall line :: line in lines ==> Filled(s, line)
    ensures ok ==> forall line :: Valid(line) && Keeps(s, line) ==> line in lines
    ensures ok && !Clash(s) ==>
              && (forall line :: line in lines <==> Valid(line) && Keeps(s, line))
              && forall j, k :: 0 <= j < k < n ==> lines[j] != lines[k]
    ensures (forall m :: 0 <= m < 81 ==> IsDigit(s[m])) ==> ok && lines == [s[..81]]
  {
    hide Incidence, Hints, Matrix, Valid, Keeps, Disjoint, Stuck, Listed, Prints, Solves, Clash, Filled, AllComplete;
    MatrixIncidence();
    HintsOk(s, 81);
    ClashIff(s);
    var a := GenMat();
    ghost var sols;
    ok, n, lines, sols := Solve(a, s);
    if ok {
      AllFilled(s, lines);
      if Clash(s) { ClashingUnsolvable(s); } else { PrintedGrids(s, sols, lines); }
    }
    if forall m :: 0 <= m < 81 ==> IsDigit(s[m]) { AllGiven(s, 81); }
  }

  lemma ClashingUnsolvable(s: string)
    requires |s| >= 81 && Clash(s)
    ensures forall line :: !(Valid(line) && Keeps(s, line))
  {
    hide Valid, Keeps, Clash, CannotStart;
    forall line
      ensures !(Valid(line) && Keeps(s, line))
    {
      if Valid(line) && Keeps(s, line) { SolvableCanStart(s, line); }
    }
  }

  lemma {:induction false} AllGiven(s: string, k: nat)
    requires k <= 81 <= |s| && forall m :: 0 <= m < 81 ==> IsDigit(s[m])
    ensures |Hints(s, k)| == k
  {
    if k > 0 { AllGiven(s, k - 1); }
  }

  lemma AllFilled(s: string, lines: seq<string>)
    requires |s| >= 81 && Incidence(Matrix()) && AllComplete(Matrix(), Hints(s, 81), lines)
    ensures forall line :: line in lines ==> Filled(s, line)
  {
    hide Incidence, Hints, Matrix, Filled, Completes;
    forall line | line in lines
      ensures Filled(s, line)
    {
      var k :| 0 <= k < |lines| && lines[k] == line;
      CompleteFilled(s, line);
    }
  }

  lemma PrintedGrids(s: string, sols: seq<set<nat>>, lines: seq<string>)
    requires |s| >= 81 && Incidence(Matrix()) && Prints(sols, lines) && Listed(Matrix(), Hints(s, 81), sols)
    requires forall X :: Solves(Matrix(), Hints(s, 81), X) ==> X in sols
    ensures forall line :: line in lines <==> Valid(line) && Keeps(s, line)
    ensures forall j, k :: 0 <= j < k < |lines| ==> lines[j] != lines[k]
  {
    hide Incidence, Hints, Matrix, Valid, Keeps, Solves, Shows;
    forall k | 0 <= k < |lines|
      ensures Valid(lines[k]) && Keeps(s, lines[k]) && |lines[k]| == 81 && sols[k] == ChoicesOf(lines[k])
    {
      ShowsSize(sols[k], lines[k]);
      SolutionIsGrid(s, sols[k], lines[k]);
    }
    forall line | Valid(line) && Keeps(s, line)
      ensures line in lines
    {
      GridPrinted(s, sols, lines, line);
    }
  }

  lemma ShowsSize(X: set<nat>, line: string)
    requires Shows(X, line)
    ensures |line| == 81
  {}

  lemma GridPrinted(s: string, sols: seq<set<nat>>, lines: seq<string>, line: string)
    requires |s| >= 81 && Incidence(Matrix()) && Prints(sols, lines) && Listed(Matrix(), Hints(s, 81), sols)
    requires forall X :: Solves(Matrix(), Hints(s, 81), X) ==> X in sols
    requires Valid(line) && Keeps(s, line)
    ensures line in lines
  {
    hide Incidence, Hints, Matrix, Valid, Keeps, Solves;
    KeepsSize(s, line);
    GridIsSolution(s, line);
    var k :| 0 <= k < |sols| && sols[k] == ChoicesOf(line);
    MeetsAll(s, sols[k], line, lines[k]);
  }

  lemma KeepsSize(s: string, line: string)
    requires Keeps(s, line)
    ensures |line| == 81
  {}

  /** A solution has one text only. */
  lemma MeetsAll(s: string, X: set<nat>, line: string, other: string)
    requires |s| >= 81 && Incidence(Matrix()) && Solves(Matrix(), Hints(s, 81), X) && Shows(X, line) && Shows(X, other)
    ensures line == other
  {
    hide Incidence, Hints, Matrix, Solves, Ch;
    forall m | 0 <= m < 81
      ensures line[m] == other[m]
    {
      MeetsCell(s, X, line, m);
    }
  }
}
