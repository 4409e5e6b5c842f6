/** Puzzles that a constraint without a choice blocks: one the solver cannot start with, one it answers with nothing, and
    one that clashes and is printed. */
module SudokuCases {
  import opened SudokuBoard
  import opened SudokuUpdate
  import opened SudokuSearch
  import opened SudokuPaths
  import opened SudokuSolver
  import opened SudokuGrid

  /** A given digit forbids itself everywhere in its units. */
  lemma GivenForbids(s: string, u: nat, t: nat, v: nat)
    requires |s| >= 81 && u < 27 && t < 9 && v < 9 && IsDigit(s[UnitCell(u, v)])
    ensures Incidence(Matrix()) && RowsOk(Hints(s, 81))
    ensures var r := 9 * UnitCell(u, t) + (s[UnitCell(u, v)] as int - 49); r < ROWS && Weight(Matrix(), Hints(s, 81), r) > 0
  {
    hide Incidence, Hints, Matrix, ConstraintsOf, UnitOf, UnitCell, PlaceIn, Ch, Cover, Weight;
    MatrixIncidence();
    HintsOk(s, 81);
    var m, w := UnitCell(u, t), UnitCell(u, v);
    var d := s[w] as int - 49;
    var r, h, c := 9 * m + d, 9 * w + d, 81 + 9 * u + d;
    ChIs(m, s[w], d);
    ChIs(w, s[w], d);
    HintListed(s, 81, w);
    CellOfUnit(u, t);
    CellOfUnit(u, v);
    DigitConstraint(c, u, d);
    UnitConstraint(r, c);
    UnitConstraint(h, c);
    CoverMember(Matrix(), Hints(s, 81), c);
    if Weight(Matrix(), Hints(s, 81), r) == 0 { FreeIsUnused(Matrix(), Hints(s, 81), r, c); }
  }

  /** The choices of a cell's constraint are the digits in the cell. */
  lemma CellChoice(c: nat, d: nat)
    requires c < 81 && d < 9
    ensures Incidence(Matrix()) && RowAt(Matrix(), c, d) == 9 * c + d
  {
    hide ChoicesBelow;
    MatrixIncidence();
    ChoicesAre(c);
    hide Incidence;
  }

  lemma {:induction false} NoneLeft(a: Aux, H: seq<nat>, c: nat, k: nat)
    requires Incidence(a) && RowsOk(H) && c < COLS && k <= 9 && forall d :: 0 <= d < k ==> Weight(a, H, RowAt(a, c, d)) > 0
    ensures ChoicesLeft(a, H, c, k) == 0
  {
    hide Incidence, Weight;
    if k > 0 { NoneLeft(a, H, c, k - 1); }
  }

  lemma {:induction false} GapLeft(s: string, k: nat, m: nat)
    requires m < k <= 81 <= |s| && !IsDigit(s[m])
    ensures |Hints(s, k)| < k
  {
    if m < k - 1 { GapLeft(s, k - 1, m); }
  }

  /** A cell's constraint is used exactly when the cell is given, and then once. */
  lemma CellUsed(s: string, m: nat)
    requires |s| >= 81 && m < 81
    ensures Incidence(Matrix()) && RowsOk(Hints(s, 81)) && Cover(Matrix(), Hints(s, 81), m) == if IsDigit(s[m]) then 1 else 0
  {
    hide Incidence, Hints, Matrix, ConstraintsOf, Cover, Distinct, Ch;
    MatrixIncidence();
    HintsOk(s, 81);
    HintsDistinct(s, 81);
    var a, H := Matrix(), Hints(s, 81);
    CoverMember(a, H, m);
    if IsDigit(s[m]) {
      var h := 9 * m + (s[m] as int - 49);
      HintListed(s, 81, m);
      ChIs(m, s[m], s[m] as int - 49);
      OwnCell(h);
    }
    if Cover(a, H, m) > 0 {
      var z :| z in H && m in a.c[z];
      CellOfHint(s, z, m);
    }
    if Cover(a, H, m) > 1 {
      var r, q := TwoOf(a, H, m);
      CellOfHint(s, r, m);
      CellOfHint(s, q, m);
      ChEqual(r, q);
    }
  }

  lemma CellOfHint(s: string, h: nat, m: nat)
    requires |s| >= 81 && h in Hints(s, 81) && m < 81 && h < ROWS && m in Matrix().c[h]
    ensures h / 9 == m && IsDigit(s[m]) && Ch(h) == s[m]
  {
    hide Hints, ConstraintsOf, Ch;
    HintFrom(s, 81, h);
    UnitConstraint(h, m);
  }

  /** Row 1 needs a 1 in its first cell, which the 1 below forbids: the first constraint of all has no choice, and the
      solver reads before its arrays, whatever else is given. */
  lemma BlockedAtOnce(s: string)
    requires |s| >= 81 && s[..10] == ".234567891"
    ensures CannotStart(s)
  {
    hide Incidence, Hints, Matrix, Cover, Weight, ChoicesLeft, RowAt, Stuck, IsDigit;
    MatrixIncidence();
    HintsOk(s, 81);
    assert s[0] == s[..10][0] && !IsDigit('.') by { DotIsNone(); }
    CellUsed(s, 0);
    GapLeft(s, 81, 0);
    forall d | 0 <= d < 9
      ensures Weight(Matrix(), Hints(s, 81), RowAt(Matrix(), 0, d)) > 0
    {
      CellChoice(0, d);
      BlockedDigit(s, d);
    }
    NoneLeft(Matrix(), Hints(s, 81), 0, 9);
    StuckAtFirst(Matrix(), Hints(s, 81));
  }

  lemma StuckAtFirst(a: Aux, H: seq<nat>)
    requires Incidence(a) && RowsOk(H) && |H| < 81 && ChoicesLeft(a, H, 0, 9) == 0 && Cover(a, H, 0) == 0
    ensures Stuck(a, H)
  {
    hide Incidence, Cover, ChoicesLeft;
    assert StartCount(a, H, 0) == 0;
  }

  lemma DotIsNone()
    ensures !IsDigit('.')
  {}

  lemma BlockedDigit(s: string, d: nat)
    requires |s| >= 81 && s[..10] == ".234567891" && d < 9
    ensures Incidence(Matrix()) && RowsOk(Hints(s, 81)) && Weight(Matrix(), Hints(s, 81), d) > 0
  {
    hide Incidence, Hints, Matrix, Weight;
    assert s[9] == s[..10][9] == '1';
    if d == 0 {
      assert UnitCell(18, 0) == 0 && UnitCell(18, 1) == 9;
      GivenForbids(s, 18, 0, 1);
    } else {
      assert s[d] == s[..10][d];
      assert s[d] as int == 49 + d;
      assert UnitCell(9, 0) == 0 && UnitCell(9, d) == d;
      GivenForbids(s, 9, 0, d);
    }
  }

  // ---------- a puzzle that is blocked, but not at once ----------

  /** 1 to 8 in the first row, and 3 to 9 and 2 at the end of the last. */
  function Blocked(): (s: string)
    ensures |s| == 81
    ensures forall m :: 0 <= m < 81 ==> s[m] == if m < 8 || 73 <= m then Given(m) else '.'
  {
    seq(81, m requires 0 <= m < 81 => if m < 8 || 73 <= m then Given(m) else '.')
  }

  function Given(m: nat): char
    requires m < 8 || 73 <= m < 81
  {
    if m < 8 then (49 + m) as char else if m < 80 then (51 + (m - 73)) as char else '2'
  }

  lemma BlockedText()
    ensures Blocked() == "12345678." + seq(63, _ => '.') + ".34567892"
  {
    hide Blocked;
    assert Blocked()[..9] == "12345678." by { assert forall m :: 0 <= m < 9 ==> Blocked()[..9][m] == "12345678."[m]; }
    assert Blocked()[72..] == ".34567892" by { assert forall m :: 0 <= m < 9 ==> Blocked()[72..][m] == ".34567892"[m]; }
    assert Blocked()[9..72] == seq(63, _ => '.');
    assert Blocked() == Blocked()[..9] + Blocked()[9..72] + Blocked()[72..];
  }

  /** The last cell of the first row can only be 9. */
  lemma NineLeft()
    ensures Incidence(Matrix()) && RowsOk(Hints(Blocked(), 81)) && Weight(Matrix(), Hints(Blocked(), 81), 80) == 0
  {
    hide Incidence, Hints, Matrix, ConstraintsOf, Weight, Cover, Blocked, Ch;
    MatrixIncidence();
    HintsOk(Blocked(), 81);
    var a, H := Matrix(), Hints(Blocked(), 81);
    FreeRow(a, H, 80);
    forall c | c in a.c[80]
      ensures Cover(a, H, c) == 0
    {
      RowsOkay(80);
      CoverMember(a, H, c);
      if z :| z in H && c in a.c[z] { NotNear(z, c); }
    }
  }

  lemma NotNear(z: nat, c: nat)
    requires z in Hints(Blocked(), 81) && z < ROWS && c < COLS && c in ConstraintsOf(80)
    ensures c !in ConstraintsOf(z)
  {
    hide Hints, ConstraintsOf, Blocked;
    var m := z / 9;
    HintFrom(Blocked(), 81, z);
    UnitConstraint(80, c);
    UnitConstraint(z, c);
    if c in ConstraintsOf(z) && c >= 81 {
      assert m == 79;
      NineApart();
    }
  }

  lemma NineApart()
    ensures UnitOf(0, 8) != UnitOf(0, 79) && UnitOf(1, 8) != UnitOf(1, 79) && UnitOf(2, 8) != UnitOf(2, 79)
  {}

  lemma EightGone(d: nat)
    requires d < 8
    ensures Incidence(Matrix()) && RowsOk(Hints(Blocked(), 81)) && Weight(Matrix(), Hints(Blocked(), 81), 72 + d) > 0
  {
    hide Incidence, Hints, Matrix, Weight, Blocked;
    assert UnitCell(9, 8) == 8 && UnitCell(9, d) == d;
    GivenForbids(Blocked(), 9, 8, d);
  }

  lemma EightGoneAt(d: nat)
    requires d < 8
    ensures Incidence(Matrix()) && RowsOk(Hints(Blocked(), 81)) && Weight(Matrix(), Hints(Blocked(), 81), RowAt(Matrix(), 8, d)) > 0
  {
    hide Incidence, Hints, Matrix, Weight, RowAt, Blocked;
    CellChoice(8, d);
    EightGone(d);
  }

  lemma NoneBelowNine()
    ensures Incidence(Matrix()) && RowsOk(Hints(Blocked(), 81)) && ChoicesLeft(Matrix(), Hints(Blocked(), 81), 8, 8) == 0
  {
    MatrixIncidence();
    HintsOk(Blocked(), 81);
    hide Incidence, Hints, Matrix, Weight, RowAt, ChoicesLeft, Blocked;
    forall d | 0 <= d < 8
      ensures Weight(Matrix(), Hints(Blocked(), 81), RowAt(Matrix(), 8, d)) > 0
    {
      EightGoneAt(d);
    }
    NoneLeft(Matrix(), Hints(Blocked(), 81), 8, 8);
  }

  lemma NotGiven()
    ensures Incidence(Matrix()) && RowsOk(Hints(Blocked(), 81)) && Cover(Matrix(), Hints(Blocked(), 81), 8) == 0
  {
    hide Incidence, Hints, Matrix, Cover, Given;
    assert Blocked()[8] == '.';
    hide Blocked;
    CellUsed(Blocked(), 8);
  }

  lemma OneLeft()
    ensures Incidence(Matrix()) && RowsOk(Hints(Blocked(), 81)) && StartCount(Matrix(), Hints(Blocked(), 81), 8) == 1
  {
    hide Incidence, Hints, Matrix, Weight, Cover, RowAt, ChoicesLeft, Blocked, StartCount;
    NoneBelowNine();
    NotGiven();
    CellChoice(8, 8);
    NineLeft();
    OnlyLast(Matrix(), Hints(Blocked(), 81), 8);
  }

  lemma OnlyLast(a: Aux, H: seq<nat>, c: nat)
    requires Incidence(a) && RowsOk(H) && c < COLS && ChoicesLeft(a, H, c, 8) == 0 && Weight(a, H, RowAt(a, c, 8)) == 0
    requires Cover(a, H, c) == 0
    ensures StartCount(a, H, c) == 1
  {
    hide Incidence, Weight, Cover;
  }

  /** Here no digit fits the first cell of the last row, but the scan meets the one choice of an earlier constraint first:
      the solver starts, and since there is no solution it prints nothing and returns 0. */
  lemma BlockedLater()
    ensures !CannotStart(Blocked()) && !Clash(Blocked()) && forall line :: !(Valid(line) && Keeps(Blocked(), line))
    ensures Blocked() == "12345678." + seq(63, _ => '.') + ".34567892"
  {
    hide Incidence, Hints, Matrix, Weight, Blocked, Cover, StartCount, Clash, Valid, Keeps;
    MatrixIncidence();
    HintsOk(Blocked(), 81);
    OneLeft();
    BlockedText();
    forall d: nat | d < 8
      ensures StartCount(Matrix(), Hints(Blocked(), 81), d) > 1
    {
      CellUsed(Blocked(), d);
      UsedCounts(Matrix(), Hints(Blocked(), 81), d);
    }
    NoClash();
    forall line
      ensures !(Valid(line) && Keeps(Blocked(), line))
    {
      NoGrid(line);
    }
  }

  lemma UsedCounts(a: Aux, H: seq<nat>, d: nat)
    requires Incidence(a) && RowsOk(H) && d < COLS && Cover(a, H, d) == 1
    ensures StartCount(a, H, d) > 1
  {
    hide Incidence, Cover;
  }

  /** Any digit in the first cell of the last row clashes. */
  lemma LastRowClashes(line: string)
    requires Keeps(Blocked(), line) && IsDigit(line[72])
    ensures exists u: nat, t: nat, v: nat :: u < 27 && t < 9 && v < 9 && ClashAt(line, u, t, v)
  {
    hide Blocked, UnitCell;
    var d := line[72] as int - 49;
    UnitsMeet();
    if d == 0 {
      assert ClashAt(line, 18, 0, 8);
    } else if d == 1 {
      assert ClashAt(line, 17, 0, 8);
    } else {
      assert ClashAt(line, 17, 0, d - 1);
    }
  }

  lemma ClashInvalid(line: string, u: nat, t: nat, v: nat)
    requires |line| == 81 && u < 27 && t < 9 && v < 9 && ClashAt(line, u, t, v)
    ensures !Valid(line)
  {
    hide UnitCell;
  }

  lemma NoGrid(line: string)
    ensures !(Valid(line) && Keeps(Blocked(), line))
  {
    hide Blocked, UnitCell, ClashAt;
    if Keeps(Blocked(), line) && IsDigit(line[72]) {
      LastRowClashes(line);
      var u: nat, t: nat, v: nat :| u < 27 && t < 9 && v < 9 && ClashAt(line, u, t, v);
      ClashInvalid(line, u, t, v);
    }
  }

  lemma UnitsMeet()
    ensures UnitCell(18, 0) == 0 && UnitCell(18, 8) == 72 && forall v :: 0 <= v < 9 ==> UnitCell(17, v) == 72 + v
  {}

  lemma NoClash()
    ensures !Clash(Blocked())
  {
    hide Blocked, UnitCell;
    forall u: nat, t: nat, v: nat | u < 27 && t < 9 && v < 9
      ensures !ClashAt(Blocked(), u, t, v)
    {
      CellOfUnit(u, t);
      CellOfUnit(u, v);
      if ClashAt(Blocked(), u, t, v) { SameGiven(u, UnitCell(u, t), UnitCell(u, v)); }
    }
  }

  /** Equal digits of this puzzle are in different units. */
  lemma SameGiven(u: nat, m: nat, w: nat)
    requires u < 27 && m < 81 && w < 81 && m != w && (m < 8 || 73 <= m) && (w < 8 || 73 <= w) && Given(m) == Given(w)
    ensures UnitOf(u / 9, m) != UnitOf(u / 9, w)
  {}

  // ---------- a full grid that clashes ----------

  function Ones(): string { seq(81, _ => '1') }

  /** Nothing but ones: 81 given digits, so it is printed as it is, and it is no valid grid. */
  lemma OnesClash()
    ensures |Ones()| == 81 && (forall m :: 0 <= m < 81 ==> IsDigit(Ones()[m])) && Clash(Ones()) && !Valid(Ones())
  {
    assert UnitCell(9, 0) == 0 && UnitCell(9, 1) == 1;
    assert ClashAt(Ones(), 9, 0, 1);
    assert Ones()[UnitCell(9, 0)] == Ones()[UnitCell(9, 1)];
  }
}
