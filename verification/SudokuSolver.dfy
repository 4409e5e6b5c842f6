/** `sd_solve`: the backtracking loop over the counts, in place. */
module SudokuSolver {
  import opened SudokuBoard
  import opened SudokuUpdate
  import opened SudokuSearch
  import opened SudokuPaths

  // ---------- the state of the search ----------

  /** The arrays describe exactly the hints and the choices of the path. */
  ghost predicate Board(a: Aux, H: seq<nat>, P: seq<Step>, sr: seq<int>, sc: seq<nat>) {
    Incidence(a) && RowsOk(H) && StepsOk(P) && Legal(a, H, P) && Consistent(a, Rows(a, H, P), sr, sc)
  }

  /** `cc` and `cr` hold the path; choices beyond it are cleared. */
  ghost predicate Trail(P: seq<Step>, cc: seq<int>, cr: seq<int>) {
    && |cc| == 81 && |cr| == 81 && |P| <= 81
    && (forall j :: 0 <= j < |P| ==> cc[j] == P[j].col && cr[j] == P[j].idx)
    && forall j :: |P| <= j < 81 ==> cr[j] == -1
  }

  /** The level and direction that go with a path. */
  ghost predicate Level(P: seq<Step>, i: int, dir: int) {
    (dir == 1 && i == |P|) || (dir == -1 && i == |P| - 1)
  }

  /** A known smallest count, with the constraint that has it. */
  ghost predicate Candidate(sc: seq<nat>, min: int, c: int) {
    0 <= min <= 10 && |sc| == COLS && (min < 10 ==> 0 <= c < COLS && sc[c] == min)
  }

  /** How many of the first `k` choices of constraint `c` the hints do not forbid. */
  ghost function ChoicesLeft(a: Aux, H: seq<nat>, c: nat, k: nat): (n: nat)
    requires Incidence(a) && RowsOk(H) && c < COLS && k <= 9
    ensures n <= k
  {
    if k == 0 then 0 else ChoicesLeft(a, H, c, k - 1) + if Weight(a, H, RowAt(a, c, k - 1)) == 0 then 1 else 0
  }

  /** The count of constraint `c` once the hints are set: its choices left, and 128 if it is used (an odd number of
      times). */
  ghost function StartCount(a: Aux, H: seq<nat>, c: nat): nat
    requires Incidence(a) && RowsOk(H) && c < COLS
  {
    ChoicesLeft(a, H, c, 9) + 128 * (Cover(a, H, c) % 2)
  }

  /** The first constraint with a count of at most 1 has a count of 0. */
  ghost predicate Stuck(a: Aux, H: seq<nat>)
    requires Incidence(a) && RowsOk(H)
  {
    |H| < 81 && exists c :: 0 <= c < COLS && StartCount(a, H, c) == 0 && forall d :: 0 <= d < c ==> StartCount(a, H, d) > 1
  }

  // ---------- choosing a constraint ----------

  /** The top constraint: one with at most one choice if known, else one with the fewest choices. */
  method TopConstraint(sc: array<nat>, min0: int, c0: int) returns (min: int, c: int)
    requires Candidate(sc[..], min0, c0)
    ensures Candidate(sc[..], min, c) && min <= min0
    ensures min > 1 ==> forall k :: 0 <= k < COLS ==> sc[k] >= min
    ensures min0 > 1 >= min ==> forall k :: 0 <= k < c ==> sc[k] > 1
  {
    min, c := min0, c0;
    if min > 1 {
      var k := 0;
      while k < COLS
        invariant 0 <= k <= COLS && Candidate(sc[..], min, c) && min <= min0
        invariant min > 1 && forall j :: 0 <= j < k ==> sc[j] >= min
      {
        if sc[k] < min {
          min, c := sc[k], k;
          if min <= 1 { break; }
        }
        k := k + 1;
      }
    }
  }

  /** The count is the number of free choices, plus 128 for an odd number of uses; and a constraint with a free choice
      is unused. */
  lemma CountOnBoard(a: Aux, H: seq<nat>, P: seq<Step>, sr: seq<int>, sc: seq<nat>, c: nat)
    requires Board(a, H, P, sr, sc) && c < COLS
    ensures |sr| == ROWS && |sc| == COLS && sc[c] == Free(a, sr, c) + 128 * (Cover(a, Rows(a, H, P), c) % 2)
    ensures Free(a, sr, c) > 0 ==> Cover(a, Rows(a, H, P), c) == 0
  {
    hide Incidence, Free, Rows, Legal, Consistent, Cover, Weight;
    var S := Rows(a, H, P);
    ConsistentSized(a, S, sr, sc);
    CountMeaning(a, S, sr, sc, c);
    if Free(a, sr, c) > 0 {
      var j := FreeChoice(a, sr, c);
      ConsistentRow(a, S, sr, sc, RowAt(a, c, j));
      FreeIsUnused(a, S, RowAt(a, c, j), c);
    }
  }

  lemma FreeChoice(a: Aux, sr: seq<int>, c: nat) returns (j: nat)
    requires Incidence(a) && |sr| == ROWS && c < COLS && Free(a, sr, c) > 0
    ensures j < 9 && sr[RowAt(a, c, j)] <= 0
  {
    ColumnShape(a, c);
    j := SomeFree(a.r[c], sr, 9);
    hide Incidence;
  }

  lemma {:induction false} SomeFree(rows: seq<nat>, sr: seq<int>, k: nat) returns (j: nat)
    requires k <= |rows| && (forall i :: 0 <= i < k ==> rows[i] < |sr|) && FreeUpTo(rows, sr, k) > 0
    ensures j < k && sr[rows[j]] <= 0
  {
    if sr[rows[k - 1]] <= 0 { j := k - 1; } else { j := SomeFree(rows, sr, k - 1); }
  }

  lemma ConsistentSized(a: Aux, S: seq<nat>, sr: seq<int>, sc: seq<nat>)
    requires Consistent(a, S, sr, sc)
    ensures Sized(a, sr, sc) && Bytes(sc) && RowsOk(S)
  {
    hide Incidence;
  }

  lemma ConsistentRow(a: Aux, S: seq<nat>, sr: seq<int>, sc: seq<nat>, y: nat)
    requires Consistent(a, S, sr, sc) && y < ROWS
    ensures sr[y] == Weight(a, S, y)
  {
    hide Incidence;
  }

  /** Before the path is complete some constraint is unused, so its count is below 10. */
  lemma SomeUnused(a: Aux, H: seq<nat>, P: seq<Step>, sr: seq<int>, sc: seq<nat>)
    requires Board(a, H, P, sr, sc) && |H| + |P| < 81
    ensures |sc| == COLS && exists c: nat :: c < COLS && sc[c] < 10
  {
    hide Incidence, Free, Rows, Legal, Consistent, Cover;
    CountOnBoard(a, H, P, sr, sc, 0);
    UnusedLeft(a, Rows(a, H, P));
    var c: nat :| c < COLS && Cover(a, Rows(a, H, P), c) == 0;
    CountOnBoard(a, H, P, sr, sc, c);
  }

  lemma {:induction false} NoneFree(rows: seq<nat>, sr: seq<int>, k: nat, j: nat)
    requires j < k <= |rows| && (forall i :: 0 <= i < k ==> rows[i] < |sr|) && FreeUpTo(rows, sr, k) == 0
    ensures sr[rows[j]] > 0
  {
    if j < k - 1 { NoneFree(rows, sr, k - 1, j); }
  }

  /** A constraint with count 0 has no choice left. */
  lemma ZeroCount(a: Aux, H: seq<nat>, P: seq<Step>, sr: seq<int>, sc: seq<nat>, c: nat)
    requires Board(a, H, P, sr, sc) && c < COLS && |sc| == COLS && sc[c] == 0
    ensures Cover(a, Rows(a, H, P), c) != 1
    ensures forall j :: 0 <= j < 9 ==> Weight(a, Rows(a, H, P), RowAt(a, c, j)) > 0
  {
    hide Incidence, Rows, Legal, Consistent, Cover, Weight;
    CountOnBoard(a, H, P, sr, sc, c);
    forall j | 0 <= j < 9
      ensures Weight(a, Rows(a, H, P), RowAt(a, c, j)) > 0
    {
      ColumnShape(a, c);
      NoneFree(a.r[c], sr, 9, j);
      ConsistentRow(a, Rows(a, H, P), sr, sc, RowAt(a, c, j));
    }
  }

  /** Then no solution runs through the path: going back passes nothing that was not passed. */
  lemma ZeroCountSame(a: Aux, H: seq<nat>, P: seq<Step>, sr: seq<int>, sc: seq<nat>, c: nat)
    requires Board(a, H, P, sr, sc) && c < COLS && |sc| == COLS && sc[c] == 0
    ensures SamePassed(a, H, P, 1, P, -1)
  {
    hide Incidence, Rows, Legal, Consistent, Cover, Weight, SameAt, SamePassed, RowAt, Distinct;
    ZeroCount(a, H, P, sr, sc, c);
    if Cover(a, Rows(a, H, P), c) == 0 {
      EnterSame(a, H, P, c);
      DeadEndFrom(a, H, P, c, 0);
    } else {
      UsedTwice(a, H, P, c);
      LegalDistinct(a, H, P);
      ConflictSame(a, H, P, c);
    }
  }

  /** Hints that use a constraint twice have no solution to pass. */
  lemma ConflictSame(a: Aux, H: seq<nat>, P: seq<Step>, c: nat)
    requires Incidence(a) && RowsOk(H) && StepsOk(P) && Distinct(H) && c < COLS && Cover(a, H, c) > 1
    ensures SamePassed(a, H, P, 1, P, -1)
  {
    hide Incidence, Passed, Solves, Cover, Distinct;
    forall X
      ensures !Solves(a, H, X)
    {
      Unsolvable(a, H, X, c);
    }
  }

  lemma Unsolvable(a: Aux, H: seq<nat>, X: set<nat>, c: nat)
    requires Incidence(a) && RowsOk(H) && Distinct(H) && c < COLS && Cover(a, H, c) > 1
    ensures !Solves(a, H, X)
  {
    hide Incidence, Solves, Cover, Distinct;
    if Solves(a, H, X) { SolvableDisjoint(a, H, X); }
  }

  lemma NoRowsYet(a: Aux, H: seq<nat>)
    requires Incidence(a) && RowsOk(H)
    ensures Rows(a, H, []) == H
  {
    hide Incidence;
  }

  lemma {:induction false} LeftIsFree(a: Aux, H: seq<nat>, sr: seq<int>, c: nat, k: nat)
    requires Incidence(a) && RowsOk(H) && |sr| == ROWS && c < COLS && k <= 9
    requires forall y :: 0 <= y < ROWS ==> sr[y] == Weight(a, H, y)
    requires |a.r[c]| == 9 && forall j :: 0 <= j < 9 ==> a.r[c][j] < ROWS
    ensures FreeUpTo(a.r[c], sr, k) == ChoicesLeft(a, H, c, k)
  {
    hide Incidence, Weight;
    if k > 0 { LeftIsFree(a, H, sr, c, k - 1); }
  }

  /** Before the first choice the counts are those of the hints. */
  lemma StartCountIs(a: Aux, H: seq<nat>, sr: seq<int>, sc: seq<nat>, c: nat)
    requires Board(a, H, [], sr, sc) && c < COLS
    ensures |sc| == COLS && sc[c] == StartCount(a, H, c)
  {
    hide Incidence, Rows, Legal, Consistent, Cover, Weight, ChoicesLeft;
    NoRowsYet(a, H);
    CountOnBoard(a, H, [], sr, sc, c);
    ColumnShape(a, c);
    forall y | 0 <= y < ROWS
      ensures sr[y] == Weight(a, H, y)
    {
      ConsistentRow(a, H, sr, sc, y);
    }
    LeftIsFree(a, H, sr, c, 9);
  }

  /** The first scan finds a count of 0 exactly when the hints are stuck. */
  lemma StuckIff(a: Aux, H: seq<nat>, sr: seq<int>, sc: seq<nat>, min: int, c: int)
    requires Board(a, H, [], sr, sc) && |H| < 81 && Candidate(sc, min, c) && min < 10
    requires min > 1 ==> forall k :: 0 <= k < COLS ==> sc[k] >= min
    requires min <= 1 ==> forall k :: 0 <= k < c ==> sc[k] > 1
    ensures min == 0 <==> Stuck(a, H)
  {
    hide Board, Incidence, StartCount;
    forall k | 0 <= k < COLS
      ensures Incidence(a) && RowsOk(H) && sc[k] == StartCount(a, H, k)
    {
      BoardOk(a, H, [], sr, sc);
      StartCountIs(a, H, sr, sc, k);
    }
    BoardOk(a, H, [], sr, sc);
  }

  lemma BoardOk(a: Aux, H: seq<nat>, P: seq<Step>, sr: seq<int>, sc: seq<nat>)
    requires Board(a, H, P, sr, sc)
    ensures Incidence(a) && RowsOk(H) && StepsOk(P)
  {
    hide Incidence, Legal, Consistent;
  }

  // ---------- making and undoing a choice on the board ----------

  lemma MarkBit(n: nat)
    ensures Byte(128 * n) == 0 || Byte(128 * n) == 128
  {
    EvenOdd(n);
  }

  lemma TidyAfterMark(a: Aux, S: seq<nat>, r: nat, sr: seq<int>, sc: seq<nat>)
    requires Consistent(a, S, sr, sc) && Sized(a, sr, sc) && Bytes(sc) && RowsOk(S)
    requires r < ROWS
    ensures Tidy(a, sr, MarkOf(a, sc, r, 128))
  {
    hide Incidence, Consistent, Weight, Bytes, MarkOf, Excess, Cover, Byte;
    ConsistentSized(a, S, sr, sc);
    AppendRow(a, S, r);
    forall c | 0 <= c < COLS
      ensures Excess(a, sr, MarkOf(a, sc, r, 128), c) == 0 || Excess(a, sr, MarkOf(a, sc, r, 128), c) == 128
    {
      ConsistentExcess(a, S, sr, sc, c);
      MarkExcess(a, sr, sc, r, 128, c);
      CoverStep(Cover(a, S, c), if c in a.c[r] then 1 else 0);
      MarkBit(Cover(a, S + [r], c));
    }
  }

  lemma MinIsCandidate(start: seq<nat>, sc: seq<nat>, min: int, c: int)
    requires MinOf(start, sc, min, c)
    ensures Candidate(sc, min, c)
  {}

  lemma RowsAppend(a: Aux, H: seq<nat>, Q: seq<Step>, c: nat, k: nat)
    requires Incidence(a) && RowsOk(H) && StepsOk(Q) && c < COLS && k < 9
    ensures StepsOk(Q + [Step(c, k)])
    ensures Rows(a, H, Q + [Step(c, k)]) == Rows(a, H, Q) + [RowAt(a, c, k)]
    ensures Legal(a, H, Q + [Step(c, k)]) <==>
            Legal(a, H, Q) && Cover(a, Rows(a, H, Q), c) == 0 && Weight(a, Rows(a, H, Q), RowAt(a, c, k)) == 0
  {
    hide Incidence, Cover, Weight, RowAt, Disjoint;
    assert (Q + [Step(c, k)])[..|Q|] == Q;
  }

  /** The arrays after choosing different rows: no byte has wrapped around. */
  lemma BytesHold(a: Aux, S: seq<nat>, sr: seq<int>, sc: seq<nat>)
    requires Consistent(a, S, sr, sc) && RowsOk(S) && Distinct(S)
    ensures Int8s(sr)
  {
    hide Incidence, Weight, Excess;
    forall y | 0 <= y < ROWS
      ensures -128 <= sr[y] < 128
    {
      CountsFit(a, S, y);
    }
  }

  lemma CountedFits(a: Aux, S: seq<nat>, r: nat, sr: seq<int>, sc: seq<nat>)
    requires Consistent(a, S, sr, sc) && RowsOk(S) && r < ROWS && RowsOk(S + [r]) && Distinct(S + [r])
    ensures |sr| == ROWS && Incidence(a) && Int8s(Counted(a, sr, r))
  {
    AppendRow(a, S, r);
    hide Incidence, Weight, Excess, Share;
    var n := Counted(a, sr, r);
    forall y | 0 <= y < ROWS
      ensures -128 <= n[y] < 128
    {
      CountsFit(a, S + [r], y);
    }
  }

  /** Choosing a further row. */
  lemma ChosenConsistent(a: Aux, S: seq<nat>, r: nat, sr: seq<int>, sc: seq<nat>, s1: seq<int>, c1: seq<nat>)
    requires Consistent(a, S, sr, sc) && r < ROWS && RowsOk(S + [r]) && Distinct(S + [r])
    requires Sized(a, sr, sc) && Bytes(sc) && RowsOk(S) && Forward(a, sr, sc, r, s1, c1)
    ensures Consistent(a, S + [r], s1, c1)
  {
    hide Incidence, Consistent, Forward, Updated, Bytes, Weight, Cover, Distinct;
    CountedFits(a, S, r, sr, sc);
    ForwardExact(a, sr, sc, r, s1, c1);
    ChooseConsistent(a, S, r, sr, sc, s1, c1);
  }

  /** The counts that belong to the rows of `S`. */
  ghost function Weights(a: Aux, S: seq<nat>): (t: seq<int>)
    requires Incidence(a) && RowsOk(S)
    ensures |t| == ROWS && forall y :: 0 <= y < ROWS ==> t[y] == Weight(a, S, y)
  {
    seq(ROWS, y requires 0 <= y < ROWS => Weight(a, S, y))
  }

  lemma WeightsCounted(a: Aux, S: seq<nat>, r: nat, sr: seq<int>, sc: seq<nat>)
    requires RowsOk(S) && r < ROWS && RowsOk(S + [r]) && Consistent(a, S + [r], sr, sc) && Distinct(S) && Incidence(a)
    ensures Int8s(Weights(a, S)) && sr == Counted(a, Weights(a, S), r)
  {
    AppendRow(a, S, r);
    hide Incidence, Weight, Excess, Share;
    forall y | 0 <= y < ROWS
      ensures -128 <= Weights(a, S)[y] < 128
    {
      CountsFit(a, S, y);
    }
  }

  /** Reverting the last row. */
  lemma RevertedConsistent(a: Aux, S: seq<nat>, r: nat, sr: seq<int>, sc: seq<nat>, s1: seq<int>, c1: seq<nat>)
    requires RowsOk(S) && r < ROWS && RowsOk(S + [r]) && Consistent(a, S + [r], sr, sc) && Distinct(S)
    requires Sized(a, sr, sc) && Bytes(sc) && Backward(a, sr, sc, r, s1, c1)
    ensures Consistent(a, S, s1, c1)
  {
    hide Incidence, Consistent, Backward, Updated, Bytes, Weight, Cover, Distinct;
    WeightsCounted(a, S, r, sr, sc);
    BackwardExact(a, sr, sc, r, s1, c1, Weights(a, S));
    RevertConsistent(a, S, r, sr, sc, s1, c1);
  }

  /** Setting a free choice of an unused constraint. */
  method Set(a: Aux, sr: array<int>, sc: array<nat>, c: nat, k: nat, ghost H: seq<nat>, ghost Q: seq<Step>)
    returns (min: int, minc: int)
    requires Board(a, H, Q, sr[..], sc[..]) && c < COLS && k < 9
    requires Cover(a, Rows(a, H, Q), c) == 0 && Weight(a, Rows(a, H, Q), RowAt(a, c, k)) == 0
    modifies sr, sc
    ensures StepsOk(Q + [Step(c, k)]) && Board(a, H, Q + [Step(c, k)], sr[..], sc[..]) && Candidate(sc[..], min, minc)
  {
    hide Incidence, Rows, Legal, Consistent, Cover, Weight, Forward, Tidy, MarkOf, MinOf, Bytes, Candidate, RowAt, Int8s, Distinct;
    ghost var S, s0, c0 := Rows(a, H, Q), sr[..], sc[..];
    ColumnShape(a, c);
    ConsistentSized(a, S, s0, c0);
    RowIs(a, c, k);
    var r := a.r[c][k];
    LegalDistinct(a, H, Q);
    BytesHold(a, S, s0, c0);
    TidyAfterMark(a, S, r, s0, c0);
    min, minc := Choose(a, sr, sc, r);
    RowsAppend(a, H, Q, c, k);
    LegalDistinct(a, H, Q + [Step(c, k)]);
    ChosenConsistent(a, S, r, s0, c0, sr[..], sc[..]);
    MinIsCandidate(MarkOf(a, c0, r, 128), sc[..], min, minc);
  }

  lemma RowIs(a: Aux, c: nat, k: nat)
    requires Incidence(a) && c < COLS && k < 9
    ensures c < |a.r| && k < |a.r[c]| && RowAt(a, c, k) == a.r[c][k]
  {}

  /** Reverting the last choice of a path. */
  method Unset(a: Aux, sr: array<int>, sc: array<nat>, c: nat, k: nat, ghost H: seq<nat>, ghost Q: seq<Step>)
    requires StepsOk(Q) && c < COLS && k < 9 && Board(a, H, Q + [Step(c, k)], sr[..], sc[..])
    modifies sr, sc
    ensures Board(a, H, Q, sr[..], sc[..]) && Cover(a, Rows(a, H, Q), c) == 0
  {
    hide Incidence, Rows, Legal, Consistent, Cover, Weight, Backward, Bytes, RowAt, Int8s, Distinct;
    ghost var S, s0, c0 := Rows(a, H, Q), sr[..], sc[..];
    RowsAppend(a, H, Q, c, k);
    RowIs(a, c, k);
    LegalDistinct(a, H, Q);
    LegalDistinct(a, H, Q + [Step(c, k)]);
    ConsistentSized(a, S + [RowAt(a, c, k)], s0, c0);
    BytesHold(a, S + [RowAt(a, c, k)], s0, c0);
    Revert(a, sr, sc, a.r[c][k]);
    RevertedConsistent(a, S, RowAt(a, c, k), s0, c0, sr[..], sc[..]);
  }

  /** The next choice of `c`, from index `from` on, that is not forbidden; 9 when there is none. */
  method NextFree(a: Aux, sr: array<int>, c: nat, from: nat) returns (r2: nat)
    requires Incidence(a) && sr.Length == ROWS && c < COLS && from <= 9
    ensures from <= r2 <= 9
    ensures forall j :: from <= j < r2 ==> sr[RowAt(a, c, j)] != 0
    ensures r2 < 9 ==> sr[RowAt(a, c, r2)] == 0
  {
    hide Incidence, RowAt;
    r2 := from;
    while r2 < 9
      invariant from <= r2 <= 9
      invariant forall j :: from <= j < r2 ==> sr[RowAt(a, c, j)] != 0
    {
      RowIs(a, c, r2);
      ColumnShape(a, c);
      if sr[a.r[c][r2]] == 0 { break; }
      r2 := r2 + 1;
    }
  }

  // ---------- one round of the search ----------

  /** Going forward: the top constraint for this level, or back when it has no choice left: from the first level, to
      before the arrays. */
  method Enter(a: Aux, sc: array<nat>, i0: int, cc0: seq<int>, cr0: seq<int>, min0: int, minc0: int,
               ghost H: seq<nat>, ghost P: seq<Step>, ghost sr: seq<int>)
    returns (i: int, dir: int, cc: seq<int>, cr: seq<int>)
    requires Board(a, H, P, sr, sc[..]) && |H| + |P| < 81 && i0 == |P|
    requires Trail(P, cc0, cr0) && Candidate(sc[..], min0, minc0) && (P == [] ==> min0 == 10)
    ensures Level(P, i, dir) && Trail(P, cc, cr) && (i < 0 <==> P == [] && Stuck(a, H))
    ensures dir == 1 ==> 0 <= cc[i] < COLS && Cover(a, Rows(a, H, P), cc[i]) == 0
    ensures dir == -1 ==> SamePassed(a, H, P, 1, P, -1)
  {
    hide Incidence, Rows, Legal, Consistent, Cover, Stuck, SamePassed, Free;
    i, dir, cr := i0, 1, cr0;
    var min, c := TopConstraint(sc, min0, minc0);
    cc := cc0[i := c];
    SomeUnused(a, H, P, sr, sc[..]);
    if P == [] { StuckIff(a, H, sr, sc[..], min, c); }
    if min == 0 || min == 10 {
      ZeroCountSame(a, H, P, sr, sc[..], c);
      cr := cr[i := -1];
      i, dir := i - 1, -1;
    } else {
      CountOnBoard(a, H, P, sr, sc[..], c);
    }
  }

  lemma {:induction false} SkipRange(a: Aux, H: seq<nat>, P: seq<Step>, dir: int, Q: seq<Step>, c: nat, k: nat, r2: nat)
    requires Incidence(a) && RowsOk(H) && StepsOk(P) && StepsOk(Q) && c < COLS && k <= r2 <= 9
    requires Cover(a, Rows(a, H, Q), c) == 0 && SameAt(a, H, P, dir, Q, c, k)
    requires forall j :: k <= j < r2 ==> Weight(a, Rows(a, H, Q), RowAt(a, c, j)) > 0
    ensures SameAt(a, H, P, dir, Q, c, r2)
    decreases r2 - k
  {
    hide Incidence, SameAt, Cover, Weight, Rows, RowAt;
    if k < r2 {
      SkipSame(a, H, P, dir, Q, c, k);
      SkipRange(a, H, P, dir, Q, c, k + 1, r2);
    }
  }

  /** The choices passed over are forbidden, so no solution is lost with them. */
  lemma SkipOnBoard(a: Aux, H: seq<nat>, P: seq<Step>, dir: int, Q: seq<Step>, sr: seq<int>, sc: seq<nat>, c: nat, k: nat, r2: nat)
    requires Board(a, H, Q, sr, sc) && StepsOk(P) && c < COLS && k <= r2 <= 9 && |sr| == ROWS
    requires Cover(a, Rows(a, H, Q), c) == 0 && SameAt(a, H, P, dir, Q, c, k)
    requires forall j :: k <= j < r2 ==> sr[RowAt(a, c, j)] != 0
    ensures SameAt(a, H, P, dir, Q, c, r2)
    ensures r2 < 9 && sr[RowAt(a, c, r2)] == 0 ==> Weight(a, Rows(a, H, Q), RowAt(a, c, r2)) == 0
  {
    hide Incidence, SameAt, Cover, Weight, Rows, RowAt, Legal, Consistent;
    forall j | k <= j < r2
      ensures Weight(a, Rows(a, H, Q), RowAt(a, c, j)) > 0
    {
      ConsistentRow(a, Rows(a, H, Q), sr, sc, RowAt(a, c, j));
    }
    SkipRange(a, H, P, dir, Q, c, k, r2);
    if r2 < 9 { ConsistentRow(a, Rows(a, H, Q), sr, sc, RowAt(a, c, r2)); }
  }

  lemma TrailShape(P: seq<Step>, cc: seq<int>, cr: seq<int>)
    requires Trail(P, cc, cr)
    ensures |cc| == 81 && |cr| == 81 && |P| <= 81
    ensures |P| < 81 ==> cr[|P| := -1] == cr
  {}

  lemma TrailExtend(Q: seq<Step>, cc: seq<int>, cr: seq<int>, c: nat, k: nat)
    requires |cr| == 81 && |Q| < 81 && Trail(Q, cc, cr[|Q| := -1]) && cc[|Q|] == c
    ensures Trail(Q + [Step(c, k)], cc, cr[|Q| := k])
  {
    var P, t, u := Q + [Step(c, k)], cr[|Q| := -1], cr[|Q| := k];
    assert forall j :: 0 <= j < 81 && j != |Q| ==> u[j] == t[j];
  }

  /** At constraint `c`, from choice `from` on: forward with the next free choice, or back without one. */
  method Advance(a: Aux, sr: array<int>, sc: array<nat>, i0: int, cc: seq<int>, cr0: seq<int>, from: nat,
                 ghost H: seq<nat>, ghost Q: seq<Step>, ghost P0: seq<Step>, ghost dir0: int)
    returns (i: int, dir: int, cr: seq<int>, min: int, minc: int, ghost P: seq<Step>)
    requires Board(a, H, Q, sr[..], sc[..]) && StepsOk(P0) && |H| + |Q| < 81 && i0 == |Q| && from <= 9
    requires |cr0| == 81 && Trail(Q, cc, cr0[i0 := -1]) && 0 <= cc[i0] < COLS
    requires Cover(a, Rows(a, H, Q), cc[i0]) == 0 && SameAt(a, H, P0, dir0, Q, cc[i0], from)
    modifies sr, sc
    ensures Board(a, H, P, sr[..], sc[..]) && Level(P, i, dir) && Trail(P, cc, cr)
    ensures dir == 1 ==> Candidate(sc[..], min, minc)
    ensures SamePassed(a, H, P0, dir0, P, dir)
    ensures (dir == -1 && P == Q) || (dir == 1 && |P| == |Q| + 1 && Work(P, 81 - |H|, 1) < WorkAt(Q, 81 - |H|, from))
  {
    hide Incidence, SameAt, Cover, Weight, Rows, RowAt, Legal, Consistent, SamePassed, Work, WorkAt, Candidate, Trail;
    TrailShape(Q, cc, cr0[i0 := -1]);
    var c := cc[i0];
    ConsistentSized(a, Rows(a, H, Q), sr[..], sc[..]);
    var r2 := NextFree(a, sr, c, from);
    SkipOnBoard(a, H, P0, dir0, Q, sr[..], sc[..], c, from, r2);
    min, minc := 10, 0;
    if r2 < 9 {
      WorkSteps(Q, 81 - |H|, c, r2);
      WorkLess(Q, 81 - |H|, from, r2);
      ForwardSame(a, H, P0, dir0, Q, c, r2);
      min, minc := Set(a, sr, sc, c, r2, H, Q);
      TrailExtend(Q, cc, cr0, c, r2);
      cr := cr0[i0 := r2];
      i, dir, P := i0 + 1, 1, Q + [Step(c, r2)];
    } else {
      ExhaustedSame(a, H, P0, dir0, Q, c);
      cr := cr0[i0 := -1];
      i, dir, P := i0 - 1, -1, Q;
    }
  }

  /** Less work left, or as much on a shorter path. */
  ghost predicate Progress(P: seq<Step>, dir: int, P0: seq<Step>, dir0: int, N: nat)
    requires StepsOk(P) && StepsOk(P0) && |P| <= N && |P0| <= N
  {
    Work(P, N, dir) < Work(P0, N, dir0) || (Work(P, N, dir) == Work(P0, N, dir0) && |P| < |P0|)
  }

  lemma BackWork(P: seq<Step>, N: nat)
    requires StepsOk(P) && |P| <= N
    ensures Work(P, N, -1) < Work(P, N, 1)
  {}

  lemma TrailLast(Q: seq<Step>, c: nat, k: nat, cc: seq<int>, cr: seq<int>)
    requires Trail(Q + [Step(c, k)], cc, cr)
    ensures |cr| == 81 && |Q| < 81 && |cc| == 81 && cc[|Q|] == c && cr[|Q|] == k && Trail(Q, cc, cr[|Q| := -1])
  {
    var P := Q + [Step(c, k)];
    assert P[|Q|] == Step(c, k);
    assert forall j :: 0 <= j < |Q| ==> P[j] == Q[j];
  }

  /** Going back: the last choice of the path is reverted and the search resumes after it. */
  method Resume(a: Aux, sr: array<int>, sc: array<nat>, i0: int, cc: seq<int>, cr0: seq<int>,
                ghost H: seq<nat>, ghost P0: seq<Step>)
    returns (i: int, dir: int, cr: seq<int>, min: int, minc: int, ghost P: seq<Step>)
    requires Board(a, H, P0, sr[..], sc[..]) && |H| + |P0| <= 81 && 0 <= i0 == |P0| - 1 && Trail(P0, cc, cr0)
    modifies sr, sc
    ensures Board(a, H, P, sr[..], sc[..]) && Level(P, i, dir) && Trail(P, cc, cr)
    ensures dir == 1 ==> Candidate(sc[..], min, minc)
    ensures SamePassed(a, H, P0, -1, P, dir)
    ensures |P| <= |P0| && (dir == 1 ==> P != []) && Progress(P, dir, P0, -1, 81 - |H|)
  {
    hide Incidence, SameAt, Cover, Weight, Rows, RowAt, Legal, Consistent, SamePassed, Work, WorkAt, Candidate, Trail;
    TrailShape(P0, cc, cr0);
    var c, k := cc[i0], cr0[i0];
    ghost var Q, p := P0[..i0], P0[i0];
    assert P0 == Q + [Step(p.col, p.idx)];
    assert StepOk(p);
    TrailLast(Q, p.col, p.idx, cc, cr0);
    Unset(a, sr, sc, c, k, H, Q);
    BackSame(a, H, Q, c, k);
    WorkSteps(Q, 81 - |H|, c, k);
    WorkLess(Q, 81 - |H|, k + 1, 9);
    i, dir, cr, min, minc, P := Advance(a, sr, sc, i0, cc, cr0, k + 1, H, Q, P0, -1);
  }

  /** One round of the inner loop. The first, from hints that are stuck, would read outside the arrays. */
  method Round(a: Aux, sr: array<int>, sc: array<nat>, i0: int, dir0: int, cc0: seq<int>, cr0: seq<int>, min0: int, minc0: int,
               ghost H: seq<nat>, ghost P0: seq<Step>)
    returns (outside: bool, i: int, dir: int, cc: seq<int>, cr: seq<int>, min: int, minc: int, ghost P: seq<Step>)
    requires Board(a, H, P0, sr[..], sc[..]) && Level(P0, i0, dir0) && 0 <= i0 < 81 - |H| && Trail(P0, cc0, cr0)
    requires dir0 == 1 ==> Candidate(sc[..], min0, minc0) && (P0 == [] ==> min0 == 10)
    modifies sr, sc
    ensures outside <==> P0 == [] && dir0 == 1 && Stuck(a, H)
    ensures Board(a, H, P, sr[..], sc[..]) && |H| + |P| <= 81
    ensures !outside ==> Level(P, i, dir) && Trail(P, cc, cr) && (dir == 1 ==> P != [] && Candidate(sc[..], min, minc))
    ensures !outside ==> SamePassed(a, H, P0, dir0, P, dir) && Progress(P, dir, P0, dir0, 81 - |H|)
  {
    hide Incidence, SameAt, Cover, Weight, Rows, RowAt, Legal, Consistent, SamePassed, Work, WorkAt, Candidate, Trail, Stuck;
    outside, i, dir, cc, cr, min, minc, P := false, i0, dir0, cc0, cr0, min0, minc0, P0;
    SameSelf(a, H, P0, dir0);
    if dir == 1 {
      i, dir, cc, cr := Enter(a, sc, i0, cc0, cr0, min0, minc0, H, P0, sr[..]);
      BackWork(P0, 81 - |H|);
    }
    if i < 0 {
      outside := true;
      return;
    }
    if dir == -1 {
      i, dir, cr, min, minc, P := Resume(a, sr, sc, i, cc, cr, H, P0);
      SameTrans(a, H, P0, dir0, P0, -1, P, dir);
    } else {
      TrailShape(P0, cc, cr);
      var c := cc[i];
      EnterSame(a, H, P0, c);
      WorkSteps(P0, 81 - |H|, c, 0);
      i, dir, cr, min, minc, P := Advance(a, sr, sc, i, cc, cr, cr[i] + 1, H, P0, P0, 1);
    }
  }

  /** The inner loop: on to the next complete path, or back past the first level; or, from hints that are stuck, outside
      the arrays. */
  method Search(a: Aux, sr: array<int>, sc: array<nat>, i0: int, dir0: int, cc0: seq<int>, cr0: seq<int>, min0: int, minc0: int,
                ghost H: seq<nat>, ghost P0: seq<Step>, hints: nat)
    returns (outside: bool, i: int, dir: int, cc: seq<int>, cr: seq<int>, min: int, minc: int, ghost P: seq<Step>)
    requires Board(a, H, P0, sr[..], sc[..]) && Level(P0, i0, dir0) && Trail(P0, cc0, cr0) && |H| + |P0| <= 81
    requires hints == |H| && (dir0 == 1 ==> Candidate(sc[..], min0, minc0) && (P0 == [] ==> min0 == 10))
    modifies sr, sc
    ensures outside ==> Stuck(a, H)
    ensures P0 == [] && dir0 == 1 && Stuck(a, H) ==> outside
    ensures Board(a, H, P, sr[..], sc[..]) && |H| + |P| <= 81
    ensures !outside ==> Level(P, i, dir) && Trail(P, cc, cr) && (dir == 1 ==> Candidate(sc[..], min, minc))
    ensures !outside ==> SamePassed(a, H, P0, dir0, P, dir) && (i < 0 || i == 81 - hints)
    ensures !outside ==> Progress(P, dir, P0, dir0, 81 - |H|) || (P == P0 && dir == dir0)
    ensures hints == 81 ==> !outside && i == i0 && P == P0 && dir == dir0
  {
    hide Incidence, Rows, Legal, Consistent, SamePassed, Work, Candidate, Trail, Stuck;
    outside, i, dir, cc, cr, min, minc, P := false, i0, dir0, cc0, cr0, min0, minc0, P0;
    SameSelf(a, H, P0, dir0);
    if Stuck(a, H) { StuckShort(a, H); }
    while 0 <= i < 81 - hints
      invariant Board(a, H, P, sr[..], sc[..]) && Level(P, i, dir) && Trail(P, cc, cr) && |H| + |P| <= 81
      invariant dir == 1 ==> Candidate(sc[..], min, minc) && (P == [] ==> min == 10)
      invariant P0 == [] && dir0 == 1 && Stuck(a, H) ==> P == [] && dir == 1
      invariant SamePassed(a, H, P0, dir0, P, dir)
      invariant Progress(P, dir, P0, dir0, 81 - |H|) || (P == P0 && dir == dir0)
      invariant hints == 81 ==> i == i0 && P == P0 && dir == dir0
      decreases Work(P, 81 - |H|, dir), |P|
    {
      ghost var P1, dir1 := P, dir;
      outside, i, dir, cc, cr, min, minc, P := Round(a, sr, sc, i, dir, cc, cr, min, minc, H, P);
      if outside { return; }
      SameTrans(a, H, P0, dir0, P1, dir1, P, dir);
    }
  }

  lemma StuckShort(a: Aux, H: seq<nat>)
    requires Incidence(a) && RowsOk(H) && Stuck(a, H)
    ensures |H| < 81
  {}

  // ---------- the text of a solution ----------

  /** The digit that choice `r` puts in its cell, `r / 9`. */
  function Ch(r: nat): (ch: char)
    ensures '1' <= ch <= '9'
  {
    (49 + r % 9) as char
  }

  ghost predicate Shown(S: seq<nat>, out: seq<char>) {
    RowsOk(S) && |out| == 81 && forall r :: r in S ==> out[r / 9] == Ch(r)
  }

  /** `out` is the text of a set of choices. */
  ghost predicate Shows(X: set<nat>, out: seq<char>) {
    |out| == 81 && forall r :: r in X ==> r < ROWS && out[r / 9] == Ch(r)
  }

  /** A choice disjoint from the others writes to a cell of its own. */
  lemma ShownStep(a: Aux, S: seq<nat>, r: nat, out: seq<char>)
    requires Incidence(a) && Shown(S, out) && r < ROWS && Weight(a, S, r) == 0
    ensures Shown(S + [r], out[r / 9 := Ch(r)])
  {
    var u := out[r / 9 := Ch(r)];
    forall q | q in S + [r]
      ensures u[q / 9] == Ch(q)
    {
      if q in S && q / 9 == r / 9 {
        FreeRow(a, S, r);
        assert a.c[r][0] in a.c[r] && a.c[q][0] in a.c[q];
        CoverMember(a, S, r / 9);
      }
    }
  }

  lemma {:induction false} LegalPrefix(a: Aux, H: seq<nat>, P: seq<Step>, j: nat)
    requires Incidence(a) && RowsOk(H) && StepsOk(P) && Legal(a, H, P) && j <= |P|
    ensures StepsOk(P[..j]) && Legal(a, H, P[..j])
  {
    hide Incidence, Rows, Cover, Weight, Disjoint, RowAt;
    if j < |P| {
      LegalPrefix(a, H, P[..|P| - 1], j);
      assert P[..|P| - 1][..j] == P[..j];
    } else {
      assert P[..j] == P;
    }
  }

  lemma ShownPrefix(a: Aux, H: seq<nat>, P: seq<Step>, j: nat, out: seq<char>)
    requires Incidence(a) && RowsOk(H) && StepsOk(P) && Legal(a, H, P) && j < |P| && StepsOk(P[..j])
    requires Shown(Rows(a, H, P[..j]), out)
    ensures StepsOk(P[..j + 1])
    ensures var r := RowAt(a, P[j].col, P[j].idx); Shown(Rows(a, H, P[..j + 1]), out[r / 9 := Ch(r)])
  {
    hide Incidence, Rows, Legal, Cover, Weight, Disjoint, RowAt, Shown, Ch;
    var Q, p := P[..j], P[j];
    assert P[..j + 1] == Q + [Step(p.col, p.idx)];
    LegalPrefix(a, H, P, j + 1);
    RowsAppend(a, H, Q, p.col, p.idx);
    ShownOk(Rows(a, H, Q), out);
    ShownStep(a, Rows(a, H, Q), RowAt(a, p.col, p.idx), out);
  }

  lemma ShownOk(S: seq<nat>, out: seq<char>)
    requires Shown(S, out)
    ensures |out| == 81
  {}

  /** Writing the choices of a complete path over the text that holds the hints. */
  method Fill(a: Aux, cc: seq<int>, cr: seq<int>, i: nat, out: array<char>, ghost H: seq<nat>, ghost P: seq<Step>)
    requires Incidence(a) && RowsOk(H) && StepsOk(P) && Legal(a, H, P) && Trail(P, cc, cr) && i == |P|
    requires Shown(H, out[..])
    modifies out
    ensures Shown(Rows(a, H, P), out[..]) && (i == 0 ==> out[..] == old(out[..]))
  {
    hide Incidence, Rows, Legal, Shown, RowAt, Ch;
    NoRowsYet(a, H);
    assert P[..0] == [];
    var j := 0;
    while j < i
      invariant 0 <= j <= i && StepsOk(P[..j]) && Shown(Rows(a, H, P[..j]), out[..]) && (j == 0 ==> out[..] == old(out[..]))
    {
      assert StepOk(P[j]);
      ShownOk(Rows(a, H, P[..j]), out[..]);
      ShownPrefix(a, H, P, j, out[..]);
      ColumnShape(a, cc[j]);
      RowIs(a, cc[j], cr[j]);
      var r := a.r[cc[j]][cr[j]];
      ghost var o := out[..];
      out[r / 9] := Ch(r);
      assert out[..] == o[r / 9 := Ch(r)];
      j := j + 1;
    }
    assert P[..i] == P;
  }

  // ---------- the whole solver ----------

  predicate IsDigit(ch: char) { '1' <= ch <= '9' }

  /** The choices fixed by the first `k` cells of the text. */
  function Hints(s: string, k: nat): (H: seq<nat>)
    requires k <= 81 && k <= |s|
    ensures forall j :: 0 <= j < |H| ==> H[j] < 9 * k
    ensures |H| <= k
  {
    if k == 0 then []
    else
      var H := Hints(s, k - 1);
      if IsDigit(s[k - 1]) then H + [(k - 1) * 9 + (s[k - 1] as int - 49)] else H
  }

  /** The hints are different choices. */
  lemma {:induction false} HintsDistinct(s: string, k: nat)
    requires k <= 81 && k <= |s|
    ensures Distinct(Hints(s, k))
  {
    if k > 0 {
      HintsDistinct(s, k - 1);
      var T := Hints(s, k - 1);
      assert forall j :: 0 <= j < |T| ==> T[j] < 9 * (k - 1);
    }
  }

  lemma HintsOk(s: string, k: nat)
    requires k <= 81 && k <= |s|
    ensures RowsOk(Hints(s, k))
  {
    hide Hints;
  }

  lemma {:induction false} HintsShown(s: string, k: nat)
    requires k <= 81 <= |s|
    ensures Shown(Hints(s, k), s[..81])
  {
    if k > 0 {
      HintsShown(s, k - 1);
      if IsDigit(s[k - 1]) {
        HintCell(k - 1, s[k - 1]);
      }
    }
  }

  lemma HintCell(i: nat, ch: char)
    requires IsDigit(ch) && i < 81
    ensures var r := i * 9 + (ch as int - 49); r < ROWS && r / 9 == i && Ch(r) == ch
  {
    var d := ch as int - 49;
    assert (i * 9 + d) / 9 == i && (i * 9 + d) % 9 == d;
  }

  /** Fresh arrays with the hints of the text chosen on them. */
  method Setup(a: Aux, s: string, sr: array<int>, sc: array<nat>, out: array<char>) returns (hints: nat, cc: seq<int>, cr: seq<int>)
    requires Incidence(a) && |s| >= 81 && sr.Length == ROWS && sc.Length == COLS && out.Length == 81
    modifies sr, sc, out
    ensures Consistent(a, Hints(s, 81), sr[..], sc[..]) && hints == |Hints(s, 81)|
    ensures out[..] == s[..81] && Trail([], cc, cr)
  {
    hide Incidence, Consistent, Forward, Bytes, MarkOf, MinOf, Tidy, Int8s, Distinct;
    ClearArrays(sr, sc);
    StartConsistentOf(a, sr[..], sc[..]);
    hints, cc, cr := 0, seq(81, _ => -1), seq(81, _ => -1);
    var i := 0;
    while i < 81
      invariant 0 <= i <= 81 && hints == |Hints(s, i)| && Consistent(a, Hints(s, i), sr[..], sc[..])
      invariant forall j :: 0 <= j < i ==> out[j] == s[j]
    {
      if IsDigit(s[i]) {
        var r := i * 9 + (s[i] as int - 49);
        ghost var s0, c0 := sr[..], sc[..];
        ConsistentSized(a, Hints(s, i), s0, c0);
        HintsDistinct(s, i);
        HintsDistinct(s, i + 1);
        HintsOk(s, i + 1);
        BytesHold(a, Hints(s, i), s0, c0);
        var m, mc := Choose(a, sr, sc, r);
        ChosenConsistent(a, Hints(s, i), r, s0, c0, sr[..], sc[..]);
        hints := hints + 1;
      }
      out[i] := s[i];
      i := i + 1;
    }
  }

  lemma StartConsistentOf(a: Aux, sr: seq<int>, sc: seq<nat>)
    requires Incidence(a) && |sr| == ROWS && |sc| == COLS
    requires (forall y :: 0 <= y < ROWS ==> sr[y] == 0) && forall c :: 0 <= c < COLS ==> sc[c] == 9
    ensures Consistent(a, [], sr, sc)
  {
    hide Consistent, Incidence;
    StartConsistent(a, sr, sc);
  }

  method ClearArrays(sr: array<int>, sc: array<nat>)
    requires sr.Length == ROWS && sc.Length == COLS
    modifies sr, sc
    ensures (forall y :: 0 <= y < ROWS ==> sr[y] == 0) && forall c :: 0 <= c < COLS ==> sc[c] == 9
  {
    var r := 0;
    while r < ROWS
      invariant 0 <= r <= ROWS && forall y :: 0 <= y < r ==> sr[y] == 0
    {
      sr[r] := 0;
      r := r + 1;
    }
    var c := 0;
    while c < COLS
      invariant 0 <= c <= COLS && (forall y :: 0 <= y < ROWS ==> sr[y] == 0) && forall k :: 0 <= k < c ==> sc[k] == 9
    {
      sc[c] := 9;
      c := c + 1;
    }
  }

  /** The solutions found so far are those the search has passed, each once. */
  ghost predicate Found(a: Aux, H: seq<nat>, sols: seq<set<nat>>, P: seq<Step>, dir: int)
    requires Incidence(a) && StepsOk(P)
  {
    && Listed(a, H, sols)
    && forall X :: Solves(a, H, X) ==> (X in sols <==> Passed(a, X, P, dir))
  }

  /** Solutions, each listed once. */
  ghost predicate Listed(a: Aux, H: seq<nat>, sols: seq<set<nat>>)
    requires Incidence(a)
  {
    && (forall k :: 0 <= k < |sols| ==> Solves(a, H, sols[k]))
    && forall j, k :: 0 <= j < k < |sols| ==> sols[j] != sols[k]
  }

  lemma FoundNone(a: Aux, H: seq<nat>)
    requires Incidence(a)
    ensures Found(a, H, [], [], 1)
  {
    hide Incidence, Solves;
  }

  lemma FoundAll(a: Aux, H: seq<nat>, sols: seq<set<nat>>)
    requires Incidence(a) && Found(a, H, sols, [], -1)
    ensures Listed(a, H, sols) && forall X :: Solves(a, H, X) ==> X in sols
  {
    hide Incidence, Solves;
    forall X | Solves(a, H, X)
      ensures X in sols
    {
      assert Passed(a, X, [], -1);
    }
  }

  lemma FoundMove(a: Aux, H: seq<nat>, sols: seq<set<nat>>, P: seq<Step>, d: int, Q: seq<Step>, e: int)
    requires Incidence(a) && StepsOk(P) && StepsOk(Q) && Found(a, H, sols, P, d) && SamePassed(a, H, P, d, Q, e)
    ensures Found(a, H, sols, Q, e)
  {
    hide Incidence, Solves, Passed, Listed;
  }

  /** A complete path is one more solution, found for the first time. */
  lemma FoundOne(a: Aux, H: seq<nat>, sols: seq<set<nat>>, P: seq<Step>)
    requires Incidence(a) && RowsOk(H) && StepsOk(P) && Legal(a, H, P) && |H| + |P| == 81 && Disjoint(a, H)
    requires Found(a, H, sols, P, 1)
    ensures Found(a, H, sols + [ToSet(Rows(a, H, P))], P, -1)
  {
    hide Incidence, Solves, Passed, Rows, Legal, Disjoint, ToSet;
    var S := Rows(a, H, P);
    var X, more := ToSet(S), sols + [ToSet(S)];
    RowsHaveHints(a, H, P);
    LegalDisjoint(a, H, P);
    FullPath(a, H, S);
    PassFull(a, H, P, X);
    assert forall k :: 0 <= k < |sols| ==> sols[k] in sols;
    forall Y | Solves(a, H, Y)
      ensures Y in more <==> Passed(a, Y, P, -1)
    {
      PassFull(a, H, P, Y);
    }
  }

  lemma {:induction false} RowsHaveHints(a: Aux, H: seq<nat>, P: seq<Step>)
    requires Incidence(a) && RowsOk(H) && StepsOk(P)
    ensures forall h :: h in H ==> h in Rows(a, H, P)
  {
    hide Incidence, RowAt;
    if P != [] { RowsHaveHints(a, H, P[..|P| - 1]); }
  }

  lemma ShownRows(a: Aux, H: seq<nat>, P: seq<Step>, out: seq<char>)
    requires Incidence(a) && RowsOk(H) && StepsOk(P) && Shown(Rows(a, H, P), out)
    ensures Shown(H, out) && Shows(ToSet(Rows(a, H, P)), out)
  {
    hide Incidence, Rows, Ch;
    RowsHaveHints(a, H, P);
    forall r | r in Rows(a, H, P)
      ensures r < ROWS
    {}
  }

  /** Each printed line is the text of the solution at the same place. */
  ghost predicate Prints(sols: seq<set<nat>>, lines: seq<string>) {
    |lines| == |sols| && forall k :: 0 <= k < |sols| ==> Shows(sols[k], lines[k])
  }

  lemma PrintsOne(sols: seq<set<nat>>, lines: seq<string>, X: set<nat>, out: string)
    requires Prints(sols, lines) && Shows(X, out)
    ensures Prints(sols + [X], lines + [out])
  {
    hide Shows;
  }

  // ---------- what a printed line shows ----------

  /** `S` is the hints and after them choices that conflict with nothing before them, 81 in all. */
  ghost predicate Adds(a: Aux, H: seq<nat>, S: seq<nat>)
    requires Incidence(a)
  {
    && RowsOk(S) && |S| == 81 && |H| <= 81 && S[..|H|] == H
    && forall i :: |H| <= i < 81 ==> RowsOk(S[..i]) && Weight(a, S[..i], S[i]) == 0
  }

  /** A text of the hints and of 81 choices in all, in conflict at most with hints among themselves. */
  ghost predicate Completes(a: Aux, H: seq<nat>, line: string)
    requires Incidence(a)
  {
    exists S :: Adds(a, H, S) && Shown(S, line)
  }

  lemma {:induction false} RowsAdd(a: Aux, H: seq<nat>, P: seq<Step>)
    requires Incidence(a) && RowsOk(H) && StepsOk(P) && Legal(a, H, P)
    ensures var S := Rows(a, H, P);
            && S[..|H|] == H
            && forall i :: |H| <= i < |S| ==> RowsOk(S[..i]) && Weight(a, S[..i], S[i]) == 0
  {
    hide Incidence, Weight, Cover, RowAt, Distinct;
    var S := Rows(a, H, P);
    if P != [] {
      var T := Rows(a, H, P[..|P| - 1]);
      RowsAdd(a, H, P[..|P| - 1]);
      assert forall i :: 0 <= i <= |T| ==> S[..i] == T[..i];
      assert T[..|T|] == T;
    }
  }

  lemma CompletesPath(a: Aux, H: seq<nat>, P: seq<Step>, line: string)
    requires Incidence(a) && RowsOk(H) && StepsOk(P) && Legal(a, H, P) && |H| + |P| == 81 && Shown(Rows(a, H, P), line)
    ensures Completes(a, H, line)
  {
    hide Incidence, Weight, Rows, Legal, Shown;
    RowsAdd(a, H, P);
  }

  ghost predicate AllComplete(a: Aux, H: seq<nat>, lines: seq<string>)
    requires Incidence(a)
  {
    forall k :: 0 <= k < |lines| ==> Completes(a, H, lines[k])
  }

  /** The lines printed and the solutions they are the texts of. */
  ghost predicate Printed(a: Aux, H: seq<nat>, lines: seq<string>, sols: seq<set<nat>>, P: seq<Step>, dir: int)
    requires Incidence(a) && RowsOk(H) && StepsOk(P)
  {
    AllComplete(a, H, lines) && (Disjoint(a, H) ==> Prints(sols, lines) && Found(a, H, sols, P, dir))
  }

  lemma PrintedNone(a: Aux, H: seq<nat>)
    requires Incidence(a) && RowsOk(H)
    ensures Printed(a, H, [], [], [], 1)
  {
    hide Incidence, Found, Disjoint;
    FoundNone(a, H);
  }

  lemma PrintedMove(a: Aux, H: seq<nat>, lines: seq<string>, sols: seq<set<nat>>, P: seq<Step>, d: int, Q: seq<Step>, e: int)
    requires Incidence(a) && RowsOk(H) && StepsOk(P) && StepsOk(Q)
    requires Printed(a, H, lines, sols, P, d) && SamePassed(a, H, P, d, Q, e)
    ensures Printed(a, H, lines, sols, Q, e)
  {
    hide Incidence, Found, Disjoint, SamePassed, AllComplete, Prints;
    if Disjoint(a, H) { FoundMove(a, H, sols, P, d, Q, e); }
  }

  /** One more line, at a complete path. */
  lemma PrintedOne(a: Aux, H: seq<nat>, lines: seq<string>, sols: seq<set<nat>>, P: seq<Step>, line: string)
    requires Incidence(a) && RowsOk(H) && StepsOk(P) && Legal(a, H, P) && |H| + |P| == 81
    requires Printed(a, H, lines, sols, P, 1) && Shown(Rows(a, H, P), line)
    ensures Printed(a, H, lines + [line], sols + [ToSet(Rows(a, H, P))], P, -1)
  {
    hide Incidence, Found, Disjoint, Legal, Rows, Shown, Completes, Prints, ToSet;
    CompletesPath(a, H, P, line);
    if Disjoint(a, H) {
      ShownRows(a, H, P, line);
      PrintsOne(sols, lines, ToSet(Rows(a, H, P)), line);
      FoundOne(a, H, sols, P);
    }
  }

  /** `sd_solve`, for any text: it would read outside its arrays exactly when the hints are stuck. Otherwise it ends, every
      line it prints keeps the hints and adds only choices that conflict with nothing, and for hints that do not conflict
      with one another it prints every solution exactly once and nothing else; a text without a gap it prints as it is. */
  method Solve(a: Aux, s: string) returns (ok: bool, n: nat, lines: seq<string>, ghost sols: seq<set<nat>>)
    requires Incidence(a) && |s| >= 81
    ensures RowsOk(Hints(s, 81)) && (ok <==> !Stuck(a, Hints(s, 81)))
    ensures ok ==> n == |lines| && AllComplete(a, Hints(s, 81), lines)
    ensures ok && Disjoint(a, Hints(s, 81)) ==>
              && Prints(sols, lines) && Listed(a, Hints(s, 81), sols)
              && forall X :: Solves(a, Hints(s, 81), X) ==> X in sols
    ensures |Hints(s, 81)| == 81 ==> ok && lines == [s[..81]]
  {
    hide Incidence, Rows, Legal, Consistent, SamePassed, Work, Candidate, Trail, Stuck, Hints, Found, Listed, Printed, Shown,
         ToSet, Solves, Disjoint, Prints, AllComplete;
    ghost var H := Hints(s, 81);
    var sr, sc, out := new int[ROWS], new nat[COLS], new char[81];
    HintsOk(s, 81);
    var hints, cc, cr := Setup(a, s, sr, sc, out);
    n, lines, sols := 0, [], [];
    var i, dir, min, minc, outside := 0, 1, 10, 0, false;
    ghost var P: seq<Step> := [];
    StartState(a, s, sr[..], sc[..]);
    if Stuck(a, H) { StuckShort(a, H); }
    ok := true;
    while true
      invariant Board(a, H, P, sr[..], sc[..]) && Level(P, i, dir) && Trail(P, cc, cr) && hints == |H| && |H| + |P| <= 81
      invariant dir == 1 ==> Candidate(sc[..], min, minc) && (P == [] ==> min == 10)
      invariant ok && (Stuck(a, H) ==> P == [] && dir == 1)
      invariant n == |lines| && Printed(a, H, lines, sols, P, dir) && out.Length == 81 && Shown(H, out[..])
      invariant |H| == 81 ==> P == [] && if dir == 1 then lines == [] && out[..] == s[..81] else lines == [s[..81]]
      decreases Work(P, 81 - |H|, dir), |P|
    {
      ghost var P0, dir0 := P, dir;
      outside, i, dir, cc, cr, min, minc, P := Search(a, sr, sc, i, dir, cc, cr, min, minc, H, P, hints);
      if outside { return false, n, lines, sols; }
      PrintedMove(a, H, lines, sols, P0, dir0, P, dir);
      if i < 0 { break; }
      Fill(a, cc, cr, i, out, H, P);
      PrintedOne(a, H, lines, sols, P, out[..]);
      HintsStay(a, H, P, out[..]);
      BackWork(P, 81 - |H|);
      lines := lines + [out[..]];
      sols := sols + [ToSet(Rows(a, H, P))];
      n := n + 1;
      i := i - 1;
      dir := -1;
    }
    assert P == [];
    PrintedAll(a, H, lines, sols);
  }

  lemma HintsStay(a: Aux, H: seq<nat>, P: seq<Step>, out: seq<char>)
    requires Incidence(a) && RowsOk(H) && StepsOk(P) && Shown(Rows(a, H, P), out)
    ensures Shown(H, out)
  {
    hide Incidence, Rows, Ch;
    RowsHaveHints(a, H, P);
  }

  lemma PrintedAll(a: Aux, H: seq<nat>, lines: seq<string>, sols: seq<set<nat>>)
    requires Incidence(a) && RowsOk(H) && Printed(a, H, lines, sols, [], -1)
    ensures AllComplete(a, H, lines)
    ensures Disjoint(a, H) ==> Prints(sols, lines) && Listed(a, H, sols) && forall X :: Solves(a, H, X) ==> X in sols
  {
    hide Incidence, Found, Disjoint, Prints, AllComplete, Listed, Solves;
    if Disjoint(a, H) { FoundAll(a, H, sols); }
  }

  lemma StartState(a: Aux, s: string, sr: seq<int>, sc: seq<nat>)
    requires |s| >= 81 && Incidence(a) && RowsOk(Hints(s, 81)) && Consistent(a, Hints(s, 81), sr, sc)
    ensures Board(a, Hints(s, 81), [], sr, sc) && Printed(a, Hints(s, 81), [], [], [], 1) && Shown(Hints(s, 81), s[..81])
    ensures Candidate(sc, 10, 0)
  {
    hide Incidence, Rows, Consistent, Hints, Printed, Shown, Distinct;
    NoRowsYet(a, Hints(s, 81));
    PrintedNone(a, Hints(s, 81));
    HintsShown(s, 81);
    HintsDistinct(s, 81);
    ConsistentSized(a, Hints(s, 81), sr, sc);
  }
}
