/** Exact covers, and which of them a depth-first search along a path has already passed. */
module SudokuPaths {
  import opened SudokuBoard
  import opened SudokuSearch
  import opened SudokuUpdate

  /** `X` contains the hints and meets every constraint exactly once. */
  ghost predicate Solves(a: Aux, H: seq<nat>, X: set<nat>)
    requires Incidence(a)
  {
    && (forall r :: r in X ==> r < ROWS)
    && (forall r :: r in H ==> r in X)
    && (forall c :: 0 <= c < COLS ==> Meets(a, X, c))
    && (forall r, q, c :: r in X && q in X && c in a.c[r] && c in a.c[q] ==> r == q)
  }

  ghost predicate Meets(a: Aux, X: set<nat>, c: nat)
    requires Incidence(a) && forall r :: r in X ==> r < ROWS
  {
    exists r :: r in X && c in a.c[r]
  }

  /** One level of the search: a constraint and the index of the choice taken for it. */
  datatype Step = Step(col: nat, idx: nat)

  ghost predicate StepOk(p: Step) { p.col < COLS && p.idx < 9 }

  ghost function RowAt(a: Aux, c: nat, k: nat): (r: nat)
    requires Incidence(a) && c < COLS && k < 9
    ensures r < ROWS && r in a.r[c] && c in a.c[r] && |a.r[c]| == 9 && r == a.r[c][k]
  {
    assert a.r[c][k] in a.r[c];
    a.r[c][k]
  }

  ghost predicate StepsOk(P: seq<Step>) { forall j :: 0 <= j < |P| ==> StepOk(P[j]) }

  /** The hints followed by the choices of the path. */
  ghost function Rows(a: Aux, H: seq<nat>, P: seq<Step>): (S: seq<nat>)
    requires Incidence(a) && RowsOk(H) && StepsOk(P)
    ensures RowsOk(S) && |S| == |H| + |P|
  {
    if P == [] then H else Rows(a, H, P[..|P| - 1]) + [RowAt(a, P[|P| - 1].col, P[|P| - 1].idx)]
  }

  ghost predicate Distinct(S: seq<nat>) { forall i, j :: 0 <= i < j < |S| ==> S[i] != S[j] }

  /** Each level's constraint was unused and its choice not forbidden when it was taken; the hints differ. */
  ghost predicate Legal(a: Aux, H: seq<nat>, P: seq<Step>)
    requires Incidence(a) && RowsOk(H) && StepsOk(P)
  {
    if P == [] then Distinct(H)
    else
      var Q, p := P[..|P| - 1], P[|P| - 1];
      && Legal(a, H, Q) && Cover(a, Rows(a, H, Q), p.col) == 0
      && Weight(a, Rows(a, H, Q), RowAt(a, p.col, p.idx)) == 0
  }

  lemma {:induction false} LegalDisjoint(a: Aux, H: seq<nat>, P: seq<Step>)
    requires Incidence(a) && RowsOk(H) && StepsOk(P) && Legal(a, H, P) && Disjoint(a, H)
    ensures Disjoint(a, Rows(a, H, P))
  {
    hide Incidence, Disjoint, Cover, Weight;
    if P != [] {
      var Q, p := P[..|P| - 1], P[|P| - 1];
      LegalDisjoint(a, H, Q);
      DisjointAppend(a, Rows(a, H, Q), RowAt(a, p.col, p.idx));
    }
  }

  /** `X` makes every choice of the path. */
  ghost predicate Through(a: Aux, X: set<nat>, P: seq<Step>)
    requires Incidence(a) && StepsOk(P)
  {
    P == [] || (Through(a, X, P[..|P| - 1]) && RowAt(a, P[|P| - 1].col, P[|P| - 1].idx) in X)
  }

  /** `X` makes one of the first `k` choices of constraint `c`. */
  ghost predicate Below(a: Aux, X: set<nat>, c: nat, k: nat)
    requires Incidence(a) && c < COLS && k <= 9
  {
    exists j: nat :: j < k && RowAt(a, c, j) in X
  }

  /** `X` leaves the path at some level towards an earlier choice. */
  ghost predicate Before(a: Aux, X: set<nat>, P: seq<Step>)
    requires Incidence(a) && StepsOk(P)
  {
    P != [] && (Before(a, X, P[..|P| - 1]) || (Through(a, X, P[..|P| - 1]) && Below(a, X, P[|P| - 1].col, P[|P| - 1].idx)))
  }

  /** What the search has passed: up to the path when going forward, and all of its subtree when going back. */
  ghost predicate Passed(a: Aux, X: set<nat>, P: seq<Step>, dir: int)
    requires Incidence(a) && StepsOk(P)
  {
    Before(a, X, P) || (dir == -1 && Through(a, X, P))
  }

  /** `X` was passed before choice `k` of constraint `c` at the end of path `Q`. */
  ghost predicate PassedAt(a: Aux, X: set<nat>, Q: seq<Step>, c: nat, k: nat)
    requires Incidence(a) && StepsOk(Q) && c < COLS && k <= 9
  {
    Before(a, X, Q) || (Through(a, X, Q) && Below(a, X, c, k))
  }

  lemma PassedNone(a: Aux, X: set<nat>, Q: seq<Step>, c: nat)
    requires Incidence(a) && StepsOk(Q) && c < COLS
    ensures PassedAt(a, X, Q, c, 0) <==> Passed(a, X, Q, 1)
  {
    hide Incidence;
  }

  lemma PassedForward(a: Aux, X: set<nat>, Q: seq<Step>, c: nat, k: nat)
    requires Incidence(a) && StepsOk(Q) && c < COLS && k < 9
    ensures StepsOk(Q + [Step(c, k)])
    ensures Passed(a, X, Q + [Step(c, k)], 1) <==> PassedAt(a, X, Q, c, k)
  {
    hide Incidence, Below;
    assert (Q + [Step(c, k)])[..|Q|] == Q;
  }

  lemma PassedBack(a: Aux, X: set<nat>, Q: seq<Step>, c: nat, k: nat)
    requires Incidence(a) && StepsOk(Q) && c < COLS && k < 9
    ensures StepsOk(Q + [Step(c, k)])
    ensures Passed(a, X, Q + [Step(c, k)], -1) <==> PassedAt(a, X, Q, c, k + 1)
  {
    assert (Q + [Step(c, k)])[..|Q|] == Q;
    BelowNext(a, X, c, k);
    hide Incidence, Below;
  }

  // ---------- what a solution through a path must contain ----------

  lemma {:induction false} ThroughHasRows(a: Aux, H: seq<nat>, X: set<nat>, P: seq<Step>, r: nat)
    requires Incidence(a) && RowsOk(H) && StepsOk(P) && Through(a, X, P) && forall h :: h in H ==> h in X
    requires r in Rows(a, H, P)
    ensures r in X
  {
    hide Incidence;
    if P != [] && r != RowAt(a, P[|P| - 1].col, P[|P| - 1].idx) {
      ThroughHasRows(a, H, X, P[..|P| - 1], r);
    }
  }

  lemma {:induction false} CoverMember(a: Aux, S: seq<nat>, c: nat)
    requires Incidence(a) && RowsOk(S)
    ensures Cover(a, S, c) > 0 <==> exists z :: z in S && c in a.c[z]
  {
    if S != [] {
      var T, x := S[..|S| - 1], S[|S| - 1];
      CoverMember(a, T, c);
      assert S == T + [x];
      hide Incidence;
      assert forall z :: z in S <==> z in T || z == x;
    }
  }

  /** A forbidden choice of an unused constraint is in no solution that contains the rows chosen so far. */
  lemma ForbiddenRow(a: Aux, H: seq<nat>, S: seq<nat>, X: set<nat>, c: nat, y: nat)
    requires Incidence(a) && RowsOk(S) && Solves(a, H, X) && (forall z :: z in S ==> z in X)
    requires y < ROWS && c in a.c[y] && Cover(a, S, c) == 0 && Weight(a, S, y) > 0
    ensures y !in X
  {
    FreeRow(a, S, y);
    var d :| d in a.c[y] && Cover(a, S, d) > 0;
    CoverMember(a, S, d);
    var z :| z in S && d in a.c[z];
    CoverMember(a, S, c);
  }

  lemma SkipForbidden(a: Aux, H: seq<nat>, X: set<nat>, Q: seq<Step>, c: nat, k: nat)
    requires Incidence(a) && RowsOk(H) && StepsOk(Q) && Solves(a, H, X) && c < COLS && k < 9
    requires Cover(a, Rows(a, H, Q), c) == 0 && Weight(a, Rows(a, H, Q), RowAt(a, c, k)) > 0
    ensures PassedAt(a, X, Q, c, k + 1) <==> PassedAt(a, X, Q, c, k)
  {
    BelowNext(a, X, c, k);
    hide Incidence, Below, Cover, Weight, Rows, Before, RowAt, Solves;
    if Through(a, X, Q) {
      forall z | z in Rows(a, H, Q)
        ensures z in X
      {
        SolvesHints(a, H, X);
        ThroughHasRows(a, H, X, Q, z);
      }
      ForbiddenRow(a, H, Rows(a, H, Q), X, c, RowAt(a, c, k));
    }
  }

  lemma BelowNext(a: Aux, X: set<nat>, c: nat, k: nat)
    requires Incidence(a) && c < COLS && k < 9
    ensures Below(a, X, c, k + 1) <==> Below(a, X, c, k) || RowAt(a, c, k) in X
  {
    hide Incidence;
  }

  // ---------- hints that conflict ----------

  /** A choice that is not forbidden leaves all its constraints unused. */
  lemma FreeIsUnused(a: Aux, S: seq<nat>, r: nat, c: nat)
    requires Incidence(a) && RowsOk(S) && r < ROWS && Weight(a, S, r) == 0 && c < COLS && c in a.c[r]
    ensures Cover(a, S, c) == 0
  {
    FreeRow(a, S, r);
  }

  lemma {:induction false} LegalDistinct(a: Aux, H: seq<nat>, P: seq<Step>)
    requires Incidence(a) && RowsOk(H) && StepsOk(P) && Legal(a, H, P)
    ensures Distinct(H) && Distinct(Rows(a, H, P))
  {
    hide Incidence, Cover, Weight;
    if P != [] {
      var Q, p := P[..|P| - 1], P[|P| - 1];
      LegalDistinct(a, H, Q);
      NotChosenYet(a, Rows(a, H, Q), RowAt(a, p.col, p.idx), p.col);
    }
  }

  lemma NotChosenYet(a: Aux, S: seq<nat>, r: nat, c: nat)
    requires Incidence(a) && RowsOk(S) && r < ROWS && Weight(a, S, r) == 0 && c < COLS && c in a.c[r]
    ensures r !in S
  {
    FreeIsUnused(a, S, r, c);
    CoverMember(a, S, c);
  }

  /** Choices never use a constraint again: one that is used twice was so by the hints. */
  lemma {:induction false} UsedTwice(a: Aux, H: seq<nat>, P: seq<Step>, c: nat)
    requires Incidence(a) && RowsOk(H) && StepsOk(P) && Legal(a, H, P) && c < COLS
    ensures Cover(a, Rows(a, H, P), c) > 1 ==> Cover(a, H, c) > 1
  {
    hide Incidence, Weight, Distinct;
    if P != [] {
      var Q, p := P[..|P| - 1], P[|P| - 1];
      var r := RowAt(a, p.col, p.idx);
      UsedTwice(a, H, Q, c);
      AppendRow(a, Rows(a, H, Q), r);
      hide Cover;
      RowShape(a, r);
      if c in a.c[r] { FreeIsUnused(a, Rows(a, H, Q), r, c); }
    }
  }

  /** Conflicting hints have no solution. */
  lemma SolvableDisjoint(a: Aux, H: seq<nat>, X: set<nat>)
    requires Incidence(a) && RowsOk(H) && Distinct(H) && Solves(a, H, X)
    ensures Disjoint(a, H)
  {
    forall c | 0 <= c < COLS
      ensures Cover(a, H, c) <= 1
    {
      UsedOnce(a, H, H, X, c);
    }
  }

  lemma {:induction false} UsedOnce(a: Aux, H: seq<nat>, S: seq<nat>, X: set<nat>, c: nat)
    requires Incidence(a) && RowsOk(S) && Distinct(S) && Solves(a, H, X) && c < COLS && forall r :: r in S ==> r in X
    ensures Cover(a, S, c) <= 1
  {
    if S != [] {
      var T, x := S[..|S| - 1], S[|S| - 1];
      UsedOnce(a, H, T, X, c);
      CoverMember(a, T, c);
      hide Incidence, Cover;
      assert forall i :: 0 <= i < |T| ==> T[i] == S[i];
      if c in a.c[x] {
        forall z | z in T
          ensures c !in a.c[z]
        {
          OneOfConstraint(a, H, X, z, x, c);
        }
      }
    }
  }

  lemma OneOfConstraint(a: Aux, H: seq<nat>, X: set<nat>, z: nat, x: nat, c: nat)
    requires Incidence(a) && Solves(a, H, X) && z in X && x in X && z != x && z < ROWS && x < ROWS && c in a.c[x]
    ensures c !in a.c[z]
  {
    hide Incidence;
  }

  /** Once all nine choices were tried, everything through the path was passed. */
  lemma AllTried(a: Aux, H: seq<nat>, X: set<nat>, Q: seq<Step>, c: nat)
    requires Incidence(a) && StepsOk(Q) && Solves(a, H, X) && c < COLS
    ensures PassedAt(a, X, Q, c, 9) <==> Passed(a, X, Q, -1)
  {
    assert Meets(a, X, c);
    var r :| r in X && c in a.c[r];
    assert r in a.r[c];
    var j :| 0 <= j < 9 && a.r[c][j] == r;
    assert RowAt(a, c, j) == r;
    hide Incidence, Before, Through;
  }

  // ---------- complete paths ----------

  ghost function Used(a: Aux, S: seq<nat>): (u: set<nat>)
    requires Incidence(a) && RowsOk(S)
  {
    set c: nat | c < COLS && Cover(a, S, c) > 0
  }

  ghost function RowSet(a: Aux, r: nat): set<nat>
    requires Incidence(a) && r < ROWS
  {
    set c: nat | c < COLS && c in a.c[r]
  }

  lemma RowSetSize(a: Aux, r: nat)
    requires Incidence(a) && r < ROWS
    ensures |RowSet(a, r)| == 4
  {
    var s := a.c[r];
    assert |s| == 4 && s[0] != s[1] && s[0] != s[2] && s[0] != s[3] && s[1] != s[2] && s[1] != s[3] && s[2] != s[3];
    assert s[0] < COLS && s[1] < COLS && s[2] < COLS && s[3] < COLS;
    hide Incidence;
    var u := {s[0], s[1], s[2], s[3]};
    assert s == [s[0], s[1], s[2], s[3]];
    assert RowSet(a, r) == u;
    assert |u| == 4 by { FourElements(s[0], s[1], s[2], s[3]); }
  }

  lemma FourElements(w: nat, x: nat, y: nat, z: nat)
    requires w != x && w != y && w != z && x != y && x != z && y != z
    ensures |{w, x, y, z}| == 4
  {
    assert {w, x, y, z} == {w, x, y} + {z} && |{w, x, y}| == 3;
  }

  lemma {:induction false} UsedSize(a: Aux, S: seq<nat>)
    requires Incidence(a) && RowsOk(S) && Disjoint(a, S)
    ensures |Used(a, S)| == 4 * |S|
  {
    if S == [] {
      assert Used(a, S) == {};
    } else {
      var T, x := S[..|S| - 1], S[|S| - 1];
      assert S == T + [x];
      AppendRow(a, T, x);
      hide Incidence, Cover;
      UsedSize(a, T);
      RowSetSize(a, x);
      assert Used(a, S) == Used(a, T) + RowSet(a, x);
      assert Used(a, T) !! RowSet(a, x);
    }
  }

  lemma {:induction false} UsedAtMost(a: Aux, S: seq<nat>)
    requires Incidence(a) && RowsOk(S)
    ensures |Used(a, S)| <= 4 * |S|
  {
    if S == [] {
      assert Used(a, S) == {};
    } else {
      var T, x := S[..|S| - 1], S[|S| - 1];
      assert S == T + [x];
      AppendRow(a, T, x);
      hide Incidence, Cover;
      UsedAtMost(a, T);
      RowSetSize(a, x);
      assert Used(a, S) == Used(a, T) + RowSet(a, x);
    }
  }

  /** Fewer than 81 rows leave some constraint unused, in conflict or not. */
  lemma UnusedLeft(a: Aux, S: seq<nat>)
    requires Incidence(a) && RowsOk(S) && |S| < 81
    ensures exists c: nat :: c < COLS && Cover(a, S, c) == 0
  {
    hide Incidence, Cover, UpTo;
    UsedAtMost(a, S);
    var all := UpTo(COLS);
    assert all != Used(a, S);
    assert Used(a, S) <= all;
    var c :| c in all && c !in Used(a, S);
  }

  ghost function SharedSet(a: Aux, x: nat, y: nat, k: nat): set<nat>
    requires Incidence(a) && x < ROWS && y < ROWS && k <= 4
  {
    set j: nat | j < k && a.c[x][j] in a.c[y] :: a.c[x][j]
  }

  lemma {:induction false} ShareSize(a: Aux, x: nat, y: nat, k: nat)
    requires Incidence(a) && x < ROWS && y < ROWS && k <= 4
    ensures |SharedSet(a, x, y, k)| == ShareUpTo(a, x, y, k)
  {
    if k == 0 {
      assert SharedSet(a, x, y, 0) == {};
    } else {
      RowShape(a, x);
      var c := a.c[x][k - 1];
      assert forall j: nat :: j < k - 1 ==> a.c[x][j] != c;
      hide Incidence;
      ShareSize(a, x, y, k - 1);
      assert SharedSet(a, x, y, k) == SharedSet(a, x, y, k - 1) + if c in a.c[y] then {c} else {};
    }
  }

  lemma SharedIs(a: Aux, x: nat, y: nat)
    requires Incidence(a) && x < ROWS && y < ROWS
    ensures SharedSet(a, x, y, 4) == RowSet(a, x) * RowSet(a, y)
  {
    RowShape(a, x);
    RowShape(a, y);
    hide Incidence;
    forall c | c in RowSet(a, x)
      ensures exists j: nat :: j < 4 && a.c[x][j] == c
    {}
  }

  // ---------- how large a row's count gets ----------

  lemma ShareSymmetric(a: Aux, x: nat, y: nat)
    requires Incidence(a) && x < ROWS && y < ROWS
    ensures Share(a, x, y) == Share(a, y, x)
  {
    ShareSize(a, x, y, 4);
    ShareSize(a, y, x, 4);
    SharedIs(a, x, y);
    SharedIs(a, y, x);
    hide Incidence, RowSet, SharedSet;
    assert RowSet(a, x) * RowSet(a, y) == RowSet(a, y) * RowSet(a, x);
  }

  /** The uses of the first `k` constraints of row `y`. */
  ghost function Uses(a: Aux, S: seq<nat>, y: nat, k: nat): nat
    requires Incidence(a) && RowsOk(S) && y < ROWS && k <= 4
  {
    if k == 0 then 0 else Uses(a, S, y, k - 1) + Cover(a, S, a.c[y][k - 1])
  }

  lemma {:induction false} UsesNone(a: Aux, y: nat, k: nat)
    requires Incidence(a) && y < ROWS && k <= 4
    ensures Uses(a, [], y, k) == 0
  {
    if k > 0 { UsesNone(a, y, k - 1); }
  }

  lemma {:induction false} UsesAppend(a: Aux, S: seq<nat>, x: nat, y: nat, k: nat)
    requires Incidence(a) && RowsOk(S) && x < ROWS && y < ROWS && k <= 4
    ensures RowsOk(S + [x]) && Uses(a, S + [x], y, k) == Uses(a, S, y, k) + ShareUpTo(a, y, x, k)
  {
    AppendRow(a, S, x);
    RowShape(a, x);
    RowShape(a, y);
    hide Incidence, Cover;
    if k > 0 { UsesAppend(a, S, x, y, k - 1); }
  }

  /** A row's count is the number of uses of its constraints. */
  lemma {:induction false} WeightIsUses(a: Aux, S: seq<nat>, y: nat)
    requires Incidence(a) && RowsOk(S) && y < ROWS
    ensures Weight(a, S, y) == Uses(a, S, y, 4)
  {
    if S == [] {
      UsesNone(a, y, 4);
    } else {
      var T, x := S[..|S| - 1], S[|S| - 1];
      assert S == T + [x];
      AppendRow(a, T, x);
      hide Incidence, Weight, Uses;
      WeightIsUses(a, T, y);
      UsesAppend(a, T, x, y, 4);
      ShareSymmetric(a, x, y);
    }
  }

  ghost function UsersOf(a: Aux, S: seq<nat>, c: nat): set<nat>
    requires Incidence(a) && RowsOk(S)
  {
    set r | r in S && c in a.c[r]
  }

  lemma {:induction false} CoverIsSize(a: Aux, S: seq<nat>, c: nat)
    requires Incidence(a) && RowsOk(S) && Distinct(S)
    ensures Cover(a, S, c) == |UsersOf(a, S, c)|
  {
    if S == [] {
      assert UsersOf(a, S, c) == {};
    } else {
      var T, x := S[..|S| - 1], S[|S| - 1];
      assert S == T + [x];
      AppendRow(a, T, x);
      hide Incidence, Cover, Distinct;
      DistinctLast(S);
      CoverIsSize(a, T, c);
      UsersAppend(a, T, x, c);
    }
  }

  lemma DistinctLast(S: seq<nat>)
    requires Distinct(S) && S != []
    ensures Distinct(S[..|S| - 1]) && S[|S| - 1] !in S[..|S| - 1]
  {}

  lemma UsersAppend(a: Aux, T: seq<nat>, x: nat, c: nat)
    requires Incidence(a) && RowsOk(T) && x < ROWS && RowsOk(T + [x]) && x !in T
    ensures x < |a.c| && |UsersOf(a, T + [x], c)| == |UsersOf(a, T, c)| + if c in a.c[x] then 1 else 0
  {
    RowShape(a, x);
    hide Incidence;
    assert UsersOf(a, T + [x], c) == UsersOf(a, T, c) + if c in a.c[x] then {x} else {};
  }

  lemma {:induction false} FirstFew(s: seq<nat>, k: nat)
    requires k <= |s|
    ensures |set i | 0 <= i < k :: s[i]| <= k
  {
    var u := set i | 0 <= i < k :: s[i];
    if k == 0 {
      assert u == {};
    } else {
      FirstFew(s, k - 1);
      assert u == (set i | 0 <= i < k - 1 :: s[i]) + {s[k - 1]};
    }
  }

  /** Different choices use a constraint at most nine times. */
  lemma CoverAtMost(a: Aux, S: seq<nat>, c: nat)
    requires Incidence(a) && RowsOk(S) && Distinct(S) && c < COLS
    ensures Cover(a, S, c) <= 9
  {
    CoverIsSize(a, S, c);
    ColumnShape(a, c);
    var s := a.r[c];
    forall r | r in UsersOf(a, S, c)
      ensures r in s
    {
      Transposed(a, r, c);
    }
    hide Incidence, Cover;
    var u := set i | 0 <= i < 9 :: s[i];
    FirstFew(s, 9);
    assert UsersOf(a, S, c) <= u;
    Within(UsersOf(a, S, c), u);
  }

  lemma Within(u: set<nat>, v: set<nat>)
    requires u <= v
    ensures |u| <= |v|
  {
    assert v == u + (v - u);
  }

  lemma {:induction false} UsesAtMost(a: Aux, S: seq<nat>, y: nat, k: nat)
    requires Incidence(a) && RowsOk(S) && Distinct(S) && y < ROWS && k <= 4
    ensures Uses(a, S, y, k) <= 9 * k
  {
    if k > 0 {
      RowShape(a, y);
      CoverAtMost(a, S, a.c[y][k - 1]);
      hide Incidence, Cover;
      UsesAtMost(a, S, y, k - 1);
    }
  }

  /** Whatever different choices were made, no row's count exceeds 36: signed bytes hold them all. */
  lemma CountsFit(a: Aux, S: seq<nat>, y: nat)
    requires Incidence(a) && RowsOk(S) && Distinct(S) && y < ROWS
    ensures 0 <= Weight(a, S, y) <= 36
  {
    hide Incidence, Weight, Uses;
    WeightIsUses(a, S, y);
    UsesAtMost(a, S, y, 4);
  }

  /** Without conflicts, a row's count is the number of its constraints in use: at most 4, so a signed byte holds it. */
  lemma {:induction false} WeightIsUse(a: Aux, S: seq<nat>, y: nat)
    requires Incidence(a) && RowsOk(S) && Disjoint(a, S) && y < ROWS
    ensures Weight(a, S, y) == |Used(a, S) * RowSet(a, y)| <= 4
  {
    RowSetSize(a, y);
    if S == [] {
      assert Used(a, S) == {};
    } else {
      var T, x := S[..|S| - 1], S[|S| - 1];
      assert S == T + [x];
      AppendRow(a, T, x);
      hide Incidence, Cover, Weight;
      WeightIsUse(a, T, y);
      ShareSize(a, x, y, 4);
      SharedIs(a, x, y);
      assert Used(a, S) == Used(a, T) + RowSet(a, x);
      assert Used(a, T) !! RowSet(a, x);
      assert Used(a, S) * RowSet(a, y) == Used(a, T) * RowSet(a, y) + RowSet(a, x) * RowSet(a, y);
      WithinRow(Used(a, S), RowSet(a, y));
    }
  }

  lemma WithinRow(u: set<nat>, v: set<nat>)
    ensures |u * v| <= |v|
  {
    assert v == u * v + (v - u);
  }

  ghost function UpTo(n: nat): (s: set<nat>)
    ensures |s| == n && forall c: nat :: c in s <==> c < n
  {
    if n == 0 then {} else UpTo(n - 1) + {n - 1}
  }

  /** With fewer than 81 rows some constraint is unused; with 81 none is. */
  lemma UsedCount(a: Aux, S: seq<nat>)
    requires Incidence(a) && RowsOk(S) && Disjoint(a, S)
    ensures |S| < 81 ==> exists c: nat :: c < COLS && Cover(a, S, c) == 0
    ensures |S| == 81 ==> forall c: nat :: c < COLS ==> Cover(a, S, c) == 1
  {
    hide Incidence, Cover, UpTo;
    UsedSize(a, S);
    var all := UpTo(COLS);
    assert Used(a, S) <= all;
    if |S| < 81 {
      assert all != Used(a, S);
      var c :| c in all && c !in Used(a, S);
    }
    if |S| == 81 {
      SubsetFull(Used(a, S), all);
      forall c: nat | c < COLS
        ensures Cover(a, S, c) == 1
      {
        assert c in Used(a, S);
      }
    }
  }

  lemma SubsetFull(u: set<nat>, v: set<nat>)
    requires u <= v && |u| == |v|
    ensures u == v
  {
    assert v == u + (v - u);
    assert |v - u| == |v| - |u|;
  }

  ghost function ToSet(S: seq<nat>): set<nat> { set r | r in S }

  lemma {:induction false} UniqueCover(a: Aux, S: seq<nat>, r: nat, q: nat, c: nat)
    requires Incidence(a) && RowsOk(S) && r in S && q in S && c in a.c[r] && c in a.c[q] && Cover(a, S, c) <= 1
    ensures r == q
  {
    var T, x := S[..|S| - 1], S[|S| - 1];
    assert S == T + [x];
    CoverMember(a, T, c);
    hide Incidence;
    if r != x && q != x {
      assert Cover(a, T, c) <= 1;
      UniqueCover(a, T, r, q, c);
    }
  }

  /** A full path is a solution, and the only one through it. */
  lemma FullPath(a: Aux, H: seq<nat>, S: seq<nat>)
    requires Incidence(a) && RowsOk(S) && Disjoint(a, S) && |S| == 81 && (forall h :: h in H ==> h in S)
    ensures Solves(a, H, ToSet(S))
  {
    UsedCount(a, S);
    var X := ToSet(S);
    forall c | 0 <= c < COLS
      ensures Meets(a, X, c)
    {
      CoverMember(a, S, c);
      hide Incidence, Cover;
    }
    forall r, q, c | r in X && q in X && c in a.c[r] && c in a.c[q]
      ensures r == q
    {
      assert c < COLS;
      UniqueCover(a, S, r, q, c);
    }
  }

  lemma OnlySolution(a: Aux, H: seq<nat>, S: seq<nat>, X: set<nat>)
    requires Incidence(a) && RowsOk(S) && Disjoint(a, S) && |S| == 81 && Solves(a, H, X) && forall z :: z in S ==> z in X
    ensures X == ToSet(S)
  {
    UsedCount(a, S);
    forall r | r in X
      ensures r in S
    {
      var c := a.c[r][0];
      assert c in a.c[r] && c < COLS;
      CoverMember(a, S, c);
    }
  }

  lemma {:induction false} RowsHasSteps(a: Aux, H: seq<nat>, P: seq<Step>, X: set<nat>)
    requires Incidence(a) && RowsOk(H) && StepsOk(P) && forall z :: z in Rows(a, H, P) ==> z in X
    ensures Through(a, X, P) && forall h :: h in H ==> h in X
  {
    hide Incidence;
    if P != [] {
      var Q, p := P[..|P| - 1], P[|P| - 1];
      assert Rows(a, H, P)[|Rows(a, H, P)| - 1] == RowAt(a, p.col, p.idx);
      assert forall z :: z in Rows(a, H, Q) ==> z in Rows(a, H, P);
      RowsHasSteps(a, H, Q, X);
    }
  }

  /** A solution takes only one choice of a constraint. */
  lemma OneChoice(a: Aux, H: seq<nat>, X: set<nat>, c: nat, j: nat, k: nat)
    requires Incidence(a) && Solves(a, H, X) && c < COLS && j < 9 && k < 9
    requires RowAt(a, c, j) in X && RowAt(a, c, k) in X
    ensures j == k
  {
    var r, q := RowAt(a, c, j), RowAt(a, c, k);
    assert r == q;
    assert a.r[c][j] == a.r[c][k];
    if j < k { ColumnShape(a, c); } else { ColumnShape(a, c); }
  }

  /** A solution through a path is not one that leaves it towards an earlier choice. */
  lemma {:induction false} ThroughNotBefore(a: Aux, H: seq<nat>, X: set<nat>, P: seq<Step>)
    requires Incidence(a) && StepsOk(P) && Solves(a, H, X) && Through(a, X, P)
    ensures !Before(a, X, P)
  {
    hide Incidence, Solves, RowAt;
    if P != [] {
      var Q, p := P[..|P| - 1], P[|P| - 1];
      ThroughNotBefore(a, H, X, Q);
      forall j: nat | j < 9 && RowAt(a, p.col, j) in X
        ensures j == p.idx
      {
        OneChoice(a, H, X, p.col, j, p.idx);
      }
    }
  }

  /** At a full path the search passes exactly one more solution: the path's own rows. */
  lemma PassFull(a: Aux, H: seq<nat>, P: seq<Step>, X: set<nat>)
    requires Incidence(a) && RowsOk(H) && StepsOk(P) && Legal(a, H, P) && Disjoint(a, H) && |H| + |P| == 81 && Solves(a, H, X)
    ensures Passed(a, X, P, -1) <==> Passed(a, X, P, 1) || X == ToSet(Rows(a, H, P))
    ensures X == ToSet(Rows(a, H, P)) ==> !Passed(a, X, P, 1)
  {
    hide Incidence, Legal, Rows, Disjoint, Before, Through, Solves;
    LegalDisjoint(a, H, P);
    var S := Rows(a, H, P);
    SolvesHints(a, H, X);
    if Through(a, X, P) {
      forall z | z in S
        ensures z in X
      {
        ThroughHasRows(a, H, X, P, z);
      }
      OnlySolution(a, H, S, X);
    }
    if X == ToSet(S) {
      RowsHasSteps(a, H, P, X);
      ThroughNotBefore(a, H, X, P);
    }
  }

  lemma SolvesHints(a: Aux, H: seq<nat>, X: set<nat>)
    requires Incidence(a) && Solves(a, H, X)
    ensures forall h :: h in H ==> h in X
  {
    hide Incidence;
  }

  // ---------- the same solutions passed ----------

  ghost predicate SamePassed(a: Aux, H: seq<nat>, P: seq<Step>, dir: int, Q: seq<Step>, to: int)
    requires Incidence(a) && StepsOk(P) && StepsOk(Q)
  {
    forall X :: Solves(a, H, X) ==> (Passed(a, X, P, dir) <==> Passed(a, X, Q, to))
  }

  ghost predicate SameAt(a: Aux, H: seq<nat>, P: seq<Step>, dir: int, Q: seq<Step>, c: nat, k: nat)
    requires Incidence(a) && StepsOk(P) && StepsOk(Q) && c < COLS && k <= 9
  {
    forall X :: Solves(a, H, X) ==> (Passed(a, X, P, dir) <==> PassedAt(a, X, Q, c, k))
  }

  lemma EnterSame(a: Aux, H: seq<nat>, P: seq<Step>, c: nat)
    requires Incidence(a) && StepsOk(P) && c < COLS
    ensures SameAt(a, H, P, 1, P, c, 0)
  {
    hide Incidence, Passed, PassedAt, Solves;
    forall X | Solves(a, H, X)
      ensures Passed(a, X, P, 1) <==> PassedAt(a, X, P, c, 0)
    {
      PassedNone(a, X, P, c);
    }
  }

  lemma BackSame(a: Aux, H: seq<nat>, Q: seq<Step>, c: nat, k: nat)
    requires Incidence(a) && StepsOk(Q) && c < COLS && k < 9 && StepsOk(Q + [Step(c, k)])
    ensures SameAt(a, H, Q + [Step(c, k)], -1, Q, c, k + 1)
  {
    hide Incidence, Passed, PassedAt, Solves;
    forall X | Solves(a, H, X)
      ensures Passed(a, X, Q + [Step(c, k)], -1) <==> PassedAt(a, X, Q, c, k + 1)
    {
      PassedBack(a, X, Q, c, k);
    }
  }

  lemma SkipSame(a: Aux, H: seq<nat>, P: seq<Step>, dir: int, Q: seq<Step>, c: nat, k: nat)
    requires Incidence(a) && RowsOk(H) && StepsOk(P) && StepsOk(Q) && c < COLS && k < 9 && SameAt(a, H, P, dir, Q, c, k)
    requires Cover(a, Rows(a, H, Q), c) == 0 && Weight(a, Rows(a, H, Q), RowAt(a, c, k)) > 0
    ensures SameAt(a, H, P, dir, Q, c, k + 1)
  {
    hide Incidence, Passed, PassedAt, Solves, Cover, Weight, Rows, RowAt;
    forall X | Solves(a, H, X)
      ensures Passed(a, X, P, dir) <==> PassedAt(a, X, Q, c, k + 1)
    {
      SkipForbidden(a, H, X, Q, c, k);
    }
  }

  lemma ForwardSame(a: Aux, H: seq<nat>, P: seq<Step>, dir: int, Q: seq<Step>, c: nat, k: nat)
    requires Incidence(a) && StepsOk(P) && StepsOk(Q) && c < COLS && k < 9 && SameAt(a, H, P, dir, Q, c, k)
    ensures StepsOk(Q + [Step(c, k)]) && SamePassed(a, H, P, dir, Q + [Step(c, k)], 1)
  {
    hide Incidence, Passed, PassedAt, Solves;
    forall X | Solves(a, H, X)
      ensures Passed(a, X, P, dir) <==> Passed(a, X, Q + [Step(c, k)], 1)
    {
      PassedForward(a, X, Q, c, k);
    }
  }

  lemma ExhaustedSame(a: Aux, H: seq<nat>, P: seq<Step>, dir: int, Q: seq<Step>, c: nat)
    requires Incidence(a) && StepsOk(P) && StepsOk(Q) && c < COLS && SameAt(a, H, P, dir, Q, c, 9)
    ensures SamePassed(a, H, P, dir, Q, -1)
  {
    hide Incidence, Passed, PassedAt, Solves;
    forall X | Solves(a, H, X)
      ensures Passed(a, X, P, dir) <==> Passed(a, X, Q, -1)
    {
      AllTried(a, H, X, Q, c);
    }
  }

  /** An unused constraint without a free choice ends the path. */
  lemma {:induction false} DeadEndFrom(a: Aux, H: seq<nat>, P: seq<Step>, c: nat, k: nat)
    requires Incidence(a) && RowsOk(H) && StepsOk(P) && c < COLS && k <= 9 && SameAt(a, H, P, 1, P, c, k)
    requires Cover(a, Rows(a, H, P), c) == 0
    requires forall j :: 0 <= j < 9 ==> Weight(a, Rows(a, H, P), RowAt(a, c, j)) > 0
    ensures SamePassed(a, H, P, 1, P, -1)
    decreases 9 - k
  {
    hide Incidence, SameAt, SamePassed, Cover, Weight, Rows, RowAt;
    if k == 9 {
      ExhaustedSame(a, H, P, 1, P, c);
    } else {
      SkipSame(a, H, P, 1, P, c, k);
      DeadEndFrom(a, H, P, c, k + 1);
    }
  }

  lemma SameTrans(a: Aux, H: seq<nat>, P: seq<Step>, d: int, Q: seq<Step>, e: int, R: seq<Step>, f: int)
    requires Incidence(a) && StepsOk(P) && StepsOk(Q) && StepsOk(R)
    requires SamePassed(a, H, P, d, Q, e) && SamePassed(a, H, Q, e, R, f)
    ensures SamePassed(a, H, P, d, R, f)
  {
    hide Incidence, Passed, Solves;
  }

  lemma SameSelf(a: Aux, H: seq<nat>, P: seq<Step>, d: int)
    requires Incidence(a) && StepsOk(P)
    ensures SamePassed(a, H, P, d, P, d)
  {
    hide Incidence, Passed, Solves;
  }

  // ---------- how much search is left ----------

  /** The steps needed to search below a node with `d` levels left. */
  ghost function Ahead(d: nat): (n: nat)
    ensures n > 0
  {
    if d == 0 then 1 else 9 * (Ahead(d - 1) + 1)
  }

  /** The steps left to the right of a path. */
  ghost function Left(P: seq<Step>, N: nat): nat
    requires StepsOk(P) && |P| <= N
  {
    if P == [] then 0 else Left(P[..|P| - 1], N) + (8 - P[|P| - 1].idx) * (Ahead(N - |P|) + 1)
  }

  ghost function Work(P: seq<Step>, N: nat, dir: int): nat
    requires StepsOk(P) && |P| <= N
  {
    Left(P, N) + if dir == 1 then Ahead(N - |P|) else 0
  }

  ghost function WorkAt(Q: seq<Step>, N: nat, k: nat): nat
    requires StepsOk(Q) && |Q| < N && k <= 9
  {
    Left(Q, N) + (9 - k) * (Ahead(N - |Q| - 1) + 1)
  }

  lemma WorkSteps(Q: seq<Step>, N: nat, c: nat, k: nat)
    requires StepsOk(Q) && |Q| < N && c < COLS && k < 9
    ensures StepsOk(Q + [Step(c, k)])
    ensures WorkAt(Q, N, 0) == Work(Q, N, 1) && WorkAt(Q, N, 9) == Work(Q, N, -1)
    ensures WorkAt(Q, N, k + 1) == Work(Q + [Step(c, k)], N, -1)
    ensures Work(Q + [Step(c, k)], N, 1) < WorkAt(Q, N, k)
  {
    hide Left, Ahead;
    NextLeft(Q, N, c, k);
    AheadIs(N - |Q|);
    Steps(k, Ahead(N - |Q| - 1) + 1);
  }

  lemma NextLeft(Q: seq<Step>, N: nat, c: nat, k: nat)
    requires StepsOk(Q) && |Q| < N && c < COLS && k < 9
    ensures StepsOk(Q + [Step(c, k)])
    ensures Left(Q + [Step(c, k)], N) == Left(Q, N) + (8 - k) * (Ahead(N - |Q| - 1) + 1)
  {
    assert (Q + [Step(c, k)])[..|Q|] == Q;
    hide Ahead;
  }

  lemma AheadIs(d: nat)
    requires d > 0
    ensures Ahead(d) == 9 * (Ahead(d - 1) + 1)
  {}

  lemma Steps(k: nat, w: nat)
    requires k < 9 && w > 0
    ensures (9 - k) * w == (8 - k) * w + w && (9 - (k + 1)) * w == (8 - k) * w && (9 - 0) * w == 9 * w && (9 - 9) * w == 0
  {}

  lemma WorkLess(Q: seq<Step>, N: nat, j: nat, k: nat)
    requires StepsOk(Q) && |Q| < N && j <= k <= 9
    ensures WorkAt(Q, N, k) <= WorkAt(Q, N, j)
    ensures j < k ==> WorkAt(Q, N, k) < WorkAt(Q, N, j)
  {
    var w := Ahead(N - |Q| - 1) + 1;
    assert (9 - j) * w == (9 - k) * w + (k - j) * w;
    assert (k - j) * w >= (if j < k then 1 else 0);
    hide Left, Ahead;
  }
}
