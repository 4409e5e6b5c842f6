/** Jump tables: `br_table` code for a sorted case list, against the case list itself. */
module SwitchTable {
  import opened ControlFlow

  /** Strictly ascending values: what sorting leaves once duplicates are refused. */
  predicate Sorted(cases: seq<(i32, Label)>) {
    forall i, j :: 0 <= i < j < |cases| ==> cases[i].0 < cases[j].0
  }

  /** 32-bit wrap-around, signed and unsigned. */
  function Wrap(x: int): i32 {
    var m := x % 0x1_0000_0000;
    if m < 0x8000_0000 then m else m - 0x1_0000_0000
  }

  function Unsigned(v: i32): nat { if v < 0 then v + 0x1_0000_0000 else v }

  /** Where `br_table` jumps for an index. */
  function TableTarget(ls: seq<Label>, d: Label, i: i32): Label {
    if Unsigned(i) < |ls| then ls[Unsigned(i)] else d
  }

  /** The table covers the case span, gaps filled with the default; too many gaps and there is none. */
  function TableOf(cases: seq<(i32, Label)>, d: Label): Option<seq<Label>> {
    if |cases| < 2 then None
    else
      var first: int, span: int := cases[0].0, (cases[|cases| - 1].0 as int) - cases[0].0 + 1;
      if span < 0 || span - |cases| > |cases| + 1 then None
      else Some(seq(span, k => Lookup(cases, first + k, d)))
  }

  lemma {:induction false} LookupFound(cases: seq<(i32, Label)>, i: nat, d: Label)
    requires Sorted(cases) && i < |cases|
    ensures Lookup(cases, cases[i].0, d) == cases[i].1
  {
    if i > 0 { LookupFound(cases[1..], i - 1, d); }
  }

  lemma {:induction false} LookupMissing(cases: seq<(i32, Label)>, v: int, d: Label)
    requires forall i :: 0 <= i < |cases| ==> cases[i].0 != v
    ensures Lookup(cases, v, d) == d
  {
    if cases != [] { LookupMissing(cases[1..], v, d); }
  }

  lemma LookupBetween(cases: seq<(i32, Label)>, i: nat, v: int, d: Label)
    requires Sorted(cases) && i <= |cases|
    requires (i > 0 ==> cases[i - 1].0 < v) && (i < |cases| ==> v < cases[i].0)
    ensures Lookup(cases, v, d) == d
  {
    LookupMissing(cases, v, d);
  }

  lemma Distance(v: i32, first: i32)
    ensures Unsigned(Wrap(v - first)) == if first <= v then v - first else v - first + 0x1_0000_0000
  {}

  /** Subtracting the lowest case modulo 2^32 and indexing unsigned selects what the case list does,
      for every selector. */
  lemma TableSelects(cases: seq<(i32, Label)>, d: Label, v: i32)
    requires Sorted(cases) && TableOf(cases, d).Some?
    ensures TableTarget(TableOf(cases, d).value, d, Wrap(v - cases[0].0)) == Lookup(cases, v, d)
  {
    var first, last := cases[0].0, cases[|cases| - 1].0;
    Distance(v, first);
    hide Wrap, Unsigned, Lookup;
    if v < first {
      LookupBetween(cases, 0, v, d);
    } else if v > last {
      LookupBetween(cases, |cases|, v, d);
    }
  }

  /** There is a table exactly when there are two cases or more and the greatest is at most twice their number above the
      lowest; it has an entry for each value between them. */
  lemma TableSize(cases: seq<(i32, Label)>, d: Label)
    requires Sorted(cases) && cases != []
    ensures var first: int, last: int := cases[0].0, cases[|cases| - 1].0;
            && (TableOf(cases, d).Some? <==> |cases| >= 2 && last - first <= 2 * |cases|)
            && (TableOf(cases, d).Some? ==> |cases| <= |TableOf(cases, d).value| == last - first + 1)
  {
    SortedSpan(cases, |cases| - 1);
  }

  lemma {:induction false} SortedSpan(cases: seq<(i32, Label)>, i: nat)
    requires Sorted(cases) && i < |cases|
    ensures cases[i].0 - cases[0].0 >= i
  {
    if i > 0 { SortedSpan(cases, i - 1); }
  }

  datatype TableResult = Table(ls: seq<Label>) | Sparse | AssertionFails

  /** Case `k` is the first to need more default entries than allowed before it. */
  predicate GivesUpAt(cases: seq<(i32, Label)>, k: nat) {
    && 1 <= k < |cases|
    && cases[k].0 - cases[0].0 - k > |cases| + 1
    && cases[k - 1].0 - cases[0].0 - (k - 1) <= |cases| + 1
  }

  /** The distance of case `k` from the lowest case is taken in 32 bits and comes out negative. */
  predicate Overflows(cases: seq<(i32, Label)>, k: nat) {
    k < |cases| && (cases[k].0 as int) - cases[0].0 >= 0x8000_0000
  }

  /** `compile_switch_table`: the label list, `Sparse` for no table, or the failed assertion that a case's
      distance from the lowest one is not negative in 32 bits. */
  method CompileTable(cases: seq<(i32, Label)>, d: Label) returns (r: TableResult)
    requires Sorted(cases) && |cases| < 0x1000_0000
    ensures r.AssertionFails? <==> exists k: nat :: GivesUpAt(cases, k) && Overflows(cases, k)
    ensures !r.AssertionFails? ==> r == match TableOf(cases, d) case Some(ls) => Table(ls) case None => Sparse
  {
    var cc := |cases| + 1;
    if cc < 3 { return Sparse; }
    var off := cases[0].0;
    var ls, curidx, dfillc := [], 0, 0;
    var i := 0;
    while i < |cases|
      invariant 0 <= i <= |cases|
      invariant curidx == (if i == 0 then 0 else cases[i - 1].0 - off + 1)
      invariant dfillc == curidx - i <= cc && |ls| == curidx
      invariant forall k :: 0 <= k < curidx ==> ls[k] == Lookup(cases, off + k, d)
    {
      SortedSpan(cases, i);
      var idx := Wrap(cases[i].0 - off);
      if idx < 0 {
        assert GivesUpAt(cases, i) && Overflows(cases, i);
        return AssertionFails;
      }
      while curidx < idx
        invariant (if i == 0 then 0 else cases[i - 1].0 - off + 1) <= curidx <= idx
        invariant dfillc == curidx - i <= cc && |ls| == curidx
        invariant forall k :: 0 <= k < curidx ==> ls[k] == Lookup(cases, off + k, d)
      {
        LookupBetween(cases, i, off + curidx, d);
        ls := ls + [d];
        curidx, dfillc := curidx + 1, dfillc + 1;
        if dfillc > cc {
          StillSparse(cases, i);
          return Sparse;
        }
      }
      LookupFound(cases, i, d);
      ls := ls + [cases[i].1];
      curidx := curidx + 1;
      i := i + 1;
    }
    NeverGaveUp(cases);
    return Table(ls);
  }

  lemma {:induction false} GapsGrow(cases: seq<(i32, Label)>, i: nat, j: nat)
    requires Sorted(cases) && i <= j < |cases|
    ensures cases[i].0 - i <= cases[j].0 - j
    decreases j - i
  {
    if i < j { GapsGrow(cases, i, j - 1); }
  }

  lemma StillSparse(cases: seq<(i32, Label)>, i: nat)
    requires Sorted(cases) && 1 <= i < |cases| < 0x1000_0000
    requires cases[i].0 - cases[0].0 - i > |cases| + 1 && !Overflows(cases, i)
    requires cases[i - 1].0 - cases[0].0 - (i - 1) <= |cases| + 1
    ensures cases[|cases| - 1].0 - cases[0].0 + 1 - |cases| > |cases| + 1
    ensures forall k: nat :: GivesUpAt(cases, k) ==> !Overflows(cases, k)
  {
    GapsGrow(cases, i, |cases| - 1);
    forall k: nat | GivesUpAt(cases, k)
      ensures k == i
    {
      if k < i { GapsGrow(cases, k, i - 1); }
      if k > i { GapsGrow(cases, i, k - 1); }
    }
  }

  lemma NeverGaveUp(cases: seq<(i32, Label)>)
    requires Sorted(cases) && cases != []
    requires cases[|cases| - 1].0 - cases[0].0 + 1 - |cases| <= |cases| + 1
    ensures forall k: nat :: !GivesUpAt(cases, k)
  {
    forall k: nat | GivesUpAt(cases, k)
      ensures false
    {
      GapsGrow(cases, k, |cases| - 1);
    }
  }

  /** Cases closer together than 2^31 never trip the assertion. */
  lemma NarrowNeverOverflows(cases: seq<(i32, Label)>, k: nat)
    requires Sorted(cases) && cases != [] && (cases[|cases| - 1].0 as int) - cases[0].0 < 0x8000_0000
    ensures !Overflows(cases, k)
  {
    if k < |cases| - 1 { assert cases[k].0 < cases[|cases| - 1].0; }
  }

  /** Two valid cases the compiler cannot handle: their distance does not fit in 32 bits. */
  lemma ExtremeCasesOverflow(l: Label, m: Label)
    ensures var cases: seq<(i32, Label)> := [(-0x8000_0000, l), (0x7fff_ffff, m)];
            Sorted(cases) && GivesUpAt(cases, 1) && Overflows(cases, 1)
  {}
}
