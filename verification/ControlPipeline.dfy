/** From C statements to structured WebAssembly: both passes together. */
module ControlPipeline {
  import opened ControlFlow
  import opened ControlFlowProof
  import opened SwitchTable
  import opened WasmControl

  lemma {:induction false} InsertSorted(c: (i32, Label), cases: seq<(i32, Label)>)
    requires Sorted(cases) && forall i :: 0 <= i < |cases| ==> cases[i].0 != c.0
    ensures Sorted(Insert(c, cases))
    ensures cases != [] ==> Insert(c, cases)[0].0 == if c.0 < cases[0].0 then c.0 else cases[0].0
  {
    if cases != [] && c.0 >= cases[0].0 {
      InsertSorted(c, cases[1..]);
      SortedFrom(cases[0], Insert(c, cases[1..]));
    }
  }

  lemma SortedFrom(c: (i32, Label), cases: seq<(i32, Label)>)
    requires Sorted(cases) && (cases != [] ==> c.0 < cases[0].0)
    ensures Sorted([c] + cases)
  {
    forall i | 0 <= i < |cases|
      ensures c.0 < cases[i].0
    {
      if i > 0 { assert cases[0].0 < cases[i].0; }
    }
  }

  lemma {:induction false} CasesSorted(ls: Lowered)
    requires DistinctLowered(ls)
    ensures Sorted(SortedCases(ls))
  {
    if ls.LCons? {
      CasesSorted(ls.rest);
      if ls.value.Some? {
        SortedKeys(ls.rest, ls.value.value);
        InsertSorted((ls.value.value, ls.l), SortedCases(ls.rest));
      }
    }
  }

  lemma {:induction false} NestSorted(acc: Trees, ls: Lowered)
    requires AllTablesSorted(acc) && BodiesSorted(ls)
    ensures AllTablesSorted(Nest(acc, ls))
    decreases ls
  {
    if ls.LCons? { NestSorted(Prepend(TExit(ls.l, acc), ls.body), ls.rest); }
  }

  predicate BodiesSorted(ls: Lowered) {
    ls.LCons? ==> AllTablesSorted(ls.body) && BodiesSorted(ls.rest)
  }

  /** The lowering only makes sorted case lists. */
  lemma {:induction false} LowerSorts(p: Stm, lib: seq<Target>, n: nat, bk: bool, ct: bool, names: set<nat>)
    requires Accepts(p, bk, ct, names)
    ensures TablesSorted(Lower(p, lib, n).0)
    decreases p, 0
  {
    match p
    case Act(_) =>
    case Seq(b) => LowerAllSorts(b, lib, n, bk, ct, names);
    case Exit(l, b) => LowerAllSorts(b, lib + [Plain(User(l))], n, bk, ct, names + {l});
    case Redo(l, b) => LowerAllSorts(b, lib + [Plain(User(l))], n, bk, ct, names + {l});
    case If(_, x) => LowerSorts(x, lib, n, bk, ct, names);
    case IfElse(_, x, y) =>
      LowerSorts(x, lib, n, bk, ct, names);
      LowerSorts(y, lib, Lower(x, lib, n).1, bk, ct, names);
    case While(c, b) =>
      LowerSorts(b, lib + [BreakTo(Gen(n)), ContinueTo(Gen(n + 1))], n + 2, true, true, names);
      WhileSorted(c, Lower(b, lib + [BreakTo(Gen(n)), ContinueTo(Gen(n + 1))], n + 2).0, n);
    case Do(b, c) =>
      LowerSorts(b, lib + [BreakTo(Gen(n + 1)), ContinueTo(Gen(n + 2))], n + 3, true, true, names);
      DoSorted(c, Lower(b, lib + [BreakTo(Gen(n + 1)), ContinueTo(Gen(n + 2))], n + 3).0, n);
    case For(x, y, z, b) =>
      LowerSorts(b, lib + [BreakTo(Gen(n + 1)), ContinueTo(Gen(n + 2))], n + 3, true, true, names);
      ForSorted(x, y, z, Lower(b, lib + [BreakTo(Gen(n + 1)), ContinueTo(Gen(n + 2))], n + 3).0, n);
    case Switch(e, cs) =>
      var lib1 := lib + [BreakTo(Gen(n))];
      var ls := LowerClauses(cs, lib1, n + 1).0;
      LowerClausesSort(cs, lib1, n + 1, true, ct, names);
      LoweredDistinct(cs, lib1, n + 1);
      CasesSorted(ls);
      NestSorted(OneTree(TSwitch(e, SortedCases(ls), DefaultLabel(ls, Gen(n)))), ls);
    case Break =>
    case Continue =>
    case Goto(_) =>
    case Return(_) =>
  }

  lemma OneSorted(t: Tree)
    requires TablesSorted(t)
    ensures AllTablesSorted(OneTree(t))
  {
    assert AllTablesSorted(TNil);
  }

  lemma WhileSorted(c: Exp, t: Tree, n: nat)
    requires TablesSorted(t)
    ensures TablesSorted(TExit(Gen(n), OneTree(TRedo(Gen(n + 1), OneTree(TIf(c, TSeq(TCons(t, OneTree(TGoto(Gen(n + 1)))))))))))
  {
    OneSorted(TGoto(Gen(n + 1)));
    var body := TIf(c, TSeq(TCons(t, OneTree(TGoto(Gen(n + 1))))));
    assert TablesSorted(TSeq(TCons(t, OneTree(TGoto(Gen(n + 1))))));
    OneSorted(body);
    OneSorted(TRedo(Gen(n + 1), OneTree(body)));
  }

  lemma ForBodySorted(y: Option<Exp>, z: Option<nat>, t: Tree, n: nat)
    requires TablesSorted(t)
    ensures AllTablesSorted(ForBody(y, z, t, Gen(n), Gen(n + 1), Gen(n + 2)))
  {
    OneSorted(TGoto(Gen(n)));
    OneSorted(t);
    assert TablesSorted(Simple(z));
    var tail := TCons(Simple(z), OneTree(TGoto(Gen(n))));
    assert AllTablesSorted(tail);
    assert TablesSorted(TIf(Not(if y.Some? then y.value else One), TGoto(Gen(n + 1))));
    hide OneTree, Simple;
    assert TablesSorted(TExit(Gen(n + 2), OneTree(t)));
    assert AllTablesSorted(TCons(TExit(Gen(n + 2), OneTree(t)), tail));
  }

  lemma DoSorted(c: Exp, t: Tree, n: nat)
    requires TablesSorted(t)
    ensures TablesSorted(TExit(Gen(n + 1), OneTree(TRedo(Gen(n), TCons(TExit(Gen(n + 2), OneTree(t)), OneTree(TIf(c, TGoto(Gen(n)))))))))
  {
    OneSorted(t);
    OneSorted(TIf(c, TGoto(Gen(n))));
    var body := TCons(TExit(Gen(n + 2), OneTree(t)), OneTree(TIf(c, TGoto(Gen(n)))));
    assert AllTablesSorted(body);
    OneSorted(TRedo(Gen(n), body));
  }

  lemma ForSorted(x: Option<nat>, y: Option<Exp>, z: Option<nat>, t: Tree, n: nat)
    requires TablesSorted(t)
    ensures TablesSorted(TExit(Gen(n + 1), TCons(Simple(x), OneTree(TRedo(Gen(n), ForBody(y, z, t, Gen(n), Gen(n + 1), Gen(n + 2)))))))
  {
    ForBodySorted(y, z, t, n);
    OneSorted(TRedo(Gen(n), ForBody(y, z, t, Gen(n), Gen(n + 1), Gen(n + 2))));
    assert TablesSorted(Simple(x));
    hide OneTree, Simple, ForBody;
  }

  lemma {:induction false} LowerAllSorts(b: Stms, lib: seq<Target>, n: nat, bk: bool, ct: bool, names: set<nat>)
    requires AcceptsAll(b, bk, ct, names)
    ensures AllTablesSorted(LowerAll(b, lib, n).0)
    decreases b, 0
  {
    if b.Cons? {
      LowerSorts(b.head, lib, n, bk, ct, names);
      LowerAllSorts(b.tail, lib, Lower(b.head, lib, n).1, bk, ct, names);
    }
  }

  lemma {:induction false} LowerClausesSort(cs: Clauses, lib: seq<Target>, n: nat, bk: bool, ct: bool, names: set<nat>)
    requires AcceptsClauses(cs, bk, ct, names)
    ensures BodiesSorted(LowerClauses(cs, lib, n).0)
    decreases cs, 0
  {
    if cs.Clause? {
      LowerAllSorts(cs.body, lib, n + 1, bk, ct, names);
      LowerClausesSort(cs.rest, lib, LowerAll(cs.body, lib, n + 1).1, bk, ct, names);
    }
  }

  // ---------- the whole body ----------

  /** The table builder stops at its assertion on this case list. */
  ghost predicate Stops(cases: seq<(i32, Label)>) { exists k: nat :: GivesUpAt(cases, k) && Overflows(cases, k) }

  /** The case lists of all switches of a tree. */
  function CaseLists(t: Tree): seq<seq<(i32, Label)>>
    decreases t
  {
    match t
    case TSeq(b) => CaseListsOf(b)
    case TExit(_, b) => CaseListsOf(b)
    case TRedo(_, b) => CaseListsOf(b)
    case TIf(_, x) => CaseLists(x)
    case TIfElse(_, x, y) => CaseLists(x) + CaseLists(y)
    case TSwitch(_, cases, _) => [cases]
    case _ => []
  }

  function CaseListsOf(b: Trees): seq<seq<(i32, Label)>>
    decreases b
  {
    if b.TCons? then CaseLists(b.head) + CaseListsOf(b.tail) else []
  }

  /** The WebAssembly code of an accepted function body; none when the compiler stops at a switch. */
  ghost function BodyCode(p: Stm, vars: set<nat>): Option<Code> {
    var t := Lower(p, [], 1).0;
    if exists c :: c in CaseLists(t) && Stops(c) then None else Some(Compile(t, vars, 0).0)
  }

  /** For every statement tree, every meaning of its expressions and every starting state: the code, if there is any,
      ends normally, returns, or is still looping after `f` repetitions exactly when the statement
      does, in the same state, and it never gets stuck or branches out of the function. */
  lemma BodyCodeRunsLikeSource<S(!new)>(E: Env<S>, p: Stm, vars: set<nat>, s: S, stack: seq<i32>, temps: map<nat, i32>, f: nat)
    requires Accepts(p, false, false, {}) && PureReads(E, vars) && BodyCode(p, vars).Some?
    ensures var o := Run(E, p, s, f);
            var w := RunCode(E, BodyCode(p, vars).value, s, stack, temps, f);
            && (o.Normal? || o.Returning? || o.Timeout?)
            && (o.Normal? ==> w.WNormal? && w.s == o.s && w.stack == stack)
            && (o.Returning? ==> w == WReturn(o.s))
            && (o.Timeout? ==> w == WTimeout)
  {
    hide CaseLists;
    JumpsHaveTargets(E, p, false, false, {}, s, f);
    BodyKeepsRuns(E, p, s, f);
    LowerSorts(p, [], 1, false, false, {});
    CompileKeepsRuns(E, Lower(p, [], 1).0, vars, 0, s, stack, temps, f);
  }
}
