/** For which accepted bodies there is no code: told from the case values of their switches. */
module ControlStops {
  import opened ControlFlow
  import opened ControlFlowProof
  import opened SwitchTable
  import opened WasmControl
  import opened ControlAccepted
  import opened ControlPipeline

  /** The switches in a statement. */
  function SwitchesIn(p: Stm): set<Clauses>
    decreases p, 0
  {
    match p
    case Seq(b) => SwitchesInAll(b)
    case Exit(_, b) => SwitchesInAll(b)
    case Redo(_, b) => SwitchesInAll(b)
    case If(_, x) => SwitchesIn(x)
    case IfElse(_, x, y) => SwitchesIn(x) + SwitchesIn(y)
    case While(_, b) => SwitchesIn(b)
    case Do(b, _) => SwitchesIn(b)
    case For(_, _, _, b) => SwitchesIn(b)
    case Switch(_, cs) => {cs} + SwitchesInClauses(cs)
    case _ => {}
  }

  function SwitchesInAll(b: Stms): set<Clauses>
    decreases b, 0
  {
    match b
    case Nil => {}
    case Cons(p, rest) => SwitchesIn(p) + SwitchesInAll(rest)
  }

  function SwitchesInClauses(cs: Clauses): set<Clauses>
    decreases cs, 0
  {
    match cs
    case NoClauses => {}
    case Clause(_, b, rest) => SwitchesInAll(b) + SwitchesInClauses(rest)
  }

  predicate Ascending(vs: seq<i32>) { forall i, j :: 0 <= i < j < |vs| ==> vs[i] < vs[j] }

  /** The case values of a switch in ascending order. */
  ghost predicate Lists(vs: seq<i32>, cs: Clauses) { Ascending(vs) && forall v :: v in vs <==> Some(v) in Values(cs) }

  /** Some case is 2^31 or more above the lowest one and the first before which the gaps outnumber the cases by two. */
  ghost predicate Trips(vs: seq<i32>) {
    exists k :: 1 <= k < |vs| && (vs[k] as int) - vs[0] >= 0x8000_0000
                && (vs[k] as int) - vs[0] - k >= |vs| + 2 && (vs[k - 1] as int) - vs[0] - (k - 1) < |vs| + 2
  }

  function Keys(c: seq<(i32, Label)>): (vs: seq<i32>)
    ensures |vs| == |c| && forall i :: 0 <= i < |c| ==> vs[i] == c[i].0
  {
    seq(|c|, i requires 0 <= i < |c| => c[i].0)
  }

  lemma StopsIff(c: seq<(i32, Label)>)
    ensures Stops(c) <==> Trips(Keys(c))
  {
    var vs := Keys(c);
    if Stops(c) {
      var k: nat :| GivesUpAt(c, k) && Overflows(c, k);
      assert vs[k] == c[k].0 && vs[k - 1] == c[k - 1].0;
    }
    if Trips(vs) {
      var k :| 1 <= k < |vs| && (vs[k] as int) - vs[0] >= 0x8000_0000
               && (vs[k] as int) - vs[0] - k >= |vs| + 2 && (vs[k - 1] as int) - vs[0] - (k - 1) < |vs| + 2;
      assert GivesUpAt(c, k) && Overflows(c, k);
    }
  }

  lemma {:induction false} AscendingUnique(a: seq<i32>, b: seq<i32>)
    requires Ascending(a) && Ascending(b) && forall v :: v in a <==> v in b
    ensures a == b
    decreases |a|
  {
    HasSome(b);
    if a != [] {
      assert a[0] in b && b != [];
      assert b[0] in a;
      var c, d := a[1..], b[1..];
      forall v
        ensures v in c <==> v in d
      {
        Tail(a, v);
        Tail(b, v);
      }
      AscendingUnique(c, d);
      assert a == [a[0]] + c && b == [b[0]] + d;
    }
  }

  lemma HasSome(b: seq<i32>)
    ensures b != [] ==> exists v :: v in b
  {
    if b != [] { assert b[0] in b; }
  }

  lemma Tail(a: seq<i32>, v: i32)
    requires a != [] && Ascending(a)
    ensures v in a[1..] <==> v in a && v != a[0]
  {
    if v in a && v != a[0] {
      var i :| 0 <= i < |a| && a[i] == v;
      assert a[1..][i - 1] == v;
    }
    if v in a[1..] {
      var i :| 0 <= i < |a[1..]| && a[1..][i] == v;
      assert a[i + 1] == v && a[0] < a[i + 1];
    }
  }

  // ---------- the case lists of lowered code ----------

  lemma {:induction false} InsertHas(c: (i32, Label), cases: seq<(i32, Label)>, v: i32)
    ensures v in Keys(Insert(c, cases)) <==> v == c.0 || v in Keys(cases)
  {
    KeysIn(Insert(c, cases), v);
    KeysIn(cases, v);
    hide Keys;
    if cases == [] || c.0 < cases[0].0 {
      InHead(c, cases, v);
    } else {
      InsertHas(c, cases[1..], v);
      KeysIn(Insert(c, cases[1..]), v);
      KeysIn(cases[1..], v);
      InHead(cases[0], Insert(c, cases[1..]), v);
      InHead(cases[0], cases[1..], v);
      assert cases == [cases[0]] + cases[1..];
    }
  }

  ghost predicate HasKey(c: seq<(i32, Label)>, v: i32) { exists i :: 0 <= i < |c| && c[i].0 == v }

  lemma KeysIn(c: seq<(i32, Label)>, v: i32)
    ensures v in Keys(c) <==> HasKey(c, v)
  {
    if HasKey(c, v) {
      var i :| 0 <= i < |c| && c[i].0 == v;
      assert Keys(c)[i] == v;
    }
  }

  lemma InHead(c: (i32, Label), cases: seq<(i32, Label)>, v: i32)
    ensures HasKey([c] + cases, v) <==> c.0 == v || HasKey(cases, v)
  {
    var all := [c] + cases;
    if c.0 == v { assert all[0].0 == v; }
    if HasKey(cases, v) {
      var i :| 0 <= i < |cases| && cases[i].0 == v;
      assert all[i + 1].0 == v;
    }
  }

  lemma {:induction false} SortedHas(cs: Clauses, lib: seq<Target>, n: nat, v: i32)
    ensures v in Keys(SortedCases(LowerClauses(cs, lib, n).0)) <==> Some(v) in Values(cs)
  {
    hide Keys, Insert, LowerAll;
    match cs
    case NoClauses => KeysIn([], v);
    case Clause(w, b, rest) =>
      var m := LowerAll(b, lib, n + 1).1;
      SortedHas(rest, lib, m, v);
      if w.Some? { InsertHas((w.value, Gen(n)), SortedCases(LowerClauses(rest, lib, m).0), v); }
  }

  lemma SwitchLists(cs: Clauses, lib: seq<Target>, n: nat)
    requires Distinct(cs)
    ensures Lists(Keys(SortedCases(LowerClauses(cs, lib, n).0)), cs)
  {
    var c := SortedCases(LowerClauses(cs, lib, n).0);
    LoweredDistinct(cs, lib, n);
    CasesSorted(LowerClauses(cs, lib, n).0);
    hide LowerClauses, SortedCases, Distinct, Values;
    forall v
      ensures v in Keys(c) <==> Some(v) in Values(cs)
    {
      SortedHas(cs, lib, n, v);
    }
  }

  /** The case lists are those of the switches. */
  ghost predicate Matched(ls: seq<seq<(i32, Label)>>, ss: set<Clauses>) {
    && (forall c :: c in ls ==> exists cs :: cs in ss && Lists(Keys(c), cs))
    && forall cs :: cs in ss ==> exists c :: c in ls && Lists(Keys(c), cs)
  }

  lemma MatchedNone()
    ensures Matched([], {})
  {}

  lemma MatchedOne(c: seq<(i32, Label)>, cs: Clauses)
    requires Lists(Keys(c), cs)
    ensures Matched([c], {cs})
  {
    assert c in [c] && cs in {cs};
    hide Lists, Keys;
  }

  lemma MatchedBoth(ls: seq<seq<(i32, Label)>>, ss: set<Clauses>, ks: seq<seq<(i32, Label)>>, ts: set<Clauses>)
    requires Matched(ls, ss) && Matched(ks, ts)
    ensures Matched(ls + ks, ss + ts)
  {
    hide Lists, Keys;
  }

  lemma MatchedSame(ls: seq<seq<(i32, Label)>>, ks: seq<seq<(i32, Label)>>, ss: set<Clauses>)
    requires Matched(ls, ss) && forall c :: c in ks <==> c in ls
    ensures Matched(ks, ss)
  {
    hide Lists, Keys;
  }

  lemma {:induction false} TreeMatched(p: Stm, lib: seq<Target>, n: nat)
    requires OneCase(p)
    ensures Matched(CaseLists(Lower(p, lib, n).0), SwitchesIn(p))
    decreases p, 0
  {
    hide Matched, AllDifferent, Values;
    MatchedNone();
    match p
    case Act(_) =>
    case Seq(b) => AllMatched(b, lib, n);
    case Exit(l, b) => AllMatched(b, lib + [Plain(User(l))], n);
    case Redo(l, b) => AllMatched(b, lib + [Plain(User(l))], n);
    case If(_, x) => TreeMatched(x, lib, n);
    case IfElse(_, x, y) =>
      TreeMatched(x, lib, n);
      TreeMatched(y, lib, Lower(x, lib, n).1);
      MatchedBoth(CaseLists(Lower(x, lib, n).0), SwitchesIn(x), CaseLists(Lower(y, lib, Lower(x, lib, n).1).0), SwitchesIn(y));
    case While(c, b) =>
      TreeMatched(b, lib + [BreakTo(Gen(n)), ContinueTo(Gen(n + 1))], n + 2);
      WhileLists(c, Lower(b, lib + [BreakTo(Gen(n)), ContinueTo(Gen(n + 1))], n + 2).0, n);
    case Do(b, c) =>
      TreeMatched(b, lib + [BreakTo(Gen(n + 1)), ContinueTo(Gen(n + 2))], n + 3);
      DoLists(c, Lower(b, lib + [BreakTo(Gen(n + 1)), ContinueTo(Gen(n + 2))], n + 3).0, n);
    case For(x, y, z, b) =>
      TreeMatched(b, lib + [BreakTo(Gen(n + 1)), ContinueTo(Gen(n + 2))], n + 3);
      ForLists(x, y, z, Lower(b, lib + [BreakTo(Gen(n + 1)), ContinueTo(Gen(n + 2))], n + 3).0, n);
    case Switch(e, cs) => SwitchMatched(e, cs, lib, n);
    case Break =>
    case Continue =>
    case Goto(_) =>
    case Return(_) =>
  }

  lemma OneList(t: Tree)
    ensures CaseListsOf(OneTree(t)) == CaseLists(t)
  {
    assert CaseListsOf(TNil) == [];
    hide CaseLists;
  }

  lemma ConsLists(t: Tree, b: Trees)
    ensures CaseListsOf(TCons(t, b)) == CaseLists(t) + CaseListsOf(b)
  {
    hide CaseLists;
  }

  lemma SimpleLists(z: Option<nat>)
    ensures CaseLists(Simple(z)) == []
  {}

  lemma NoLists(l: Label)
    ensures CaseLists(TGoto(l)) == []
  {}

  lemma WhileLists(c: Exp, t: Tree, n: nat)
    ensures CaseLists(TExit(Gen(n), OneTree(TRedo(Gen(n + 1), OneTree(TIf(c, TSeq(TCons(t, OneTree(TGoto(Gen(n + 1)))))))))))
            == CaseLists(t)
  {
    var g := TGoto(Gen(n + 1));
    var s := TSeq(TCons(t, OneTree(g)));
    NoLists(Gen(n + 1));
    OneList(g);
    ConsLists(t, OneTree(g));
    assert CaseLists(s) == CaseLists(t);
    OneList(TIf(c, s));
    assert CaseLists(TIf(c, s)) == CaseLists(s);
    OneList(TRedo(Gen(n + 1), OneTree(TIf(c, s))));
    hide OneTree;
  }

  lemma DoLists(c: Exp, t: Tree, n: nat)
    ensures CaseLists(TExit(Gen(n + 1), OneTree(TRedo(Gen(n), TCons(TExit(Gen(n + 2), OneTree(t)), OneTree(TIf(c, TGoto(Gen(n)))))))))
            == CaseLists(t)
  {
    var x, i := TExit(Gen(n + 2), OneTree(t)), TIf(c, TGoto(Gen(n)));
    OneList(t);
    NoLists(Gen(n));
    assert CaseLists(i) == CaseLists(TGoto(Gen(n))) && CaseLists(x) == CaseListsOf(OneTree(t));
    OneList(i);
    ConsLists(x, OneTree(i));
    OneList(TRedo(Gen(n), TCons(x, OneTree(i))));
    hide OneTree;
  }

  lemma ForLists(x: Option<nat>, y: Option<Exp>, z: Option<nat>, t: Tree, n: nat)
    ensures CaseLists(TExit(Gen(n + 1), TCons(Simple(x), OneTree(TRedo(Gen(n), ForBody(y, z, t, Gen(n), Gen(n + 1), Gen(n + 2)))))))
            == CaseLists(t)
  {
    var body := ForBody(y, z, t, Gen(n), Gen(n + 1), Gen(n + 2));
    ForBodyLists(y, z, t, n);
    SimpleLists(x);
    OneList(TRedo(Gen(n), body));
    ConsLists(Simple(x), OneTree(TRedo(Gen(n), body)));
    hide OneTree, Simple, ForBody;
  }

  lemma ForBodyLists(y: Option<Exp>, z: Option<nat>, t: Tree, n: nat)
    ensures CaseListsOf(ForBody(y, z, t, Gen(n), Gen(n + 1), Gen(n + 2))) == CaseLists(t)
  {
    var i := TIf(Not(if y.Some? then y.value else One), TGoto(Gen(n + 1)));
    var x, g := TExit(Gen(n + 2), OneTree(t)), TGoto(Gen(n));
    OneList(t);
    NoLists(Gen(n));
    NoLists(Gen(n + 1));
    SimpleLists(z);
    assert CaseLists(i) == CaseLists(TGoto(Gen(n + 1))) && CaseLists(x) == CaseListsOf(OneTree(t));
    OneList(g);
    ConsLists(Simple(z), OneTree(g));
    ConsLists(x, TCons(Simple(z), OneTree(g)));
    ConsLists(i, TCons(x, TCons(Simple(z), OneTree(g))));
    hide OneTree, Simple;
  }

  lemma {:induction false} AllMatched(b: Stms, lib: seq<Target>, n: nat)
    requires OneCaseAll(b)
    ensures Matched(CaseListsOf(LowerAll(b, lib, n).0), SwitchesInAll(b))
    decreases b, 0
  {
    hide Matched, Lower, SwitchesIn, CaseLists, OneCase;
    match b
    case Nil => MatchedNone();
    case Cons(p, rest) =>
      var (t, m) := Lower(p, lib, n);
      TreeMatched(p, lib, n);
      AllMatched(rest, lib, m);
      MatchedBoth(CaseLists(t), SwitchesIn(p), CaseListsOf(LowerAll(rest, lib, m).0), SwitchesInAll(rest));
  }

  /** The case lists in the bodies of lowered clauses. */
  function BodyLists(ls: Lowered): seq<seq<(i32, Label)>> {
    match ls
    case LNil => []
    case LCons(_, _, b, rest) => CaseListsOf(b) + BodyLists(rest)
  }

  lemma {:induction false} NestHas(acc: Trees, ls: Lowered, c: seq<(i32, Label)>)
    ensures c in CaseListsOf(Nest(acc, ls)) <==> c in CaseListsOf(acc) || c in BodyLists(ls)
    decreases ls
  {
    match ls
    case LNil =>
    case LCons(_, l, b, rest) =>
      var next := Prepend(TExit(l, acc), b);
      NestHas(next, rest, c);
      ConsLists(TExit(l, acc), b);
      assert CaseLists(TExit(l, acc)) == CaseListsOf(acc);
  }

  lemma {:induction false} ClausesMatched(cs: Clauses, lib: seq<Target>, n: nat)
    requires OneCaseClauses(cs)
    ensures Matched(BodyLists(LowerClauses(cs, lib, n).0), SwitchesInClauses(cs))
    decreases cs, 0
  {
    hide Matched, LowerAll, SwitchesInAll, CaseListsOf, OneCaseAll;
    match cs
    case NoClauses => MatchedNone();
    case Clause(_, b, rest) =>
      var (t, m) := LowerAll(b, lib, n + 1);
      AllMatched(b, lib, n + 1);
      ClausesMatched(rest, lib, m);
      MatchedBoth(CaseListsOf(t), SwitchesInAll(b), BodyLists(LowerClauses(rest, lib, m).0), SwitchesInClauses(rest));
  }

  /** The case lists of a lowered switch: its own, and those in its bodies. */
  lemma NestLists(c: seq<(i32, Label)>, t: Tree, ls: Lowered, l: Label)
    requires CaseLists(t) == [c]
    ensures forall x :: x in CaseLists(TExit(l, Nest(OneTree(t), ls))) <==> x in [c] + BodyLists(ls)
  {
    OneList(t);
    hide CaseListsOf, BodyLists, Nest, OneTree;
    forall x
      ensures x in CaseListsOf(Nest(OneTree(t), ls)) <==> x in [c] + BodyLists(ls)
    {
      NestHas(OneTree(t), ls, x);
    }
  }

  lemma LowerSwitch(e: Exp, cs: Clauses, lib: seq<Target>, n: nat)
    ensures var ls := LowerClauses(cs, lib + [BreakTo(Gen(n))], n + 1).0;
            Lower(Switch(e, cs), lib, n).0 == TExit(Gen(n), Nest(OneTree(TSwitch(e, SortedCases(ls), DefaultLabel(ls, Gen(n)))), ls))
  {
    hide LowerClauses, SortedCases, DefaultLabel, Nest, OneTree;
  }

  lemma {:induction false} SwitchMatched(e: Exp, cs: Clauses, lib: seq<Target>, n: nat)
    requires AllDifferent(Values(cs)) && OneCaseClauses(cs)
    ensures Matched(CaseLists(Lower(Switch(e, cs), lib, n).0), {cs} + SwitchesInClauses(cs))
    decreases cs, 1
  {
    var lib1 := lib + [BreakTo(Gen(n))];
    hide AllDifferent, Values, Distinct, LowerClauses, SortedCases, DefaultLabel, Matched, Lower, Nest, BodyLists, SwitchesInClauses,
         Lists, Keys, OneCaseClauses, OneTree;
    var ls := LowerClauses(cs, lib1, n + 1).0;
    var c, t := SortedCases(ls), TSwitch(e, SortedCases(ls), DefaultLabel(ls, Gen(n)));
    LowerSwitch(e, cs, lib, n);
    DistinctIff(cs);
    SwitchLists(cs, lib1, n + 1);
    MatchedOne(c, cs);
    ClausesMatched(cs, lib1, n + 1);
    MatchedBoth([c], {cs}, BodyLists(ls), SwitchesInClauses(cs));
    NestLists(c, t, ls, Gen(n));
    MatchedSame([c] + BodyLists(ls), CaseLists(Lower(Switch(e, cs), lib, n).0), {cs} + SwitchesInClauses(cs));
  }

  /** There is no code for an accepted body exactly when the case values of one of its switches trip the table builder. */
  lemma NoCodeIff(p: Stm, vars: set<nat>)
    requires Accepts(p, false, false, {})
    ensures BodyCode(p, vars).None? <==> exists cs, vs :: cs in SwitchesIn(p) && Lists(vs, cs) && Trips(vs)
  {
    hide Accepts, OneCase, Free, SwitchesIn, CaseLists, Lower, Stops, Trips, Lists, Keys, Compile, Matched;
    BodyAccepted(p);
    TreeMatched(p, [], 1);
    MatchedStops(CaseLists(Lower(p, [], 1).0), SwitchesIn(p));
  }

  lemma MatchedStops(ls: seq<seq<(i32, Label)>>, ss: set<Clauses>)
    requires Matched(ls, ss)
    ensures (exists c :: c in ls && Stops(c)) <==> exists cs, vs :: cs in ss && Lists(vs, cs) && Trips(vs)
  {
    hide *;
    if c :| c in ls && Stops(c) { var cs, vs := StopsTrips(ls, ss, c); }
    if cs, vs :| cs in ss && Lists(vs, cs) && Trips(vs) { var c := TripsStops(ls, ss, cs, vs); }
  }

  lemma StopsTrips(ls: seq<seq<(i32, Label)>>, ss: set<Clauses>, c: seq<(i32, Label)>) returns (cs: Clauses, vs: seq<i32>)
    requires Matched(ls, ss) && c in ls && Stops(c)
    ensures cs in ss && Lists(vs, cs) && Trips(vs)
  {
    hide Stops, Trips, Lists, Keys;
    StopsIff(c);
    vs := Keys(c);
    cs :| cs in ss && Lists(Keys(c), cs);
  }

  lemma TripsStops(ls: seq<seq<(i32, Label)>>, ss: set<Clauses>, cs: Clauses, vs: seq<i32>) returns (c: seq<(i32, Label)>)
    requires Matched(ls, ss) && cs in ss && Lists(vs, cs) && Trips(vs)
    ensures c in ls && Stops(c)
  {
    hide Stops, Trips, Lists, Keys;
    c :| c in ls && Lists(Keys(c), cs);
    ListsOnce(vs, Keys(c), cs);
    StopsIff(c);
  }

  lemma ListsOnce(a: seq<i32>, b: seq<i32>, cs: Clauses)
    requires Lists(a, cs) && Lists(b, cs)
    ensures a == b
  {
    hide Values;
    AscendingUnique(a, b);
  }
}
