/** Which bodies the compiler accepts, told from the jumps they leave unmatched. */
module ControlAccepted {
  import opened ControlFlow

  datatype Jump = OnBreak | OnContinue | OnGoto(name: nat)

  /** The jumps of a statement that nothing in it is the target of. */
  function Free(p: Stm): set<Jump>
    decreases p, 0
  {
    match p
    case Act(_) => {}
    case Seq(b) => FreeAll(b)
    case Exit(l, b) => FreeAll(b) - {OnGoto(l)}
    case Redo(l, b) => FreeAll(b) - {OnGoto(l)}
    case If(_, x) => Free(x)
    case IfElse(_, x, y) => Free(x) + Free(y)
    case While(_, b) => Free(b) - {OnBreak, OnContinue}
    case Do(b, _) => Free(b) - {OnBreak, OnContinue}
    case For(_, _, _, b) => Free(b) - {OnBreak, OnContinue}
    case Switch(_, cs) => FreeClauses(cs) - {OnBreak}
    case Break => {OnBreak}
    case Continue => {OnContinue}
    case Goto(l) => {OnGoto(l)}
    case Return(_) => {}
  }

  function FreeAll(b: Stms): set<Jump>
    decreases b, 0
  {
    match b
    case Nil => {}
    case Cons(p, rest) => Free(p) + FreeAll(rest)
  }

  function FreeClauses(cs: Clauses): set<Jump>
    decreases cs, 0
  {
    match cs
    case NoClauses => {}
    case Clause(_, b, rest) => FreeAll(b) + FreeClauses(rest)
  }

  /** The values of the clauses in order; a default has none. */
  function Values(cs: Clauses): seq<Option<i32>> {
    match cs
    case NoClauses => []
    case Clause(v, _, rest) => [v] + Values(rest)
  }

  predicate AllDifferent(vs: seq<Option<i32>>) { forall i, j :: 0 <= i < j < |vs| ==> vs[i] != vs[j] }

  /** No switch has two clauses for one value, or two defaults. */
  predicate OneCase(p: Stm)
    decreases p, 0
  {
    match p
    case Seq(b) => OneCaseAll(b)
    case Exit(_, b) => OneCaseAll(b)
    case Redo(_, b) => OneCaseAll(b)
    case If(_, x) => OneCase(x)
    case IfElse(_, x, y) => OneCase(x) && OneCase(y)
    case While(_, b) => OneCase(b)
    case Do(b, _) => OneCase(b)
    case For(_, _, _, b) => OneCase(b)
    case Switch(_, cs) => AllDifferent(Values(cs)) && OneCaseClauses(cs)
    case _ => true
  }

  predicate OneCaseAll(b: Stms)
    decreases b, 0
  {
    b.Cons? ==> OneCase(b.head) && OneCaseAll(b.tail)
  }

  predicate OneCaseClauses(cs: Clauses)
    decreases cs, 0
  {
    cs.Clause? ==> OneCaseAll(cs.body) && OneCaseClauses(cs.rest)
  }

  /** A jump has a target outside. */
  predicate HasTarget(j: Jump, bk: bool, ct: bool, names: set<nat>) {
    match j
    case OnBreak => bk
    case OnContinue => ct
    case OnGoto(l) => l in names
  }

  ghost predicate AllHave(js: set<Jump>, bk: bool, ct: bool, names: set<nat>) { forall j :: j in js ==> HasTarget(j, bk, ct, names) }

  lemma HaveLoop(js: set<Jump>, bk: bool, ct: bool, names: set<nat>)
    ensures AllHave(js - {OnBreak, OnContinue}, bk, ct, names) <==> AllHave(js, true, true, names)
  {
    if AllHave(js - {OnBreak, OnContinue}, bk, ct, names) {
      forall j | j in js
        ensures HasTarget(j, true, true, names)
      {
        if j.OnGoto? { assert j in js - {OnBreak, OnContinue} && HasTarget(j, bk, ct, names); }
      }
    }
    if AllHave(js, true, true, names) {
      forall j | j in js - {OnBreak, OnContinue}
        ensures HasTarget(j, bk, ct, names)
      {
        assert HasTarget(j, true, true, names);
      }
    }
  }

  lemma HaveSwitch(js: set<Jump>, bk: bool, ct: bool, names: set<nat>)
    ensures AllHave(js - {OnBreak}, bk, ct, names) <==> AllHave(js, true, ct, names)
  {
    if AllHave(js - {OnBreak}, bk, ct, names) {
      forall j | j in js
        ensures HasTarget(j, true, ct, names)
      {
        if !j.OnBreak? { assert j in js - {OnBreak} && HasTarget(j, bk, ct, names); }
      }
    }
    if AllHave(js, true, ct, names) {
      forall j | j in js - {OnBreak}
        ensures HasTarget(j, bk, ct, names)
      {
        assert HasTarget(j, true, ct, names);
      }
    }
  }

  lemma HaveLabel(js: set<Jump>, l: nat, bk: bool, ct: bool, names: set<nat>)
    ensures AllHave(js - {OnGoto(l)}, bk, ct, names) <==> AllHave(js, bk, ct, names + {l})
  {
    if AllHave(js - {OnGoto(l)}, bk, ct, names) {
      forall j | j in js
        ensures HasTarget(j, bk, ct, names + {l})
      {
        if j != OnGoto(l) { assert j in js - {OnGoto(l)} && HasTarget(j, bk, ct, names); }
      }
    }
    if AllHave(js, bk, ct, names + {l}) {
      forall j | j in js - {OnGoto(l)}
        ensures HasTarget(j, bk, ct, names)
      {
        assert HasTarget(j, bk, ct, names + {l});
      }
    }
  }

  lemma HaveBoth(js: set<Jump>, ks: set<Jump>, bk: bool, ct: bool, names: set<nat>)
    ensures AllHave(js + ks, bk, ct, names) <==> AllHave(js, bk, ct, names) && AllHave(ks, bk, ct, names)
  {
    hide HasTarget;
    if AllHave(js + ks, bk, ct, names) {
      forall j | j in js
        ensures HasTarget(j, bk, ct, names)
      {
        assert j in js + ks;
      }
      forall j | j in ks
        ensures HasTarget(j, bk, ct, names)
      {
        assert j in js + ks;
      }
    }
  }

  lemma {:induction false} ValueListed(cs: Clauses, w: Option<i32>)
    ensures HasValue(cs, w) <==> w in Values(cs)
  {
    if cs.Clause? { ValueListed(cs.rest, w); }
  }

  lemma {:induction false} DistinctIff(cs: Clauses)
    ensures Distinct(cs) <==> AllDifferent(Values(cs))
  {
    if cs.Clause? {
      DistinctIff(cs.rest);
      ValueListed(cs.rest, cs.value);
      Unequal(cs.value, Values(cs.rest));
      assert Values(cs) == [cs.value] + Values(cs.rest);
      hide Values, Distinct, HasValue, AllDifferent;
    }
  }

  lemma Unequal(v: Option<i32>, vs: seq<Option<i32>>)
    ensures AllDifferent([v] + vs) <==> v !in vs && AllDifferent(vs)
  {
    var all := [v] + vs;
    if AllDifferent(all) {
      forall i | 0 <= i < |vs|
        ensures vs[i] != v
      {
        assert all[0] != all[i + 1];
      }
      forall i, j | 0 <= i < j < |vs|
        ensures vs[i] != vs[j]
      {
        assert all[i + 1] != all[j + 1];
      }
    }
  }

  /** A statement is accepted where all its unmatched jumps have targets, if no switch of it has a case twice. */
  lemma {:induction false} AcceptsIff(p: Stm, bk: bool, ct: bool, names: set<nat>)
    ensures Accepts(p, bk, ct, names) <==> OneCase(p) && AllHave(Free(p), bk, ct, names)
    decreases p, 0
  {
    hide AllHave, HasTarget;
    match p
    case Act(_) => HaveOne(bk, ct, names, 0);
    case Seq(b) => AllAcceptIff(b, bk, ct, names);
    case Exit(l, b) => AllAcceptIff(b, bk, ct, names + {l}); HaveLabel(FreeAll(b), l, bk, ct, names);
    case Redo(l, b) => AllAcceptIff(b, bk, ct, names + {l}); HaveLabel(FreeAll(b), l, bk, ct, names);
    case If(_, x) => AcceptsIff(x, bk, ct, names);
    case IfElse(_, x, y) => AcceptsIff(x, bk, ct, names); AcceptsIff(y, bk, ct, names); HaveBoth(Free(x), Free(y), bk, ct, names);
    case While(_, b) => AcceptsIff(b, true, true, names); HaveLoop(Free(b), bk, ct, names);
    case Do(b, _) => AcceptsIff(b, true, true, names); HaveLoop(Free(b), bk, ct, names);
    case For(_, _, _, b) => AcceptsIff(b, true, true, names); HaveLoop(Free(b), bk, ct, names);
    case Switch(_, cs) =>
      hide Distinct, Values, AllDifferent;
      DistinctIff(cs);
      ClausesAcceptIff(cs, true, ct, names);
      HaveSwitch(FreeClauses(cs), bk, ct, names);
    case Break => HaveOne(bk, ct, names, 0);
    case Continue => HaveOne(bk, ct, names, 0);
    case Goto(l) => HaveOne(bk, ct, names, l);
    case Return(_) => HaveOne(bk, ct, names, 0);
  }

  lemma HaveOne(bk: bool, ct: bool, names: set<nat>, l: nat)
    ensures AllHave({}, bk, ct, names) && (AllHave({OnBreak}, bk, ct, names) <==> bk) && (AllHave({OnContinue}, bk, ct, names) <==> ct)
    ensures AllHave({OnGoto(l)}, bk, ct, names) <==> l in names
  {
    assert HasTarget(OnBreak, bk, ct, names) <==> bk;
    assert HasTarget(OnContinue, bk, ct, names) <==> ct;
    assert HasTarget(OnGoto(l), bk, ct, names) <==> l in names;
    assert OnBreak in {OnBreak} && OnContinue in {OnContinue} && OnGoto(l) in {OnGoto(l)};
  }

  lemma {:induction false} AllAcceptIff(b: Stms, bk: bool, ct: bool, names: set<nat>)
    ensures AcceptsAll(b, bk, ct, names) <==> OneCaseAll(b) && AllHave(FreeAll(b), bk, ct, names)
    decreases b, 0
  {
    hide AllHave, Free, Accepts, OneCase;
    match b
    case Nil => HaveOne(bk, ct, names, 0);
    case Cons(p, rest) =>
      AcceptsIff(p, bk, ct, names);
      AllAcceptIff(rest, bk, ct, names);
      HaveBoth(Free(p), FreeAll(rest), bk, ct, names);
  }

  lemma {:induction false} ClausesAcceptIff(cs: Clauses, bk: bool, ct: bool, names: set<nat>)
    ensures AcceptsClauses(cs, bk, ct, names) <==> OneCaseClauses(cs) && AllHave(FreeClauses(cs), bk, ct, names)
    decreases cs, 0
  {
    hide AllHave, FreeAll, AcceptsAll, OneCaseAll;
    match cs
    case NoClauses => HaveOne(bk, ct, names, 0);
    case Clause(_, b, rest) =>
      AllAcceptIff(b, bk, ct, names);
      ClausesAcceptIff(rest, bk, ct, names);
      HaveBoth(FreeAll(b), FreeClauses(rest), bk, ct, names);
  }

  /** A body is accepted exactly when it leaves no jump unmatched and no switch in it has a case twice. */
  lemma BodyAccepted(p: Stm)
    ensures Accepts(p, false, false, {}) <==> OneCase(p) && Free(p) == {}
  {
    hide Accepts, OneCase, Free;
    AcceptsIff(p, false, false, {});
    if Free(p) != {} {
      var j :| j in Free(p);
      assert !HasTarget(j, false, false, {});
    }
  }
}
