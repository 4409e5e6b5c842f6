/** Lowered statements run exactly like their source, step for step of every loop. */
module ControlFlowProof {
  import opened ControlFlow

  /** The same exit, as the lowered code takes it: break and continue have become jumps. */
  function Jump<S>(o: Out<S>, lib: seq<Target>): Out<S> {
    match o
    case Breaking(s) => Going(JumpLabel(FindBreak(lib)), s)
    case Continuing(s) => Going(JumpLabel(FindContinue(lib)), s)
    case _ => o
  }

  /** All generated labels in scope are older than `n`, and only they are break and continue targets. */
  predicate Older(lib: seq<Target>, n: nat) {
    && n >= 1
    && forall i :: 0 <= i < |lib| ==>
         (if lib[i].Plain? then lib[i].l.User? else lib[i].l.Gen? && lib[i].l.index < n)
  }

  lemma {:induction false} TargetsOlder(lib: seq<Target>, n: nat)
    requires Older(lib, n)
    ensures JumpLabel(FindBreak(lib)).Gen? && JumpLabel(FindBreak(lib)).index < n
    ensures JumpLabel(FindContinue(lib)).Gen? && JumpLabel(FindContinue(lib)).index < n
  {
    if lib != [] { TargetsOlder(lib[..|lib| - 1], n); }
  }

  lemma PlainTarget(lib: seq<Target>, l: Label)
    ensures FindBreak(lib + [Plain(l)]) == FindBreak(lib)
    ensures FindContinue(lib + [Plain(l)]) == FindContinue(lib)
  {
    assert (lib + [Plain(l)])[..|lib|] == lib;
  }

  lemma LoopTargets(lib: seq<Target>, bl: Label, cl: Label)
    ensures FindBreak(lib + [BreakTo(bl), ContinueTo(cl)]) == Some(bl)
    ensures FindContinue(lib + [BreakTo(bl), ContinueTo(cl)]) == Some(cl)
  {
    assert (lib + [BreakTo(bl), ContinueTo(cl)])[..|lib| + 1] == lib + [BreakTo(bl)];
  }

  lemma SwitchTarget(lib: seq<Target>, bl: Label)
    ensures FindBreak(lib + [BreakTo(bl)]) == Some(bl)
    ensures FindContinue(lib + [BreakTo(bl)]) == FindContinue(lib)
  {
    assert (lib + [BreakTo(bl)])[..|lib|] == lib;
  }

  // ---------- shapes of lowered code ----------

  lemma OneTreeRun<S>(E: Env<S>, t: Tree, s: S, f: nat)
    ensures RunTs(E, OneTree(t), s, f) == RunT(E, t, s, f)
  {}

  /** A loop block inside a break block. */
  lemma LoopRun<S>(E: Env<S>, bl: Label, l: Label, body: Trees, s: S, f: nat)
    requires bl != l
    ensures var T := TExit(bl, OneTree(TRedo(l, body)));
            var o := RunTs(E, body, s, f);
            RunT(E, T, s, f)
            == if o.Going? && o.l == l then (if f == 0 then Timeout else RunT(E, T, o.s, f - 1)) else Caught(bl, o)
  {
    var R := TRedo(l, body);
    OneTreeRun(E, R, s, f);
    var o := RunTs(E, body, s, f);
    if o.Going? && o.l == l && f != 0 { OneTreeRun(E, R, o.s, f - 1); }
  }

  lemma WhileBodyRun<S>(E: Env<S>, c: Exp, t: Tree, cl: Label, s: S, f: nat)
    ensures var (v, s1) := Eval(E, c, s);
            var o := RunT(E, t, s1, f);
            RunTs(E, OneTree(TIf(c, TSeq(TCons(t, OneTree(TGoto(cl)))))), s, f)
            == if v == 0 then Normal(s1) else if o.Normal? then Going(cl, o.s) else o
  {
    var (v, s1) := Eval(E, c, s);
    var b := TCons(t, OneTree(TGoto(cl)));
    OneTreeRun(E, TIf(c, TSeq(b)), s, f);
    hide Eval;
    var o := RunT(E, t, s1, f);
    if o.Normal? { OneTreeRun(E, TGoto(cl), o.s, f); }
    assert RunT(E, TSeq(b), s1, f) == RunTs(E, b, s1, f);
  }

  lemma ConditionalJump<S>(E: Env<S>, c: Exp, l: Label, s: S, f: nat)
    ensures var (v, s1) := Eval(E, c, s);
            RunT(E, TIf(c, TGoto(l)), s, f) == if v != 0 then Going(l, s1) else Normal(s1)
  {}

  lemma DoBodyRun<S>(E: Env<S>, t: Tree, c: Exp, l: Label, cl: Label, s: S, f: nat)
    ensures var o := Caught(cl, RunT(E, t, s, f));
            RunTs(E, TCons(TExit(cl, OneTree(t)), OneTree(TIf(c, TGoto(l)))), s, f)
            == if o.Normal? then
                 (var (v, s1) := Eval(E, c, o.s); if v != 0 then Going(l, s1) else Normal(s1))
               else o
  {
    OneTreeRun(E, t, s, f);
    var o := Caught(cl, RunT(E, t, s, f));
    if o.Normal? {
      OneTreeRun(E, TIf(c, TGoto(l)), o.s, f);
      ConditionalJump(E, c, l, o.s, f);
    }
  }

  lemma SimpleRun<S>(E: Env<S>, a: Option<nat>, s: S, f: nat)
    ensures RunT(E, Simple(a), s, f) == Normal(Effect(E, a, s))
  {}

  lemma ForTailRun<S>(E: Env<S>, z: Option<nat>, l: Label, s: S, f: nat)
    ensures RunTs(E, TCons(Simple(z), OneTree(TGoto(l))), s, f) == Going(l, Effect(E, z, s))
  {
    SimpleRun(E, z, s, f);
    OneTreeRun(E, TGoto(l), Effect(E, z, s), f);
    hide Effect, Simple;
  }

  lemma ForBodyRun<S>(E: Env<S>, y: Option<Exp>, z: Option<nat>, t: Tree, l: Label, bl: Label, cl: Label, s: S, f: nat)
    ensures var (v, s1) := Eval(E, if y.Some? then y.value else One, s);
            var o := Caught(cl, RunT(E, t, s1, f));
            RunTs(E, ForBody(y, z, t, l, bl, cl), s, f)
            == if v == 0 then Going(bl, s1) else if o.Normal? then Going(l, Effect(E, z, o.s)) else o
  {
    var c := if y.Some? then y.value else One;
    var (v, s1) := Eval(E, c, s);
    ConditionalJump(E, Not(c), bl, s, f);
    assert Eval(E, Not(c), s) == (if v == 0 then 1 else 0, s1);
    hide Eval;
    var tail := TCons(Simple(z), OneTree(TGoto(l)));
    if v != 0 {
      OneTreeRun(E, t, s1, f);
      var o := Caught(cl, RunT(E, t, s1, f));
      hide Simple, OneTree;
      if o.Normal? { ForTailRun(E, z, l, o.s, f); }
      assert RunTs(E, TCons(TExit(cl, OneTree(t)), tail), s1, f) == if o.Normal? then RunTs(E, tail, o.s, f) else o;
    }
  }

  // ---------- switch ----------

  lemma {:induction false} LookupInsert(c: (i32, Label), cases: seq<(i32, Label)>, v: int, d: Label)
    requires forall i :: 0 <= i < |cases| ==> cases[i].0 != c.0
    ensures Lookup(Insert(c, cases), v, d) == if c.0 == v then c.1 else Lookup(cases, v, d)
  {
    if cases != [] && c.0 >= cases[0].0 {
      LookupInsert(c, cases[1..], v, d);
      assert ([cases[0]] + Insert(c, cases[1..]))[1..] == Insert(c, cases[1..]);
    } else {
      assert ([c] + cases)[1..] == cases;
    }
  }

  predicate HasLowered(ls: Lowered, w: Option<i32>) {
    ls.LCons? && (ls.value == w || HasLowered(ls.rest, w))
  }

  predicate DistinctLowered(ls: Lowered) {
    ls.LCons? ==> !HasLowered(ls.rest, ls.value) && DistinctLowered(ls.rest)
  }

  function LabelOf(ls: Lowered, w: Option<i32>, d: Label): Label {
    match ls
    case LNil => d
    case LCons(w1, l, _, rest) => if w1 == w then l else LabelOf(rest, w, d)
  }

  lemma {:induction false} InsertKeys(c: (i32, Label), cases: seq<(i32, Label)>, v: i32)
    requires c.0 != v && forall i :: 0 <= i < |cases| ==> cases[i].0 != v
    ensures forall i :: 0 <= i < |Insert(c, cases)| ==> Insert(c, cases)[i].0 != v
  {
    if cases != [] && c.0 >= cases[0].0 { InsertKeys(c, cases[1..], v); }
  }

  lemma {:induction false} SortedKeys(ls: Lowered, v: i32)
    requires !HasLowered(ls, Some(v))
    ensures forall i :: 0 <= i < |SortedCases(ls)| ==> SortedCases(ls)[i].0 != v
  {
    if ls.LCons? {
      SortedKeys(ls.rest, v);
      if ls.value.Some? { InsertKeys((ls.value.value, ls.l), SortedCases(ls.rest), v); }
    }
  }

  /** Sorting the cases does not change which label a value selects. */
  lemma {:induction false} SortedLookup(ls: Lowered, v: i32, d: Label)
    requires DistinctLowered(ls)
    ensures Lookup(SortedCases(ls), v, d) == LabelOf(ls, Some(v), d)
  {
    if ls.LCons? {
      SortedLookup(ls.rest, v, d);
      if ls.value.Some? {
        SortedKeys(ls.rest, ls.value.value);
        LookupInsert((ls.value.value, ls.l), SortedCases(ls.rest), v, d);
      }
    }
  }

  lemma {:induction false} DefaultIsLabelOf(ls: Lowered, d: Label)
    ensures DefaultLabel(ls, d) == LabelOf(ls, None, d)
  {
    if ls.LCons? { DefaultIsLabelOf(ls.rest, d); }
  }

  lemma {:induction false} LoweredKeys(cs: Clauses, lib: seq<Target>, n: nat, w: Option<i32>)
    ensures HasLowered(LowerClauses(cs, lib, n).0, w) == HasValue(cs, w)
  {
    if cs.Clause? { LoweredKeys(cs.rest, lib, LowerAll(cs.body, lib, n + 1).1, w); }
  }

  lemma {:induction false} LoweredDistinct(cs: Clauses, lib: seq<Target>, n: nat)
    requires Distinct(cs)
    ensures DistinctLowered(LowerClauses(cs, lib, n).0)
  {
    if cs.Clause? {
      var m := LowerAll(cs.body, lib, n + 1).1;
      LoweredDistinct(cs.rest, lib, m);
      LoweredKeys(cs.rest, lib, m, cs.value);
    }
  }

  lemma {:induction false} LabelOfDefault(ls: Lowered, w: Option<i32>, d: Label, e: Label)
    ensures LabelOf(ls, w, d) == if HasLowered(ls, w) then LabelOf(ls, w, e) else d
  {
    if ls.LCons? { LabelOfDefault(ls.rest, w, d, e); }
  }

  /** The table sends a value to its case, else to the default clause, else past the switch. */
  lemma TableLabel(cs: Clauses, lib: seq<Target>, n: nat, v: i32, bl: Label)
    requires Distinct(cs)
    ensures var ls := LowerClauses(cs, lib, n).0;
            Lookup(SortedCases(ls), v, DefaultLabel(ls, bl))
            == LabelOf(ls, if HasValue(cs, Some(v)) then Some(v) else None, bl)
  {
    var ls := LowerClauses(cs, lib, n).0;
    LoweredDistinct(cs, lib, n);
    SortedLookup(ls, v, DefaultLabel(ls, bl));
    DefaultIsLabelOf(ls, bl);
    LoweredKeys(cs, lib, n, Some(v));
    LabelOfDefault(ls, Some(v), DefaultLabel(ls, bl), bl);
  }

  /** No clause label of `LowerClauses(_, _, n)` is older than `n`. */
  predicate Escapes<S>(o: Out<S>, n: nat) {
    o.Going? && o.l.Gen? ==> o.l.index < n
  }

  lemma JumpEscapes<S>(o: Out<S>, lib: seq<Target>, n: nat)
    requires Older(lib, n) && (o.Going? ==> o.l.User?)
    ensures Escapes(Jump(o, lib), n)
  {
    TargetsOlder(lib, n);
  }

  lemma {:induction false} LabelsNewer(cs: Clauses, lib: seq<Target>, n: nat, w: Option<i32>, d: Label)
    ensures var l := LabelOf(LowerClauses(cs, lib, n).0, w, d);
            l == d || (l.Gen? && l.index >= n)
  {
    if cs.Clause? { LabelsNewer(cs.rest, lib, LowerAll(cs.body, lib, n + 1).1, w, d); }
  }

  lemma NestOne<S>(E: Env<S>, acc: Trees, l: Label, b: Trees, s: S, f: nat)
    ensures var o := Caught(l, RunTs(E, acc, s, f));
            RunTs(E, Prepend(TExit(l, acc), b), s, f) == if o.Normal? then RunTs(E, b, o.s, f) else o
  {}

  /** What reaches the clauses after `acc`: falling through runs them, other exits pass them by. */
  lemma {:induction false} NestFlow<S(!new)>(E: Env<S>, acc: Trees, cs: Clauses, lib: seq<Target>, n: nat, s: S, f: nat)
    requires Older(lib, n) && AllSimulated(E, cs, lib, n, f)
    requires Escapes(RunTs(E, acc, s, f), n)
    ensures var o := RunTs(E, acc, s, f);
            RunTs(E, Nest(acc, LowerClauses(cs, lib, n).0), s, f)
            == if o.Normal? then Jump(RunClauses(E, cs, o.s, f), lib) else o
    decreases cs
  {
    if cs.Clause? {
      var (b, m) := LowerAll(cs.body, lib, n + 1);
      var o := RunTs(E, acc, s, f);
      NestOne(E, acc, Gen(n), b, s, f);
      if o.Normal? {
        TargetsOlder(lib, n);
        JumpEscapes(RunAll(E, cs.body, o.s, f), lib, n);
      }
      NestFlow(E, Prepend(TExit(Gen(n), acc), b), cs.rest, lib, m, s, f);
    }
  }

  /** A jump to the clause labelled `w` runs the clauses from there on. */
  lemma {:induction false} NestEnter<S(!new)>(E: Env<S>, acc: Trees, cs: Clauses, lib: seq<Target>, n: nat,
                                        w: Option<i32>, d: Label, s: S, f: nat)
    requires Older(lib, n) && AllSimulated(E, cs, lib, n, f) && d.Gen? && d.index < n
    requires RunTs(E, acc, s, f).Going? && RunTs(E, acc, s, f).l == LabelOf(LowerClauses(cs, lib, n).0, w, d)
    ensures var s1 := RunTs(E, acc, s, f).s;
            RunTs(E, Nest(acc, LowerClauses(cs, lib, n).0), s, f)
            == if HasValue(cs, w) then Jump(RunClauses(E, From(cs, w), s1, f), lib) else Going(d, s1)
    decreases cs
  {
    if cs.Clause? {
      var (b, m) := LowerAll(cs.body, lib, n + 1);
      var o := RunTs(E, acc, s, f);
      NestOne(E, acc, Gen(n), b, s, f);
      var acc1 := Prepend(TExit(Gen(n), acc), b);
      if cs.value == w {
        JumpEscapes(RunAll(E, cs.body, o.s, f), lib, n);
        NestFlow(E, acc1, cs.rest, lib, m, s, f);
      } else {
        LabelsNewer(cs.rest, lib, m, w, d);
        NestEnter(E, acc1, cs.rest, lib, m, w, d, s, f);
      }
    }
  }

  /** Lowered clause bodies run like their sources. */
  ghost predicate AllSimulated<S(!new)>(E: Env<S>, cs: Clauses, lib: seq<Target>, n: nat, f: nat)
    decreases cs
  {
    cs.Clause? ==>
      && (forall s :: RunTs(E, LowerAll(cs.body, lib, n + 1).0, s, f) == Jump(RunAll(E, cs.body, s, f), lib))
      && (forall s :: var o := RunAll(E, cs.body, s, f); o.Going? ==> o.l.User?)
      && AllSimulated(E, cs.rest, lib, LowerAll(cs.body, lib, n + 1).1, f)
  }

  // ---------- statements ----------

  lemma OlderGrows(lib: seq<Target>, n: nat, m: nat)
    requires Older(lib, n) && n <= m
    ensures Older(lib, m)
  {}

  lemma OlderPlain(lib: seq<Target>, n: nat, l: nat)
    requires Older(lib, n)
    ensures Older(lib + [Plain(User(l))], n)
  {}

  lemma OlderLoop(lib: seq<Target>, n: nat, b: nat, c: nat, m: nat)
    requires Older(lib, n) && n <= m && b < m && c < m
    ensures Older(lib + [BreakTo(Gen(b)), ContinueTo(Gen(c))], m)
  {}

  lemma OlderSwitch(lib: seq<Target>, n: nat)
    requires Older(lib, n)
    ensures Older(lib + [BreakTo(Gen(n))], n + 1)
  {}

  lemma WhileStep<S>(E: Env<S>, c: Exp, b: Stm, lib: seq<Target>, n: nat, s: S, f: nat)
    requires Older(lib, n)
    requires var lib1 := lib + [BreakTo(Gen(n)), ContinueTo(Gen(n + 1))];
             var s1 := Eval(E, c, s).1;
             var o := Run(E, b, s1, f);
             RunT(E, Lower(b, lib1, n + 2).0, s1, f) == Jump(o, lib1) && (o.Going? ==> o.l.User?)
    ensures var p := While(c, b);
            var (v, s1) := Eval(E, c, s);
            var o := Run(E, b, s1, f);
            RunT(E, Lower(p, lib, n).0, s, f)
            == if v == 0 then Normal(s1)
               else if o.Normal? || o.Continuing? then
                 (if f == 0 then Timeout else RunT(E, Lower(p, lib, n).0, o.s, f - 1))
               else Broken(o)
  {
    var bl, cl := Gen(n), Gen(n + 1);
    var lib1 := lib + [BreakTo(bl), ContinueTo(cl)];
    var t := Lower(b, lib1, n + 2).0;
    var body := OneTree(TIf(c, TSeq(TCons(t, OneTree(TGoto(cl))))));
    assert Lower(While(c, b), lib, n).0 == TExit(bl, OneTree(TRedo(cl, body)));
    hide *;
    LoopTargets(lib, bl, cl);
    LoopRun(E, bl, cl, body, s, f);
    WhileBodyRun(E, c, t, cl, s, f);
  }

  lemma DoStep<S>(E: Env<S>, b: Stm, c: Exp, lib: seq<Target>, n: nat, s: S, f: nat)
    requires Older(lib, n)
    requires var lib1 := lib + [BreakTo(Gen(n + 1)), ContinueTo(Gen(n + 2))];
             var o := Run(E, b, s, f);
             RunT(E, Lower(b, lib1, n + 3).0, s, f) == Jump(o, lib1) && (o.Going? ==> o.l.User?)
    ensures var p := Do(b, c);
            var o := Run(E, b, s, f);
            RunT(E, Lower(p, lib, n).0, s, f)
            == if o.Normal? || o.Continuing? then
                 var (v, s1) := Eval(E, c, o.s);
                 (if v == 0 then Normal(s1) else if f == 0 then Timeout else RunT(E, Lower(p, lib, n).0, s1, f - 1))
               else Broken(o)
  {
    var l, bl, cl := Gen(n), Gen(n + 1), Gen(n + 2);
    var lib1 := lib + [BreakTo(bl), ContinueTo(cl)];
    var t := Lower(b, lib1, n + 3).0;
    var body := TCons(TExit(cl, OneTree(t)), OneTree(TIf(c, TGoto(l))));
    assert Lower(Do(b, c), lib, n).0 == TExit(bl, OneTree(TRedo(l, body)));
    hide Lower, Run, RunT, RunTs, Eval, FindBreak, FindContinue, Older;
    LoopTargets(lib, bl, cl);
    LoopRun(E, bl, l, body, s, f);
    DoBodyRun(E, t, c, l, cl, s, f);
  }

  /** The loop of a `for`, after its initialisation. */
  function ForLoop(y: Option<Exp>, z: Option<nat>, t: Tree, n: nat): Tree {
    TExit(Gen(n + 1), OneTree(TRedo(Gen(n), ForBody(y, z, t, Gen(n), Gen(n + 1), Gen(n + 2)))))
  }

  lemma ForInit<S>(E: Env<S>, x: Option<nat>, y: Option<Exp>, z: Option<nat>, b: Stm, lib: seq<Target>, n: nat, s: S, f: nat)
    ensures var t := Lower(b, lib + [BreakTo(Gen(n + 1)), ContinueTo(Gen(n + 2))], n + 3).0;
            RunT(E, Lower(For(x, y, z, b), lib, n).0, s, f) == RunT(E, ForLoop(y, z, t, n), Effect(E, x, s), f)
  {
    var t := Lower(b, lib + [BreakTo(Gen(n + 1)), ContinueTo(Gen(n + 2))], n + 3).0;
    var R := OneTree(TRedo(Gen(n), ForBody(y, z, t, Gen(n), Gen(n + 1), Gen(n + 2))));
    assert Lower(For(x, y, z, b), lib, n).0 == TExit(Gen(n + 1), TCons(Simple(x), R));
    SimpleRun(E, x, s, f);
    hide Lower, Effect, Simple, ForBody, OneTree;
    assert RunTs(E, TCons(Simple(x), R), s, f) == RunTs(E, R, Effect(E, x, s), f);
  }

  lemma ForStep<S>(E: Env<S>, y: Option<Exp>, z: Option<nat>, b: Stm, lib: seq<Target>, n: nat, s: S, f: nat)
    requires Older(lib, n)
    requires var lib1 := lib + [BreakTo(Gen(n + 1)), ContinueTo(Gen(n + 2))];
             var s1 := Eval(E, if y.Some? then y.value else One, s).1;
             var o := Run(E, b, s1, f);
             RunT(E, Lower(b, lib1, n + 3).0, s1, f) == Jump(o, lib1) && (o.Going? ==> o.l.User?)
    ensures var t := Lower(b, lib + [BreakTo(Gen(n + 1)), ContinueTo(Gen(n + 2))], n + 3).0;
            var (v, s1) := Eval(E, if y.Some? then y.value else One, s);
            var o := Run(E, b, s1, f);
            RunT(E, ForLoop(y, z, t, n), s, f)
            == if v == 0 then Normal(s1)
               else if o.Normal? || o.Continuing? then
                 (if f == 0 then Timeout else RunT(E, ForLoop(y, z, t, n), Effect(E, z, o.s), f - 1))
               else Broken(o)
  {
    var l, bl, cl := Gen(n), Gen(n + 1), Gen(n + 2);
    var t := Lower(b, lib + [BreakTo(bl), ContinueTo(cl)], n + 3).0;
    hide Lower, Run, RunT, RunTs, Eval, Effect, FindBreak, FindContinue, Older, ForBody;
    LoopTargets(lib, bl, cl);
    LoopRun(E, bl, l, ForBody(y, z, t, l, bl, cl), s, f);
    ForBodyRun(E, y, z, t, l, bl, cl, s, f);
  }

  /** The nested blocks around a jump to the clause that `v` selects. */
  lemma SwitchNest<S(!new)>(E: Env<S>, acc: Trees, cs: Clauses, lib: seq<Target>, n: nat, v: i32, s: S, f: nat)
    requires Older(lib, n) && Distinct(cs) && AllSimulated(E, cs, lib, n, f)
    requires var ls := LowerClauses(cs, lib, n).0;
             n > 1 && RunTs(E, acc, s, f).Going?
             && RunTs(E, acc, s, f).l == Lookup(SortedCases(ls), v, DefaultLabel(ls, Gen(n - 1)))
    ensures var s1 := RunTs(E, acc, s, f).s;
            var o := RunTs(E, Nest(acc, LowerClauses(cs, lib, n).0), s, f);
            o == Jump(RunClauses(E, Enter(cs, v), s1, f), lib)
            || (o == Going(Gen(n - 1), s1) && Enter(cs, v) == NoClauses)
  {
    hide LowerClauses, Nest, RunTs, FindBreak, FindContinue, Older, SortedCases, DefaultLabel, LabelOf, AllSimulated, Enter, From, Lookup, Distinct, HasValue;
    var w := if HasValue(cs, Some(v)) then Some(v) else None;
    TableLabel(cs, lib, n, v, Gen(n - 1));
    NestEnter(E, acc, cs, lib, n, w, Gen(n - 1), s, f);
    EnterFrom(cs, v);
  }

  lemma SwitchShape<S>(E: Env<S>, e: Exp, cs: Clauses, lib: seq<Target>, n: nat, s: S, f: nat)
    ensures var ls := LowerClauses(cs, lib + [BreakTo(Gen(n))], n + 1).0;
            var acc := OneTree(TSwitch(e, SortedCases(ls), DefaultLabel(ls, Gen(n))));
            var (v, s1) := Eval(E, e, s);
            && RunTs(E, acc, s, f) == Going(Lookup(SortedCases(ls), v, DefaultLabel(ls, Gen(n))), s1)
            && RunT(E, Lower(Switch(e, cs), lib, n).0, s, f) == Caught(Gen(n), RunTs(E, Nest(acc, ls), s, f))
  {
    var ls := LowerClauses(cs, lib + [BreakTo(Gen(n))], n + 1).0;
    OneTreeRun(E, TSwitch(e, SortedCases(ls), DefaultLabel(ls, Gen(n))), s, f);
    hide SortedCases, DefaultLabel, LowerClauses, Lookup, Eval, Nest;
  }

  lemma SwitchStep<S(!new)>(E: Env<S>, e: Exp, cs: Clauses, lib: seq<Target>, n: nat, s: S, f: nat)
    requires Older(lib, n) && Distinct(cs)
    requires AllSimulated(E, cs, lib + [BreakTo(Gen(n))], n + 1, f)
    requires var (v, s1) := Eval(E, e, s); var o := RunClauses(E, Enter(cs, v), s1, f); o.Going? ==> o.l.User?
    ensures RunT(E, Lower(Switch(e, cs), lib, n).0, s, f) == Jump(Run(E, Switch(e, cs), s, f), lib)
  {
    hide Lower, LowerClauses, Nest, RunT, RunTs, Eval, FindBreak, FindContinue, Older, OneTree, SortedCases, DefaultLabel, AllSimulated, Enter, Lookup, Distinct;
    var lib1 := lib + [BreakTo(Gen(n))];
    var ls := LowerClauses(cs, lib1, n + 1).0;
    var acc := OneTree(TSwitch(e, SortedCases(ls), DefaultLabel(ls, Gen(n))));
    var (v, s1) := Eval(E, e, s);
    SwitchShape(E, e, cs, lib, n, s, f);
    OlderSwitch(lib, n);
    OlderPositive(lib, n);
    SwitchNest(E, acc, cs, lib1, n + 1, v, s, f);
    SwitchTarget(lib, Gen(n));
    TargetsOlder(lib, n);
  }

  lemma OlderPositive(lib: seq<Target>, n: nat)
    requires Older(lib, n)
    ensures n >= 1
  {}

  lemma {:induction false} FromMissing(cs: Clauses, w: Option<i32>)
    requires !HasValue(cs, w)
    ensures From(cs, w) == NoClauses
  {
    if cs.Clause? { FromMissing(cs.rest, w); }
  }

  lemma EnterFrom(cs: Clauses, v: i32)
    ensures var w := if HasValue(cs, Some(v)) then Some(v) else None;
            Enter(cs, v) == From(cs, w) && (!HasValue(cs, w) ==> Enter(cs, v) == NoClauses)
  {
    if !HasValue(cs, None) { FromMissing(cs, None); }
  }

  lemma RedoStep<S>(E: Env<S>, l: nat, b: Stms, lib: seq<Target>, n: nat, s: S, f: nat)
    requires Older(lib, n)
    requires RunTs(E, LowerAll(b, lib + [Plain(User(l))], n).0, s, f) == Jump(RunAll(E, b, s, f), lib + [Plain(User(l))])
    ensures var p := Redo(l, b);
            var o := RunAll(E, b, s, f);
            RunT(E, Lower(p, lib, n).0, s, f)
            == if o.Going? && o.l == User(l) then (if f == 0 then Timeout else RunT(E, Lower(p, lib, n).0, o.s, f - 1))
               else Jump(o, lib)
  {
    PlainTarget(lib, User(l));
    TargetsOlder(lib, n);
    hide FindBreak, FindContinue, LowerAll, RunAll, RunTs, Older;
  }

  lemma ExitStep<S>(E: Env<S>, l: nat, b: Stms, lib: seq<Target>, n: nat, s: S, f: nat)
    requires Older(lib, n)
    requires RunTs(E, LowerAll(b, lib + [Plain(User(l))], n).0, s, f) == Jump(RunAll(E, b, s, f), lib + [Plain(User(l))])
    ensures RunT(E, Lower(Exit(l, b), lib, n).0, s, f) == Jump(Run(E, Exit(l, b), s, f), lib)
  {
    PlainTarget(lib, User(l));
    TargetsOlder(lib, n);
    hide FindBreak, FindContinue, LowerAll, RunAll, RunTs, Older;
  }

  /** Lowering keeps every run of every accepted statement. */
  lemma {:induction false} LowerKeepsRuns<S(!new)>(E: Env<S>, p: Stm, lib: seq<Target>, n: nat,
                                                   bk: bool, ct: bool, names: set<nat>, s: S, f: nat)
    requires Older(lib, n) && Accepts(p, bk, ct, names)
    ensures RunT(E, Lower(p, lib, n).0, s, f) == Jump(Run(E, p, s, f), lib)
    decreases f, p, 0
  {
    match p
    case Act(_) =>
    case Seq(b) => AllKeepRuns(E, b, lib, n, bk, ct, names, s, f);
    case Exit(l, b) =>
      OlderPlain(lib, n, l);
      AllKeepRuns(E, b, lib + [Plain(User(l))], n, bk, ct, names + {l}, s, f);
      ExitStep(E, l, b, lib, n, s, f);
    case Redo(l, b) => RedoKeepsRuns(E, l, b, lib, n, bk, ct, names, s, f);
    case If(c, x) => LowerKeepsRuns(E, x, lib, n, bk, ct, names, Eval(E, c, s).1, f);
    case IfElse(c, x, y) =>
      var m := Lower(x, lib, n).1;
      OlderGrows(lib, n, m);
      LowerKeepsRuns(E, x, lib, n, bk, ct, names, Eval(E, c, s).1, f);
      LowerKeepsRuns(E, y, lib, m, bk, ct, names, Eval(E, c, s).1, f);
    case While(c, b) => WhileKeepsRuns(E, c, b, lib, n, names, s, f);
    case Do(b, c) => DoKeepsRuns(E, b, c, lib, n, names, s, f);
    case For(x, y, z, b) =>
      ForInit(E, x, y, z, b, lib, n, s, f);
      ForKeepsRuns(E, y, z, b, lib, n, names, Effect(E, x, s), f);
    case Switch(e, cs) =>
      OlderSwitch(lib, n);
      ClausesKeepRuns(E, cs, lib + [BreakTo(Gen(n))], n + 1, true, ct, names, f);
      JumpsHaveTargets(E, p, bk, ct, names, s, f);
      SwitchStep(E, e, cs, lib, n, s, f);
    case Break =>
    case Continue =>
    case Goto(_) =>
    case Return(_) =>
  }

  lemma {:induction false} WhileKeepsRuns<S(!new)>(E: Env<S>, c: Exp, b: Stm, lib: seq<Target>, n: nat,
                                                   names: set<nat>, s: S, f: nat)
    requires Older(lib, n) && Accepts(b, true, true, names)
    ensures RunT(E, Lower(While(c, b), lib, n).0, s, f) == Jump(Run(E, While(c, b), s, f), lib)
    decreases f, b, 1
  {
    var s1 := Eval(E, c, s).1;
    OlderLoop(lib, n, n, n + 1, n + 2);
    LowerKeepsRuns(E, b, lib + [BreakTo(Gen(n)), ContinueTo(Gen(n + 1))], n + 2, true, true, names, s1, f);
    JumpsHaveTargets(E, b, true, true, names, s1, f);
    WhileStep(E, c, b, lib, n, s, f);
    hide Lower, Older, Accepts, FindBreak, FindContinue, RunT;
    var o := Run(E, b, s1, f);
    if (o.Normal? || o.Continuing?) && f != 0 { WhileKeepsRuns(E, c, b, lib, n, names, o.s, f - 1); }
  }

  lemma {:induction false} DoKeepsRuns<S(!new)>(E: Env<S>, b: Stm, c: Exp, lib: seq<Target>, n: nat,
                                                names: set<nat>, s: S, f: nat)
    requires Older(lib, n) && Accepts(b, true, true, names)
    ensures RunT(E, Lower(Do(b, c), lib, n).0, s, f) == Jump(Run(E, Do(b, c), s, f), lib)
    decreases f, b, 1
  {
    OlderLoop(lib, n, n + 1, n + 2, n + 3);
    LowerKeepsRuns(E, b, lib + [BreakTo(Gen(n + 1)), ContinueTo(Gen(n + 2))], n + 3, true, true, names, s, f);
    JumpsHaveTargets(E, b, true, true, names, s, f);
    DoStep(E, b, c, lib, n, s, f);
    hide Lower, Older, Accepts, FindBreak, FindContinue, RunT;
    var o := Run(E, b, s, f);
    if (o.Normal? || o.Continuing?) && f != 0 { DoKeepsRuns(E, b, c, lib, n, names, Eval(E, c, o.s).1, f - 1); }
  }

  lemma {:induction false} ForKeepsRuns<S(!new)>(E: Env<S>, y: Option<Exp>, z: Option<nat>, b: Stm, lib: seq<Target>,
                                                 n: nat, names: set<nat>, s: S, f: nat)
    requires Older(lib, n) && Accepts(b, true, true, names)
    ensures var t := Lower(b, lib + [BreakTo(Gen(n + 1)), ContinueTo(Gen(n + 2))], n + 3).0;
            RunT(E, ForLoop(y, z, t, n), s, f) == Jump(RunFor(E, y, z, b, s, f), lib)
    decreases f, b, 1
  {
    var s1 := Eval(E, if y.Some? then y.value else One, s).1;
    OlderLoop(lib, n, n + 1, n + 2, n + 3);
    LowerKeepsRuns(E, b, lib + [BreakTo(Gen(n + 1)), ContinueTo(Gen(n + 2))], n + 3, true, true, names, s1, f);
    JumpsHaveTargets(E, b, true, true, names, s1, f);
    ForStep(E, y, z, b, lib, n, s, f);
    hide Lower, Older, Accepts, FindBreak, FindContinue, RunT, ForLoop, Effect;
    var o := Run(E, b, s1, f);
    if (o.Normal? || o.Continuing?) && f != 0 { ForKeepsRuns(E, y, z, b, lib, n, names, Effect(E, z, o.s), f - 1); }
  }

  lemma {:induction false} RedoKeepsRuns<S(!new)>(E: Env<S>, l: nat, b: Stms, lib: seq<Target>, n: nat,
                                                  bk: bool, ct: bool, names: set<nat>, s: S, f: nat)
    requires Older(lib, n) && AcceptsAll(b, bk, ct, names + {l})
    ensures RunT(E, Lower(Redo(l, b), lib, n).0, s, f) == Jump(Run(E, Redo(l, b), s, f), lib)
    decreases f, b, 1
  {
    OlderPlain(lib, n, l);
    AllKeepRuns(E, b, lib + [Plain(User(l))], n, bk, ct, names + {l}, s, f);
    RedoStep(E, l, b, lib, n, s, f);
    hide Lower, Older, AcceptsAll, FindBreak, FindContinue, RunT;
    var o := RunAll(E, b, s, f);
    if o.Going? && o.l == User(l) && f != 0 { RedoKeepsRuns(E, l, b, lib, n, bk, ct, names, o.s, f - 1); }
  }

  lemma {:induction false} AllKeepRuns<S(!new)>(E: Env<S>, b: Stms, lib: seq<Target>, n: nat,
                                                bk: bool, ct: bool, names: set<nat>, s: S, f: nat)
    requires Older(lib, n) && AcceptsAll(b, bk, ct, names)
    ensures RunTs(E, LowerAll(b, lib, n).0, s, f) == Jump(RunAll(E, b, s, f), lib)
    decreases f, b, 0
  {
    if b.Cons? {
      var m := Lower(b.head, lib, n).1;
      OlderGrows(lib, n, m);
      LowerKeepsRuns(E, b.head, lib, n, bk, ct, names, s, f);
      var o := Run(E, b.head, s, f);
      if o.Normal? { AllKeepRuns(E, b.tail, lib, m, bk, ct, names, o.s, f); }
    }
  }

  lemma {:induction false} ClausesKeepRuns<S(!new)>(E: Env<S>, cs: Clauses, lib: seq<Target>, n: nat,
                                                    bk: bool, ct: bool, names: set<nat>, f: nat)
    requires Older(lib, n) && AcceptsClauses(cs, bk, ct, names)
    ensures AllSimulated(E, cs, lib, n, f)
    decreases f, cs, 0
  {
    if cs.Clause? {
      var m := LowerAll(cs.body, lib, n + 1).1;
      OlderGrows(lib, n, m);
      OlderGrows(lib, n, n + 1);
      forall s
        ensures RunTs(E, LowerAll(cs.body, lib, n + 1).0, s, f) == Jump(RunAll(E, cs.body, s, f), lib)
        ensures var o := RunAll(E, cs.body, s, f); o.Going? ==> o.l.User?
      {
        AllKeepRuns(E, cs.body, lib, n + 1, bk, ct, names, s, f);
        JumpsHaveTargetsAll(E, cs.body, bk, ct, names, s, f);
      }
      ClausesKeepRuns(E, cs.rest, lib, m, bk, ct, names, f);
    }
  }

  /** A whole function body: lowering changes nothing at all, whether the run ends or not. */
  lemma BodyKeepsRuns<S(!new)>(E: Env<S>, p: Stm, s: S, f: nat)
    requires Accepts(p, false, false, {})
    ensures RunT(E, Lower(p, [], 1).0, s, f) == Run(E, p, s, f)
  {
    LowerKeepsRuns(E, p, [], 1, false, false, {}, s, f);
    JumpsHaveTargets(E, p, false, false, {}, s, f);
  }
}
