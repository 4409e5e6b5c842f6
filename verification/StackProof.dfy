/** Runs of compiled expressions, statements and functions: what they do to the stack pointer. */
module StackProof {
  import opened StackAreas
  import opened StackLasting
  import opened StackCode
  import opened StackBalance

  /** No `alloca` outside the remaining arguments of variadic calls: such an expression leaves `sp$` as it was. */
  predicate Steady(e: Exp) {
    match e
    case Op(args) => SteadyAll(args)
    case Select(t, y, n) => Steady(t) && Steady(y) && Steady(n)
    case AllocaConst(_) => false
    case Alloca(_) => false
    case Apply(args) => SteadyAll(args)
    case ApplyVar(fixed, _, _) => SteadyAll(fixed)
  }

  predicate SteadyAll(es: Exps) {
    match es
    case End => true
    case More(e, tl) => Steady(e) && SteadyAll(tl)
  }

  lemma {:induction false} NoAllocaSteady(e: Exp)
    ensures !HasAlloca(e) ==> Steady(e)
  {
    match e
    case Op(args) => NoneSteady(args);
    case Select(t, y, n) => NoAllocaSteady(t); NoAllocaSteady(y); NoAllocaSteady(n);
    case Apply(args) => NoneSteady(args);
    case ApplyVar(fixed, _, _) => NoneSteady(fixed);
    case _ =>
  }

  lemma {:induction false} NoneSteady(es: Exps)
    ensures !AnyAlloca(es) ==> SteadyAll(es)
  {
    match es
    case End =>
    case More(e, tl) => NoAllocaSteady(e); NoneSteady(tl);
  }

  // ---------- temporaries ----------

  lemma {:induction false} TempsExp(e: Exp, k: nat, v: bool)
    ensures k <= CompileExp(e, k, v).1
    decreases e
  {
    match e
    case Op(args) => TempsArgs(args, k, v);
    case Select(t, y, n) =>
      TempsExp(t, k, v);
      TempsExp(y, CompileExp(t, k, v).1, v);
      TempsExp(n, CompileExp(y, CompileExp(t, k, v).1, v).1, v);
    case AllocaConst(_) =>
    case Alloca(a) => TempsExp(a, k, v);
    case Apply(args) => TempsArgs(args, k, v);
    case ApplyVar(fixed, more, fun) =>
      TempsArgs(fixed, k, v);
      var k1 := CompileArgs(fixed, k, v).1;
      TempsMore(more, k1, MoreTemp(more, k1), 0);
      TempsArgs(fun, MoreTemp(more, k1) + 1, true);
  }

  lemma {:induction false} TempsArgs(es: Exps, k: nat, v: bool)
    ensures k <= CompileArgs(es, k, v).1
    decreases es
  {
    match es
    case End =>
    case More(e, tl) => TempsExp(e, k, v); TempsArgs(tl, CompileExp(e, k, v).1, v);
  }

  /** The area's own temporary comes after those of the arguments stored in it. */
  lemma {:induction false} TempsMore(es: Exps, k: nat, p: nat, i: nat)
    ensures k <= CompileMore(es, k, p, i).1 == MoreTemp(es, k)
    decreases es
  {
    match es
    case End =>
    case More(e, tl) => TempsExp(e, k, true); TempsMore(tl, CompileExp(e, k, true).1, p, i + 1);
  }

  // ---------- expressions ----------

  /** `grow` values were pushed; nothing below them changed. */
  ghost predicate Grown(st: State, out: State, grow: nat) {
    |out.stack| == |st.stack| + grow && out.stack[..|st.stack|] == st.stack
  }

  lemma GrownTrans(a: State, b: State, c: State, m: nat, n: nat)
    requires Grown(a, b, m) && Grown(b, c, n)
    ensures Grown(a, c, m + n)
  {
    assert c.stack[..|a.stack|] == c.stack[..|b.stack|][..|a.stack|];
  }

  lemma GrownSelf(a: State)
    ensures Grown(a, a, 0)
  {}

  lemma GrownPush(a: State, b: State, n: nat, v: nat)
    requires Grown(a, b, n)
    ensures Grown(a, Push(b, v), n + 1)
  {}

  /** Popping what was pushed. */
  lemma GrownPop(a: State, b: State, n: nat, m: nat)
    requires Grown(a, b, n) && m <= n
    ensures Grown(a, Pop(b, m), n - m)
  {}

  lemma GrownNone(a: State, b: State)
    requires Grown(a, b, 0)
    ensures b.stack == a.stack
  {}

  /** A completed run of code that computes `grow` values, with temporaries from `k` to `n`. */
  ghost predicate Ran(st: State, r: Out, k: nat, n: nat, grow: nat, steady: bool, v: bool) {
    r.Done? && r.exit == Next && Below(st, r.st, k, n, v) && Grown(st, r.st, grow) && (steady ==> r.st.sp == st.sp)
  }

  lemma RunThen(P: seq<Code>, fuel: nat, a: Code, b: Code, or: Oracle, st: State)
    ensures Run(P, fuel, Then(a, b), or, st) ==
            var r := Run(P, fuel, a, or, st); if r.Done? && r.exit == Next then Run(P, fuel, b, or, r.st) else r
  {
    hide ExecAll, RunFunction;
  }

  lemma RunIns(P: seq<Code>, fuel: nat, run: seq<Instr>, or: Oracle, st: State)
    ensures Run(P, fuel, Ins(run), or, st) == var r := ExecAll(run, or, st); if r.None? then Stuck else Done(r.value, Next)
  {
    hide ExecAll, RunFunction;
  }

  lemma RanThen(a: State, r: Out, s: Out, k: nat, m: nat, n: nat, g: nat, h: nat, u: bool, w: bool, v: bool)
    requires k <= m <= n && Ran(a, r, k, m, g, u, v) && Ran(r.st, s, m, n, h, w, v)
    ensures Ran(a, s, k, n, g + h, u && w, v)
  {
    BelowTrans(a, r.st, s.st, k, m, n, v);
    GrownTrans(a, r.st, s.st, g, h);
    hide Below, Grown;
  }

  lemma {:induction false} ExpRuns(P: seq<Code>, Fs: seq<Fun>, fuel: nat, e: Exp, k: nat, or: Oracle, st: State, v: bool)
    requires Compiled(P, Fs) && Good(st.sp) && Run(P, fuel, CompileExp(e, k, v).0, or, st).Done?
    ensures Ran(st, Run(P, fuel, CompileExp(e, k, v).0, or, st), k, CompileExp(e, k, v).1, 1, Steady(e), v)
    decreases fuel, 1, e, 1
  {
    hide Run, Compiled, Ran, Good;
    match e
    case Op(args) => OpRuns(P, Fs, fuel, args, k, or, st, v);
    case Select(t, y, n) => SelectRuns(P, Fs, fuel, t, y, n, k, or, st, v);
    case AllocaConst(size) => AllocaConstRuns(P, fuel, size, k, or, st, v);
    case Alloca(a) => AllocaDynamicRuns(P, Fs, fuel, a, k, or, st, v);
    case Apply(args) => ApplyRuns(P, Fs, fuel, args, k, or, st, v);
    case ApplyVar(fixed, more, fun) => ApplyVarRuns(P, Fs, fuel, fixed, more, fun, k, or, st, v);
  }

  lemma {:induction false} ArgsRuns(P: seq<Code>, Fs: seq<Fun>, fuel: nat, es: Exps, k: nat, or: Oracle, st: State, v: bool)
    requires Compiled(P, Fs) && Good(st.sp) && Run(P, fuel, CompileArgs(es, k, v).0, or, st).Done?
    ensures Ran(st, Run(P, fuel, CompileArgs(es, k, v).0, or, st), k, CompileArgs(es, k, v).1, Count(es), SteadyAll(es), v)
    decreases fuel, 1, es, 0
  {
    hide Compiled, Good, CompileExp;
    match es
    case End => RunNop(P, fuel, or, st, k, v);
    case More(e, tl) =>
      hide Run, Ran;
      var (c, k1) := CompileExp(e, k, v);
      var (d, k2) := CompileArgs(tl, k1, v);
      RunThen(P, fuel, c, d, or, st);
      TempsExp(e, k, v);
      TempsArgs(tl, k1, v);
      ExpRuns(P, Fs, fuel, e, k, or, st, v);
      var r := Run(P, fuel, c, or, st);
      RanNext(st, r, k, k1, 1, Steady(e), v);
      ArgsRuns(P, Fs, fuel, tl, k1, or, r.st, v);
      RanThen(st, r, Run(P, fuel, d, or, r.st), k, k1, k2, 1, Count(tl), Steady(e), SteadyAll(tl), v);
  }

  lemma RunNop(P: seq<Code>, fuel: nat, or: Oracle, st: State, k: nat, v: bool)
    requires Good(st.sp)
    ensures Ran(st, Run(P, fuel, Nop, or, st), k, k, 0, true, v)
  {
    BelowSelf(st, k, v);
  }

  lemma RanNext(st: State, r: Out, k: nat, n: nat, g: nat, u: bool, v: bool)
    requires Ran(st, r, k, n, g, u, v)
    ensures r.Done? && r.exit == Next && Good(r.st.sp)
  {}

  lemma {:induction false} OpRuns(P: seq<Code>, Fs: seq<Fun>, fuel: nat, args: Exps, k: nat, or: Oracle, st: State, v: bool)
    requires Compiled(P, Fs) && Good(st.sp) && Run(P, fuel, CompileExp(Op(args), k, v).0, or, st).Done?
    ensures Ran(st, Run(P, fuel, CompileExp(Op(args), k, v).0, or, st), k, CompileExp(Op(args), k, v).1, 1, SteadyAll(args), v)
    decreases fuel, 1, args, 1
  {
    var (c, n) := CompileArgs(args, k, v);
    hide Compiled, Good, CompileArgs, Run, Ran, Count, ExecAll;
    RunThen(P, fuel, c, Ins([Pure(Count(args))]), or, st);
    ArgsRuns(P, Fs, fuel, args, k, or, st, v);
    var r := Run(P, fuel, c, or, st);
    RanNext(st, r, k, n, Count(args), SteadyAll(args), v);
    RunIns(P, fuel, [Pure(Count(args))], or, r.st);
    PureRuns(st, r, k, n, Count(args), SteadyAll(args), or, v);
  }

  lemma PureRuns(st: State, r: Out, k: nat, n: nat, g: nat, u: bool, or: Oracle, v: bool)
    requires Ran(st, r, k, n, g, u, v)
    ensures var x := ExecAll([Pure(g)], or, r.st); x.Some? && Ran(st, Done(x.value, Next), k, n, 1, u, v)
  {
    ExecStep([Pure(g)], or, r.st);
    assert [Pure(g)][1..] == [];
    var s := Push(Pop(r.st, g), or(r.st.o) % M32).(o := r.st.o + 1);
    ExecNone(or, s);
    GrownPop(st, r.st, g, g);
    GrownPush(st, Pop(r.st, g), 0, or(r.st.o) % M32);
    BelowSame(st, r.st, s, k, n, v);
    hide Below;
  }

  lemma {:induction false} SelectRuns(P: seq<Code>, Fs: seq<Fun>, fuel: nat, t: Exp, y: Exp, n: Exp, k: nat, or: Oracle, st: State, v: bool)
    requires Compiled(P, Fs) && Good(st.sp) && Run(P, fuel, CompileExp(Select(t, y, n), k, v).0, or, st).Done?
    ensures Ran(st, Run(P, fuel, CompileExp(Select(t, y, n), k, v).0, or, st), k, CompileExp(Select(t, y, n), k, v).1, 1, Steady(t) && Steady(y) && Steady(n), v)
    decreases fuel, 1, Select(t, y, n), 0
  {
    var (c, k1) := CompileExp(t, k, v);
    var (d, k2) := CompileExp(y, k1, v);
    var (f, k3) := CompileExp(n, k2, v);
    assert CompileExp(Select(t, y, n), k, v) == (Then(c, If(d, f)), k3);
    hide Compiled, Good, CompileExp, Run, Ran, Steady;
    TempsExp(t, k, v);
    TempsExp(y, k1, v);
    TempsExp(n, k2, v);
    RunThen(P, fuel, c, If(d, f), or, st);
    ExpRuns(P, Fs, fuel, t, k, or, st, v);
    var r := Run(P, fuel, c, or, st);
    RanNext(st, r, k, k1, 1, Steady(t), v);
    RunIf(P, fuel, d, f, or, r.st);
    RanPop(st, r, k, k1, 1, Steady(t), v);
    var s := Done(Pop(r.st, 1), Next);
    if Top(r.st) != 0 {
      ExpRuns(P, Fs, fuel, y, k1, or, s.st, v);
      RanWider(s.st, Run(P, fuel, d, or, s.st), k1, k2, k1, k3, 1, Steady(y), v);
      RanThen(st, s, Run(P, fuel, d, or, s.st), k, k1, k3, 0, 1, Steady(t), Steady(y), v);
      RanLess(st, Run(P, fuel, d, or, s.st), k, k3, 1, Steady(t) && Steady(y), Steady(t) && Steady(y) && Steady(n), v);
    } else {
      ExpRuns(P, Fs, fuel, n, k2, or, s.st, v);
      RanWider(s.st, Run(P, fuel, f, or, s.st), k2, k3, k1, k3, 1, Steady(n), v);
      RanThen(st, s, Run(P, fuel, f, or, s.st), k, k1, k3, 0, 1, Steady(t), Steady(n), v);
      RanLess(st, Run(P, fuel, f, or, s.st), k, k3, 1, Steady(t) && Steady(n), Steady(t) && Steady(y) && Steady(n), v);
    }
  }

  lemma RunIf(P: seq<Code>, fuel: nat, d: Code, f: Code, or: Oracle, st: State)
    ensures Run(P, fuel, If(d, f), or, st) ==
            if st.stack == [] then Stuck else Run(P, fuel, if Top(st) != 0 then d else f, or, Pop(st, 1))
  {
    hide ExecAll, RunFunction;
  }

  lemma RanPop(st: State, r: Out, k: nat, n: nat, g: nat, u: bool, v: bool)
    requires Ran(st, r, k, n, g, u, v) && g > 0
    ensures r.st.stack != [] && Ran(st, Done(Pop(r.st, 1), Next), k, n, g - 1, u, v) && Good(Pop(r.st, 1).sp)
  {
    GrownPop(st, r.st, g, 1);
    BelowSame(st, r.st, Pop(r.st, 1), k, n, v);
  }

  lemma RanWider(st: State, r: Out, k: nat, n: nat, j: nat, m: nat, g: nat, u: bool, v: bool)
    requires Ran(st, r, k, n, g, u, v) && j <= k && n <= m
    ensures Ran(st, r, j, m, g, u, v)
  {
    BelowWider(st, r.st, k, n, j, m, v);
  }

  lemma RanLess(st: State, r: Out, k: nat, n: nat, g: nat, u: bool, w: bool, v: bool)
    requires Ran(st, r, k, n, g, u, v) && (w ==> u)
    ensures Ran(st, r, k, n, g, w, v)
  {}

  lemma AllocaConstRuns(P: seq<Code>, fuel: nat, size: nat, k: nat, or: Oracle, st: State, v: bool)
    requires Good(st.sp)
    ensures Ran(st, Run(P, fuel, Ins(AllocaCode(size, By(v))), or, st), k, k, 1, false, v)
  {
    hide AllocaCode, Within, RoundUp16, Minus, Marks, By;
    RunIns(P, fuel, AllocaCode(size, By(v)), or, st);
    AllocaRuns(size, By(v), or, st);
    var a := Minus(st.sp, RoundUp16(size));
    var s := Took(st, RoundUp16(size), By(v), a);
    GrownSelf(st);
    GrownPush(st, s, 0, a);
    WithinSame(st, s, Push(s, a), st.sp);
    TookMarks(st, RoundUp16(size), v, a);
    MarksSame(st, s, Push(s, a), v);
  }

  lemma {:induction false} AllocaDynamicRuns(P: seq<Code>, Fs: seq<Fun>, fuel: nat, a: Exp, k: nat, or: Oracle, st: State, v: bool)
    requires Compiled(P, Fs) && Good(st.sp) && Run(P, fuel, CompileExp(Alloca(a), k, v).0, or, st).Done?
    ensures Ran(st, Run(P, fuel, CompileExp(Alloca(a), k, v).0, or, st), k, CompileExp(Alloca(a), k, v).1, 1, false, v)
    decreases fuel, 1, a, 2
  {
    var (c, n) := CompileExp(a, k, v);
    assert CompileExp(Alloca(a), k, v) == (Then(c, Ins(AllocaRest(n, By(v)))), n + 1);
    hide Compiled, Good, CompileExp, Run, Ran, AllocaRest, ExecAll;
    TempsExp(a, k, v);
    RunThen(P, fuel, c, Ins(AllocaRest(n, By(v))), or, st);
    ExpRuns(P, Fs, fuel, a, k, or, st, v);
    var r := Run(P, fuel, c, or, st);
    RanNext(st, r, k, n, 1, Steady(a), v);
    RunIns(P, fuel, AllocaRest(n, By(v)), or, r.st);
    AllocaRestRan(st, r, k, n, Steady(a), or, v);
  }

  lemma AllocaRestRan(st: State, r: Out, k: nat, n: nat, u: bool, or: Oracle, v: bool)
    requires k <= n && Ran(st, r, k, n, 1, u, v)
    ensures var x := ExecAll(AllocaRest(n, By(v)), or, r.st); x.Some? && Ran(st, Done(x.value, Next), k, n + 1, 1, false, v)
  {
    hide AllocaRest, ExecAll, Within, Marks, By;
    var w, b := Top(r.st), Pop(r.st, 1);
    assert r.st == Push(b, w) by { TopPop(r.st); }
    AllocaRestRuns(w, n, By(v), or, b);
    var m := Mask16((w + 15) % M32);
    var a := (b.sp - m) % M32;
    var s0 := b.(locals := b.locals[n := m]);
    var s := Took(s0, m, By(v), a);
    TookMarks(s0, m, v, a);
    MarksFrom(s0, s, b, v);
    GrownPop(st, r.st, 1, 1);
    GrownPush(st, s, 0, a);
    BelowSame(st, r.st, b, k, n, v);
    SetLocalBelow(st, b, s, k, n, m, v);
    BelowSame(st, s, Push(s, a), k, n + 1, v);
    hide Below, Good;
  }

  lemma TopPop(st: State)
    requires st.stack != []
    ensures st == Push(Pop(st, 1), Top(st))
  {}

  lemma SetLocalBelow(a: State, b: State, c: State, k: nat, n: nat, w: nat, v: bool)
    requires k <= n && Below(a, b, k, n, v) && c.locals == b.locals[n := w] && Good(c.sp) && Within(b, c, b.sp) && Marks(b, c, v)
    ensures Below(a, c, k, n + 1, v)
  {
    hide Within, Marks;
    WithinDown(a, b, c);
    MarksTrans(a, b, c, v);
  }

  // ---------- calls ----------

  lemma RunCall(P: seq<Code>, fuel: nat, pops: nat, or: Oracle, st: State)
    requires Run(P, fuel, Call(pops), or, st).Done?
    ensures fuel > 0 && P != [] && pops <= |st.stack|
    ensures var f := or(st.o) % |P|;
            var r := RunFunction(P, fuel - 1, f, or, st.sp, st.o + 1, st.low, st.log);
            && f < |P| && r.Done? && r.exit == Returned
            && Run(P, fuel, Call(pops), or, st) ==
               Done(Push(Pop(st, pops), or(r.st.o) % M32).(sp := r.st.sp, o := r.st.o + 1, low := r.st.low,
                                                            log := AsCalled(r.st.log, |st.log|)), Next)
  {
    hide ExecAll, RunFunction;
  }

  /** The state in which a function begins. */
  function Entry(sp: nat, o: nat, low: bool, log: seq<Event>): State { State(sp, map[], [], o, low, log) }

  lemma WithinFields(a: State, b: State, c: State, d: State, hi: nat)
    requires Within(a, b, hi) && c.sp == a.sp && c.low == a.low && c.log == a.log && d.sp == b.sp && d.low == b.low && d.log == b.log
    ensures Within(c, d, hi)
  {}

  /** A call pops its arguments and pushes its result; the called function leaves `sp$` as it was. */
  lemma {:induction false} CallRuns(P: seq<Code>, Fs: seq<Fun>, fuel: nat, pops: nat, or: Oracle, st: State)
    requires Compiled(P, Fs) && Good(st.sp) && Run(P, fuel, Call(pops), or, st).Done?
    ensures pops <= |st.stack|
    ensures var r := Run(P, fuel, Call(pops), or, st);
            && r.exit == Next && r.st.sp == st.sp && r.st.locals == st.locals && Within(st, r.st, st.sp)
            && Marks(st, r.st, true) && Marks(st, r.st, false)
            && |r.st.stack| == |st.stack| - pops + 1 && r.st.stack[..|st.stack| - pops] == st.stack[..|st.stack| - pops]
    decreases fuel, 0, 0
  {
    hide Compiled, Run, RunFunction, Good, Within, Marks, Stores;
    RunCall(P, fuel, pops, or, st);
    FunctionBalanced(P, Fs, fuel - 1, or(st.o) % |P|, or, st.sp, st.o + 1, st.low, st.log);
    var x := RunFunction(P, fuel - 1, or(st.o) % |P|, or, st.sp, st.o + 1, st.low, st.log);
    var out := Run(P, fuel, Call(pops), or, st).st;
    WithinFields(Entry(st.sp, st.o + 1, st.low, st.log), x.st, st, x.st, st.sp);
    CalledWithin(st, x.st, out, st.sp);
    StoresFrom(Entry(st.sp, st.o + 1, st.low, st.log), x.st, st);
    CalledMarks(st, x.st, out, true);
    CalledMarks(st, x.st, out, false);
  }

  lemma {:induction false} ApplyRuns(P: seq<Code>, Fs: seq<Fun>, fuel: nat, args: Exps, k: nat, or: Oracle, st: State, v: bool)
    requires Compiled(P, Fs) && Good(st.sp) && Run(P, fuel, CompileExp(Apply(args), k, v).0, or, st).Done?
    ensures Ran(st, Run(P, fuel, CompileExp(Apply(args), k, v).0, or, st), k, CompileExp(Apply(args), k, v).1, 1, SteadyAll(args), v)
    decreases fuel, 1, args, 1
  {
    var (c, n) := CompileArgs(args, k, v);
    hide Compiled, Good, CompileArgs, Run, Ran, Count;
    RunThen(P, fuel, c, Call(Count(args)), or, st);
    ArgsRuns(P, Fs, fuel, args, k, or, st, v);
    var r := Run(P, fuel, c, or, st);
    RanNext(st, r, k, n, Count(args), SteadyAll(args), v);
    CallRuns(P, Fs, fuel, Count(args), or, r.st);
    CallRan(st, r, Run(P, fuel, Call(Count(args)), or, r.st), k, n, Count(args), Count(args), SteadyAll(args), v);
  }

  lemma CallRan(st: State, r: Out, s: Out, k: nat, n: nat, g: nat, pops: nat, u: bool, v: bool)
    requires Ran(st, r, k, n, g, u, v) && pops <= g && s.Done? && s.exit == Next && pops <= |r.st.stack|
    requires s.st.sp == r.st.sp && s.st.locals == r.st.locals && Within(r.st, s.st, r.st.sp) && Marks(r.st, s.st, v)
    requires |s.st.stack| == |r.st.stack| - pops + 1 && s.st.stack[..|r.st.stack| - pops] == r.st.stack[..|r.st.stack| - pops]
    ensures Ran(st, s, k, n, g - pops + 1, u, v)
  {
    WithinDown(st, r.st, s.st);
    MarksTrans(st, r.st, s.st, v);
    hide Within, Marks;
    assert s.st.stack[..|st.stack|] == s.st.stack[..|r.st.stack| - pops][..|st.stack|];
    assert r.st.stack[..|st.stack|] == r.st.stack[..|r.st.stack| - pops][..|st.stack|];
  }

  // ---------- variadic calls ----------

  /** The slots of an argument area that have been filled: the count's, and those of the first `i` arguments. */
  function Slots(i: nat): seq<(nat, nat)> {
    if i == 0 then [(0, 4)] else Slots(i - 1) + [(16 * i, 16)]
  }

  /** The argument area at `a`, with room for `m` arguments besides their count, was opened in state `r`, is in use, and
      exactly its first `i` slots have been stored to. */
  ghost predicate Filled(r: State, s: State, a: nat, m: nat, i: nat) {
    Stacked(Live(r.log), r.sp) && !s.low ==>
      && InUse(s.log, |r.log|) && s.log[|r.log|].base == a && s.log[|r.log|].who == Argument
      && s.log[|r.log|].size == 16 * (1 + m)
      && s.sp <= a < r.sp && Into(s.log, |r.log|, a) == Slots(i)
  }

  /** Between opening and closing an argument area: the fixed arguments are below, the area's address is in `p`, and
      `i` of the remaining arguments are stored. */
  ghost predicate InArea(r: State, s: State, k: nat, p: nat, more: Exps, i: nat) {
    && Good(s.sp) && Within(r, s, r.sp) && Marks(r, s, true) && s.stack == r.stack && Local(s, p) == Minus(r.sp, AreaSize(more))
    && Filled(r, s, Local(s, p), Count(more), i)
    && forall x: nat :: x < k || p < x ==> Local(s, x) == Local(r, x)
  }

  lemma Opened(P: seq<Code>, fuel: nat, p: nat, more: Exps, or: Oracle, r: State, k: nat)
    requires Good(r.sp) && k <= p
    ensures var x := Run(P, fuel, Ins(OpenArea(p, more)), or, r);
            x.Done? && x.exit == Next && InArea(r, x.st, k, p, more, 0)
  {
    var n := AreaSize(more);
    var a := Minus(r.sp, n);
    assert n == 16 * (1 + Count(more));
    hide OpenArea, AreaSize, ExecAll, Minus, Within, Marks, Filled, Count;
    RunIns(P, fuel, OpenArea(p, more), or, r);
    OpenRuns(p, more, or, r);
    var s := r.(locals := r.locals[p := a]);
    var t := Took(s, n, Argument, a);
    TookMarks(s, n, true, a);
    MarksFrom(s, t, r, true);
    OpenFilled(r, t, n, a, Count(more));
  }

  /** The area just opened, then the count stored at its start. */
  lemma OpenFilled(r: State, t: State, n: nat, a: nat, m: nat)
    requires t.sp == a && t.log == r.log + [Claimed(a, n, Argument)] && t.low == (r.low || r.sp < n)
    requires (r.sp >= n ==> a + n == r.sp) && n == 16 * (1 + m) && Marks(r, t, true)
    ensures var e := Stored(a, 0, 4); var s := t.(log := t.log + [e]); Marks(r, s, true) && Filled(r, s, a, m, 0)
  {
    var c, e := Claimed(a, n, Argument), Stored(a, 0, 4);
    var s := t.(log := t.log + [e]);
    LiveStep(r.log, c);
    LiveStep(t.log, e);
    assert Area(a, n, |r.log|) in Live(t.log);
    hide Live, Stacked, Marks;
    StoredMarks(r, t, e, |r.log|, true);
    IntoNext(r.log, c, |r.log|, a);
    IntoNext(t.log, e, |r.log|, a);
  }

  /** A run below the area leaves it as it is. */
  lemma FilledKept(r: State, s: State, t: State, a: nat, m: nat, i: nat)
    requires Filled(r, s, a, m, i) && Within(r, s, r.sp) && Within(s, t, s.sp) && Marks(s, t, true)
    ensures Filled(r, t, a, m, i)
  {
    hide Live, Stacked, Within, Slots;
    LogGrows(r, s, r.sp);
    LogGrows(s, t, s.sp);
    if Stacked(Live(r.log), r.sp) && !t.low {
      StillStacked(r, s);
      StaysInUse(s, t, |r.log|);
      WithinEnd(s, t, s.sp);
      hide NoneForGood, Placed, InUse;
      IntoSame(s.log, t.log, |r.log|, a, s.sp);
    }
  }

  lemma AreaKept(r: State, s: State, t: State, k: nat, p: nat, more: Exps, i: nat)
    requires InArea(r, s, k, p, more, i) && Good(t.sp) && Within(s, t, s.sp) && Marks(s, t, true) && t.stack == s.stack
    requires k <= p && forall x: nat :: x < k || p <= x ==> Local(t, x) == Local(s, x)
    ensures InArea(r, t, k, p, more, i)
  {
    WithinDown(r, s, t);
    MarksTrans(r, s, t, true);
    FilledKept(r, s, t, Local(s, p), Count(more), i);
    hide AreaSize, Minus, Within, Marks, Filled;
  }

  lemma AreaStored(r: State, t: State, k: nat, p: nat, more: Exps, i: nat)
    requires InArea(r, t, k, p, more, i) && i < Count(more)
    ensures InArea(r, t.(log := t.log + [Stored(Local(t, p), 16 * (1 + i), 16)]), k, p, more, i + 1)
  {
    hide Live, Stacked, Within, Marks, AreaSize, Minus, Into, Slots, InUse, Count;
    var e := Stored(Local(t, p), 16 * (1 + i), 16);
    var s := t.(log := t.log + [e]);
    StoredWithin(t, e);
    WithinDown(r, t, s);
    LogGrows(r, t, r.sp);
    StoredMarks(r, t, e, |r.log|, true);
    if Stacked(Live(r.log), r.sp) && !s.low {
      UseStored(t.log, e, |r.log|);
      IntoNext(t.log, e, |r.log|, e.to);
      NextSlot(i);
    }
  }

  lemma NextSlot(i: nat)
    ensures Slots(i + 1) == Slots(i) + [(16 * (1 + i), 16)]
  {}

  lemma UseStored(log: seq<Event>, e: Event, j: nat)
    requires InUse(log, j) && e.Stored?
    ensures InUse(log + [e], j) && (log + [e])[j] == log[j]
  {
    LiveStep(log, e);
    hide Live;
  }

  /** Storing the remaining arguments from the one of number `i` on. */
  lemma {:induction false} MoreRuns(P: seq<Code>, Fs: seq<Fun>, fuel: nat, es: Exps, k: nat, p: nat, i: nat, or: Oracle,
                                    r: State, st: State, j: nat, more: Exps)
    requires Compiled(P, Fs) && Run(P, fuel, CompileMore(es, k, p, i).0, or, st).Done?
    requires InArea(r, st, j, p, more, i) && j <= k && CompileMore(es, k, p, i).1 <= p && i + Count(es) == Count(more)
    ensures var x := Run(P, fuel, CompileMore(es, k, p, i).0, or, st);
            x.Done? && x.exit == Next && InArea(r, x.st, j, p, more, Count(more))
    decreases fuel, 1, es, 0
  {
    hide Compiled, CompileExp, InArea;
    match es
    case End =>
      hide ExecAll, RunFunction;
    case More(e, tl) =>
      var (c, k1) := CompileExp(e, k, true);
      var (d, k2) := CompileMore(tl, k1, p, i + 1);
      hide Run, Ran, CompileMore;
      MoreIs(e, tl, k, p, i);
      TempsExp(e, k, true);
      TempsMore(tl, k1, p, i + 1);
      var store := Ins([Store(16 * (1 + i), 16)]);
      RunThen(P, fuel, Ins([GetL(p)]), Then(c, Then(store, d)), or, st);
      GetRan(P, fuel, p, or, st);
      var s0 := Push(st, Local(st, p));
      RunThen(P, fuel, c, Then(store, d), or, s0);
      AreaGood(r, st, j, p, more, i);
      ExpRuns(P, Fs, fuel, e, k, or, s0, true);
      var r1 := Run(P, fuel, c, or, s0);
      RanNext(s0, r1, k, k1, 1, Steady(e), true);
      RunThen(P, fuel, store, d, or, r1.st);
      ArgumentStored(P, fuel, or, r, st, r1, j, k, k1, p, more, i, Steady(e));
      MoreRuns(P, Fs, fuel, tl, k1, p, i + 1, or, r, Run(P, fuel, store, or, r1.st).st, j, more);
  }

  lemma MoreIs(e: Exp, tl: Exps, k: nat, p: nat, i: nat)
    ensures var (c, k1) := CompileExp(e, k, true);
            var (d, k2) := CompileMore(tl, k1, p, i + 1);
            CompileMore(More(e, tl), k, p, i) == (Then(Ins([GetL(p)]), Then(c, Then(Ins([Store(16 * (1 + i), 16)]), d))), k2)
  {
    hide CompileExp;
  }

  lemma GetRan(P: seq<Code>, fuel: nat, p: nat, or: Oracle, st: State)
    ensures Run(P, fuel, Ins([GetL(p)]), or, st) == Done(Push(st, Local(st, p)), Next)
  {
    RunIns(P, fuel, [GetL(p)], or, st);
    ExecStep([GetL(p)], or, st);
    assert [GetL(p)][1..] == [];
    ExecNone(or, Push(st, Local(st, p)));
  }

  /** An argument evaluated above the area's address, and stored in its slot. */
  lemma ArgumentStored(P: seq<Code>, fuel: nat, or: Oracle, r: State, st: State, r1: Out, j: nat, k: nat, k1: nat, p: nat, more: Exps,
                       i: nat, u: bool)
    requires InArea(r, st, j, p, more, i) && i < Count(more) && j <= k <= k1 <= p
    requires Ran(Push(st, Local(st, p)), r1, k, k1, 1, u, true)
    ensures var x := Run(P, fuel, Ins([Store(16 * (1 + i), 16)]), or, r1.st);
            x.Done? && x.exit == Next && InArea(r, x.st, j, p, more, i + 1)
  {
    var a := Local(st, p);
    var s0, t := Push(st, a), Pop(r1.st, 2);
    StoreRuns(P, fuel, or, r1.st, 16 * (1 + i), 16);
    GrownTwo(st, a, r1.st);
    BelowParts(st, a, r1, t, k, k1, u);
    AreaKept(r, st, t, j, p, more, i);
    AreaStored(r, t, j, p, more, i);
    hide InArea, Ran, Run;
  }

  lemma StoreRuns(P: seq<Code>, fuel: nat, or: Oracle, st: State, off: nat, width: nat)
    requires |st.stack| >= 2
    ensures Run(P, fuel, Ins([Store(off, width)]), or, st) ==
            Done(Pop(st, 2).(log := st.log + [Stored(st.stack[|st.stack| - 2], off, width)]), Next)
  {
    RunIns(P, fuel, [Store(off, width)], or, st);
    ExecStep([Store(off, width)], or, st);
    assert [Store(off, width)][1..] == [];
    ExecNone(or, Pop(st, 2).(log := st.log + [Stored(st.stack[|st.stack| - 2], off, width)]));
  }

  lemma GrownTwo(st: State, a: nat, b: State)
    requires Grown(Push(st, a), b, 1)
    ensures |b.stack| >= 2 && b.stack[|b.stack| - 2] == a && Pop(b, 2).stack == st.stack
  {
    var s := Push(st, a).stack;
    assert b.stack[|st.stack|] == b.stack[..|s|][|st.stack|] == a;
    assert b.stack[..|st.stack|] == b.stack[..|s|][..|st.stack|] == st.stack;
  }

  lemma BelowParts(st: State, a: nat, r1: Out, t: State, k: nat, k1: nat, u: bool)
    requires Ran(Push(st, a), r1, k, k1, 1, u, true) && t.sp == r1.st.sp && t.low == r1.st.low && t.log == r1.st.log && t.locals == r1.st.locals
    ensures Good(t.sp) && Within(st, t, st.sp) && Marks(st, t, true) && forall x: nat :: x < k || k1 <= x ==> Local(t, x) == Local(st, x)
  {
    hide Within, Marks;
    WithinFields(Push(st, a), r1.st, st, t, st.sp);
    MarksFrom(Push(st, a), r1.st, st, true);
    MarksSame(st, r1.st, t, true);
    forall x: nat | x < k || k1 <= x
      ensures Local(t, x) == Local(st, x)
    {
      assert Local(r1.st, x) == Local(Push(st, a), x);
    }
  }

  /** The address of the first argument, just past the count. */
  lemma FirstArgument(P: seq<Code>, fuel: nat, p: nat, or: Oracle, st: State)
    ensures var x := Run(P, fuel, Ins([GetL(p), Const(16), Add]), or, st);
            x == Done(Push(st, (Local(st, p) + 16) % M32), Next)
  {
    hide Exec, Push, Local;
    var run, v := [GetL(p), Const(16), Add], Local(st, p);
    RunIns(P, fuel, run, or, st);
    assert run[1..] == [Const(16), Add] && [Const(16), Add][1..] == [Add] && [Add][1..] == [];
    DoGetL(p, or, st);
    ExecStep(run, or, st);
    DoConst(16, or, Push(st, v));
    ExecStep([Const(16), Add], or, Push(st, v));
    DoAdd(v, 16, or, st);
    ExecStep([Add], or, Push(Push(st, v), 16));
    ExecNone(or, Push(st, (v + 16) % M32));
  }

  /** Event `j` opened an argument area with room for `m` arguments, and all their slots, and nothing else in it, have been
      stored to. */
  ghost predicate Passed(log: seq<Event>, j: nat, m: nat) {
    && j < |log| && log[j].Claimed? && log[j].who == Argument && log[j].size == 16 * (1 + m)
    && Into(log, j, log[j].base) == Slots(m)
  }

  ghost predicate PassedFrom(r: State, out: State, m: nat) {
    (r.low ==> out.low) && (Stacked(Live(r.log), r.sp) && !out.low ==> Passed(out.log, |r.log|, m))
  }

  lemma FilledPassed(r: State, c: State, a: nat, m: nat, v: nat)
    requires Filled(r, c, a, m, m) && (r.low ==> c.low)
    ensures PassedFrom(r, Moved(c, Release, v), m)
  {
    hide Live, Stacked, Slots;
    if Stacked(Live(r.log), r.sp) && !c.low { IntoNext(c.log, Reset(v), |r.log|, a); }
    hide Into;
  }

  /** After the call the area is closed: `sp$` is again what it was before the area was opened. */
  lemma Closed(P: seq<Code>, fuel: nat, p: nat, more: Exps, or: Oracle, st: State, r: Out, c: State, k: nat, m: nat, n: nat, nf: nat, u: bool, v: bool)
    requires k <= m <= p < n && Ran(st, r, k, m, nf, u, v) && Within(r.st, c, r.st.sp) && Marks(r.st, c, true)
    requires Local(c, p) == Minus(r.st.sp, AreaSize(more)) && forall x: nat :: x < m || n <= x ==> Local(c, x) == Local(r.st, x)
    requires |c.stack| == |r.st.stack| - nf + 1 && c.stack[..|r.st.stack| - nf] == r.st.stack[..|r.st.stack| - nf]
    requires Filled(r.st, c, Local(c, p), Count(more), Count(more))
    ensures var x := Run(P, fuel, Ins(CloseArea(p, more)), or, c);
            Ran(st, x, k, n, 1, u, v) && PassedFrom(r.st, x.st, Count(more))
  {
    hide CloseArea, AreaSize, ExecAll, Minus, Within, Marks, Filled, PassedFrom;
    LogGrows(r.st, c, r.st.sp);
    FilledPassed(r.st, c, Local(c, p), Count(more), r.st.sp);
    RunIns(P, fuel, CloseArea(p, more), or, c);
    CloseRuns(p, more, or, c, r.st.sp);
    var out := Moved(c, Release, r.st.sp);
    ClosedWithin(r.st, c);
    CloseMarks(r.st, c, v);
    WithinDown(st, r.st, out);
    MarksTrans(st, r.st, out, v);
    assert c.stack[..|st.stack|] == r.st.stack[..|st.stack|];
  }

  lemma ClosedWithin(r: State, c: State)
    requires Within(r, c, r.sp)
    ensures Within(r, Moved(c, Release, r.sp), r.sp)
  {
    WithinEnd(r, c, r.sp);
    ResetWithin(c, r.sp, r.sp);
    hide Within;
    if c.low { WithinLowTrans(r, c, Moved(c, Release, r.sp), r.sp, r.sp); } else { WithinTrans(r, c, Moved(c, Release, r.sp), r.sp, r.sp); }
  }

  /** A variadic call has opened an argument area and stored every argument in it. */
  ghost predicate PassedSome(st: State, out: State, m: nat) {
    Stacked(Live(st.log), st.sp) && !out.low ==> exists j :: |st.log| <= j && Passed(out.log, j, m)
  }

  lemma PassedLater(st: State, r: State, out: State, m: nat)
    requires Within(st, r, st.sp) && PassedFrom(r, out, m)
    ensures PassedSome(st, out, m)
  {
    hide Live, Stacked, Within, Passed;
    LogGrows(st, r, st.sp);
    if Stacked(Live(st.log), st.sp) && !out.low {
      StillStacked(st, r);
      assert Passed(out.log, |r.log|, m);
    }
  }

  lemma {:induction false} ApplyVarRuns(P: seq<Code>, Fs: seq<Fun>, fuel: nat, fixed: Exps, more: Exps, fun: Exps, k: nat, or: Oracle,
                                        st: State, v: bool)
    requires var e := ApplyVar(fixed, more, fun);
             Compiled(P, Fs) && Good(st.sp) && Run(P, fuel, CompileExp(e, k, v).0, or, st).Done?
    ensures var e := ApplyVar(fixed, more, fun);
            var x := Run(P, fuel, CompileExp(e, k, v).0, or, st);
            Ran(st, x, k, CompileExp(e, k, v).1, 1, SteadyAll(fixed), v) && PassedSome(st, x.st, Count(more))
    decreases fuel, 1, ApplyVar(fixed, more, fun), 0
  {
    var (c, k1) := CompileArgs(fixed, k, v);
    var (d, p) := CompileMore(more, k1, MoreTemp(more, k1), 0);
    var (f, k2) := CompileArgs(fun, p + 1, true);
    var nf := Count(fixed);
    var tail1 := Then(d, CallTail(nf, more, fun, p));
    assert CompileExp(ApplyVar(fixed, more, fun), k, v) == (Then(c, Then(Ins(OpenArea(p, more)), tail1)), k2);
    hide Compiled, Good, CompileArgs, CompileMore, CompileExp, Run, Ran, InArea, OpenArea, CloseArea, Count, MoreTemp, CallTail,
         PassedSome, PassedFrom;
    TempsArgs(fixed, k, v);
    TempsMore(more, k1, MoreTemp(more, k1), 0);
    RunThen(P, fuel, c, Then(Ins(OpenArea(p, more)), tail1), or, st);
    ArgsRuns(P, Fs, fuel, fixed, k, or, st, v);
    var r := Run(P, fuel, c, or, st);
    RanNext(st, r, k, k1, nf, SteadyAll(fixed), v);
    RunThen(P, fuel, Ins(OpenArea(p, more)), tail1, or, r.st);
    Opened(P, fuel, p, more, or, r.st, k1);
    var s1 := Run(P, fuel, Ins(OpenArea(p, more)), or, r.st);
    RunThen(P, fuel, d, CallTail(nf, more, fun, p), or, s1.st);
    MoreRuns(P, Fs, fuel, more, k1, p, 0, or, r.st, s1.st, k1, more);
    var s2 := Run(P, fuel, d, or, s1.st);
    CallAndClose(P, Fs, fuel, nf, more, fun, p, or, st, r, s2.st, k, k1, SteadyAll(fixed), v);
    var x := Run(P, fuel, CallTail(nf, more, fun, p), or, s2.st);
    RanWithin(st, r, k, k1, nf, SteadyAll(fixed), v);
    hide Within;
    PassedLater(st, r.st, x.st, Count(more));
  }

  /** What follows once the area is filled: its address past the count, the function, the call, the release. */
  function CallTail(nf: nat, more: Exps, fun: Exps, p: nat): Code {
    Then(Ins([GetL(p), Const(16), Add]), Then(CompileArgs(fun, p + 1, true).0, Then(Call(nf + 1 + Count(fun)), Ins(CloseArea(p, more)))))
  }

  lemma AreaGood(r: State, s: State, k: nat, p: nat, more: Exps, i: nat)
    requires InArea(r, s, k, p, more, i)
    ensures Good(s.sp)
  {}

  lemma {:induction false} CallAndClose(P: seq<Code>, Fs: seq<Fun>, fuel: nat, nf: nat, more: Exps, fun: Exps, p: nat, or: Oracle,
                                        st: State, r: Out, s: State, k: nat, k1: nat, u: bool, v: bool)
    requires Compiled(P, Fs) && k <= k1 <= p && Ran(st, r, k, k1, nf, u, v) && InArea(r.st, s, k1, p, more, Count(more))
    requires Run(P, fuel, CallTail(nf, more, fun, p), or, s).Done?
    ensures var x := Run(P, fuel, CallTail(nf, more, fun, p), or, s);
            Ran(st, x, k, CompileArgs(fun, p + 1, true).1, 1, u, v) && PassedFrom(r.st, x.st, Count(more))
    decreases fuel, 1, fun, 1
  {
    var g := Count(fun);
    var (f, k2) := CompileArgs(fun, p + 1, true);
    var last := Then(Call(nf + 1 + g), Ins(CloseArea(p, more)));
    assert CallTail(nf, more, fun, p) == Then(Ins([GetL(p), Const(16), Add]), Then(f, last));
    hide Compiled, Good, Run, Ran, InArea, CloseArea, Count, CompileArgs, CallTail, SteadyAll, Local, PassedFrom;
    AreaGood(r.st, s, k1, p, more, Count(more));
    TempsArgs(fun, p + 1, true);
    RunThen(P, fuel, Ins([GetL(p), Const(16), Add]), Then(f, last), or, s);
    FirstArgument(P, fuel, p, or, s);
    var w := (Local(s, p) + 16) % M32;
    RunThen(P, fuel, f, last, or, Push(s, w));
    ArgsRuns(P, Fs, fuel, fun, p + 1, or, Push(s, w), true);
    var s4 := Run(P, fuel, f, or, Push(s, w));
    RanNext(Push(s, w), s4, p + 1, k2, g, SteadyAll(fun), true);
    CalledClosed(P, Fs, fuel, p, more, or, st, r, s, w, s4, k, k1, k2, nf, g, SteadyAll(fun), u, v);
  }

  lemma {:induction false} CalledClosed(P: seq<Code>, Fs: seq<Fun>, fuel: nat, p: nat, more: Exps, or: Oracle, st: State, r: Out, s: State,
                                        w: nat, s4: Out, k: nat, k1: nat, k2: nat, nf: nat, g: nat, u4: bool, u: bool, v: bool)
    requires Compiled(P, Fs) && k <= k1 <= p < k2 && Ran(st, r, k, k1, nf, u, v)
    requires InArea(r.st, s, k1, p, more, Count(more)) && Ran(Push(s, w), s4, p + 1, k2, g, u4, true)
    requires Run(P, fuel, Then(Call(nf + 1 + g), Ins(CloseArea(p, more))), or, s4.st).Done?
    ensures var x := Run(P, fuel, Then(Call(nf + 1 + g), Ins(CloseArea(p, more))), or, s4.st);
            Ran(st, x, k, k2, 1, u, v) && PassedFrom(r.st, x.st, Count(more))
    decreases fuel, 0, 1
  {
    RanSize(st, r, k, k1, nf, u, v);
    RanNext(Push(s, w), s4, p + 1, k2, g, u4, true);
    hide Compiled, Good, Run, Ran, InArea, CloseArea, Within, Marks, Filled, PassedFrom, Count;
    RunThen(P, fuel, Call(nf + 1 + g), Ins(CloseArea(p, more)), or, s4.st);
    CallRuns(P, Fs, fuel, nf + 1 + g, or, s4.st);
    var s5 := Run(P, fuel, Call(nf + 1 + g), or, s4.st).st;
    CalledInArea(r.st, s, w, s4, s5, k1, p, k2, nf, g, u4, more);
    Closed(P, fuel, p, more, or, st, r, s5, k, k1, k2, nf, u, v);
  }

  lemma RanSize(st: State, r: Out, k: nat, n: nat, g: nat, u: bool, v: bool)
    requires Ran(st, r, k, n, g, u, v)
    ensures r.Done? && g <= |r.st.stack|
  {}

  /** After the function expression and the call, from the state in which the area is filled. */
  lemma CalledInArea(r: State, s: State, w: nat, s4: Out, s5: State, k1: nat, p: nat, k2: nat, nf: nat, g: nat, u: bool, more: Exps)
    requires InArea(r, s, k1, p, more, Count(more)) && k1 <= p < k2 && Ran(Push(s, w), s4, p + 1, k2, g, u, true)
    requires nf <= |r.stack| && s5.locals == s4.st.locals && Within(s4.st, s5, s4.st.sp) && Marks(s4.st, s5, true)
    requires nf + 1 + g <= |s4.st.stack| && |s5.stack| == |s4.st.stack| - (nf + g)
    requires s5.stack[..|s4.st.stack| - (nf + 1 + g)] == s4.st.stack[..|s4.st.stack| - (nf + 1 + g)]
    ensures Within(r, s5, r.sp) && Marks(r, s5, true) && Local(s5, p) == Minus(r.sp, AreaSize(more))
    ensures forall x: nat :: x < k1 || k2 <= x ==> Local(s5, x) == Local(r, x)
    ensures |s5.stack| == |r.stack| - nf + 1 && s5.stack[..|r.stack| - nf] == r.stack[..|r.stack| - nf]
    ensures Filled(r, s5, Local(s5, p), Count(more), Count(more))
  {
    hide Within, Marks, AreaSize, Minus, Filled, Count;
    WithinSame(r, s, Push(s, w), r.sp);
    FilledSame(r, s, Push(s, w), Local(s, p), Count(more));
    CalledFilled(r, Push(s, w), s4, s5, p, k2, g, u, Local(s, p), Count(more));
    MarksSame(r, s, Push(s, w), true);
    WithinDown(r, Push(s, w), s4.st);
    MarksTrans(r, Push(s, w), s4.st, true);
    WithinDown(r, s4.st, s5);
    MarksTrans(r, s4.st, s5, true);
    PoppedSame(r, w, s4.st, s5, nf);
    forall x: nat | x < k1 || k2 <= x || x == p
      ensures Local(s5, x) == Local(s, x)
    {
      assert Local(s4.st, x) == Local(Push(s, w), x);
    }
  }

  lemma FilledSame(r: State, s: State, t: State, a: nat, m: nat)
    requires Filled(r, s, a, m, m) && t.sp == s.sp && t.low == s.low && t.log == s.log
    ensures Filled(r, t, a, m, m)
  {
    hide Live, Stacked, Into, Slots;
  }

  lemma CalledFilled(r: State, s: State, s4: Out, s5: State, p: nat, k2: nat, g: nat, u: bool, a: nat, m: nat)
    requires Filled(r, s, a, m, m) && Within(r, s, r.sp) && Ran(s, s4, p + 1, k2, g, u, true)
    requires Within(s4.st, s5, s4.st.sp) && Marks(s4.st, s5, true)
    ensures Filled(r, s5, a, m, m)
  {
    hide Within, Marks, Filled;
    FilledKept(r, s, s4.st, a, m, m);
    WithinDown(r, s, s4.st);
    FilledKept(r, s4.st, s5, a, m, m);
  }

  lemma RanWithin(st: State, r: Out, k: nat, n: nat, g: nat, u: bool, v: bool)
    requires Ran(st, r, k, n, g, u, v)
    ensures Within(st, r.st, st.sp)
  {
    hide Within, Marks;
  }

  lemma PoppedSame(r: State, w: nat, b: State, c: State, nf: nat)
    requires nf <= |r.stack| && |b.stack| >= |r.stack| + 1 && b.stack[..|r.stack| + 1] == Push(r, w).stack
    requires |c.stack| >= |r.stack| - nf && c.stack[..|r.stack| - nf] == b.stack[..|r.stack| - nf]
    ensures c.stack[..|r.stack| - nf] == r.stack[..|r.stack| - nf]
  {
    assert b.stack[..|r.stack| - nf] == b.stack[..|r.stack| + 1][..|r.stack| - nf];
    assert Push(r, w).stack[..|r.stack| - nf] == r.stack[..|r.stack| - nf];
  }

  // ---------- statements ----------

  /** The highest the stack pointer may be set: to `bp$` in a function that has it. */
  function Highest(st: State, bp: bool): nat { if bp then Local(st, BP) else st.sp }

  /** A completed run of a statement: it ends with the operand stack as it began; within a function that has
      `bp$`, a return has restored `sp$` from it, and in one that has not, `sp$` is as it was. */
  ghost predicate StmRan(st: State, r: Out, bp: bool, k: nat, n: nat) {
    && r.Done? && Good(r.st.sp)
    && (r.exit != Returned ==> Below(st, r.st, k, n, false) && r.st.stack == st.stack && (bp || r.st.sp == st.sp))
    && (r.exit == Returned ==> r.st.sp == Highest(st, bp) && Within(st, r.st, Highest(st, bp)) && Stores(st, r.st))
  }

  /** A statement that has not returned, then another. */
  lemma StmThen(a: State, r: Out, s: Out, bp: bool, k: nat, m: nat, n: nat)
    requires 1 <= k <= m <= n && StmRan(a, r, bp, k, m) && r.exit != Returned && StmRan(r.st, s, bp, m, n)
    requires !a.low ==> a.sp <= Highest(a, bp)
    ensures StmRan(a, s, bp, k, n)
  {
    hide Good;
    if s.exit != Returned {
      BelowTrans(a, r.st, s.st, k, m, n, false);
    } else {
      WithinReturn(a, r.st, s.st, Highest(a, bp));
      MarksStores(a, r.st, false);
      StoresTrans(a, r.st, s.st, Highest(a, bp));
    }
    hide Within, Marks, Stores;
  }

  lemma WithinReturn(a: State, b: State, c: State, hi: nat)
    requires Within(a, b, a.sp) && Within(b, c, hi) && (!a.low ==> a.sp <= hi)
    ensures Within(a, c, hi)
  {
    WithinRaise(a, b, a.sp, hi);
    hide Within;
    WithinTrans(a, b, c, hi, hi);
  }

  lemma WithinRaise(a: State, b: State, hi: nat, top: nat)
    requires Within(a, b, hi) && (!a.low ==> hi <= top)
    ensures Within(a, b, top)
  {
    hide Nested;
    if !b.low { NestedHigher(b.log[|a.log|..], a.sp, hi, top, b.sp); }
  }

  lemma StmWider(a: State, r: Out, bp: bool, k: nat, n: nat, j: nat, m: nat)
    requires StmRan(a, r, bp, k, n) && j <= k && n <= m
    ensures StmRan(a, r, bp, j, m)
  {
    if r.exit != Returned { BelowWider(a, r.st, k, n, j, m, false); }
  }

  lemma StmExit(a: State, r: Out, bp: bool, k: nat, n: nat, exit: Exit)
    requires StmRan(a, r, bp, k, n) && r.exit != Returned && exit != Returned
    ensures StmRan(a, Done(r.st, exit), bp, k, n)
  {}

  lemma StmSelf(a: State, bp: bool, k: nat, exit: Exit)
    requires Good(a.sp) && exit != Returned
    ensures StmRan(a, Done(a, exit), bp, k, k)
  {
    BelowSelf(a, k, false);
  }

  /** An expression whose value has been popped. */
  lemma StmOfExp(a: State, r: Out, s: State, bp: bool, k: nat, n: nat, u: bool)
    requires Ran(a, r, k, n, 1, u, false) && s == Pop(r.st, 1) && (bp || u)
    ensures r.st.stack != [] && StmRan(a, Done(s, Next), bp, k, n)
  {
    GrownPop(a, r.st, 1, 1);
    GrownNone(a, s);
    BelowSame(a, r.st, s, k, n, false);
  }

  ghost predicate StmFits(s: Stm, bp: bool, st: State, k: nat) {
    && Good(st.sp) && 1 <= k && (if bp then Good(Local(st, BP)) else !ContainsAlloca(s))
    && (!st.low ==> st.sp <= Highest(st, bp))
  }

  lemma FitsNext(s: Stm, bp: bool, st: State, r: Out, k: nat, m: nat)
    requires StmRan(st, r, bp, k, m) && r.exit != Returned && 1 <= k <= m && (bp ==> Good(Local(st, BP)))
    requires (!bp ==> !ContainsAlloca(s)) && (!st.low ==> st.sp <= Highest(st, bp))
    ensures StmFits(s, bp, r.st, m)
  {
    WithinEnd(st, r.st, st.sp);
    WithinLow(st, r.st, st.sp);
    hide Good, ContainsAlloca, Within;
  }

  lemma {:induction false} StmRuns(P: seq<Code>, Fs: seq<Fun>, fuel: nat, s: Stm, bp: bool, k: nat, or: Oracle, st: State)
    requires Compiled(P, Fs) && StmFits(s, bp, st, k) && Run(P, fuel, CompileStm(s, bp, k).0, or, st).Done?
    ensures k <= CompileStm(s, bp, k).1
    ensures StmRan(st, Run(P, fuel, CompileStm(s, bp, k).0, or, st), bp, k, CompileStm(s, bp, k).1)
    decreases fuel, 2, s, 1
  {
    hide Compiled, Run, StmRan, Good, CompileExp;
    match s
    case Skip => RunSkip(P, fuel, 0, or, st); StmSelf(st, bp, k, Next);
    case Do(e) => DoRuns(P, Fs, fuel, e, bp, k, or, st);
    case Two(a, b) => TwoRuns(P, Fs, fuel, a, b, bp, k, or, st);
    case Choose(e, a, b) => ChooseRuns(P, Fs, fuel, e, a, b, bp, k, or, st);
    case Labelled(a) => LabelledRuns(P, Fs, fuel, a, bp, k, or, st);
    case Repeat(a) => RepeatRuns(P, Fs, fuel, a, bp, k, or, st);
    case Jump(l) => RunSkip(P, fuel, l, or, st); StmSelf(st, bp, k, Branch(l));
    case JumpIf(e, l) => JumpIfRuns(P, Fs, fuel, e, l, bp, k, or, st);
    case Return(v) => ReturnRuns(P, Fs, fuel, v, bp, k, or, st);
  }

  lemma RunSkip(P: seq<Code>, fuel: nat, l: nat, or: Oracle, st: State)
    ensures Run(P, fuel, Nop, or, st) == Done(st, Next) && Run(P, fuel, Br(l), or, st) == Done(st, Branch(l))
    ensures Run(P, fuel, Ret, or, st) == Done(st, Returned)
  {
    hide ExecAll, RunFunction;
  }

  /** An expression evaluated first: its value on the operand stack, and the state once it is popped. */
  lemma {:induction false} Evaluated(P: seq<Code>, Fs: seq<Fun>, fuel: nat, e: Exp, bp: bool, k: nat, or: Oracle, st: State)
    requires Compiled(P, Fs) && Good(st.sp) && 1 <= k && (bp || !HasAlloca(e))
    requires Run(P, fuel, CompileExp(e, k, false).0, or, st).Done?
    ensures k <= CompileExp(e, k, false).1
    ensures var r := Run(P, fuel, CompileExp(e, k, false).0, or, st);
            r.exit == Next && r.st.stack != [] && StmRan(st, Done(Pop(r.st, 1), Next), bp, k, CompileExp(e, k, false).1)
    decreases fuel, 1, e, 2
  {
    hide Compiled, Run, StmRan, Good, CompileExp, Ran;
    TempsExp(e, k, false);
    ExpRuns(P, Fs, fuel, e, k, or, st, false);
    NoAllocaSteady(e);
    var r := Run(P, fuel, CompileExp(e, k, false).0, or, st);
    RanNext(st, r, k, CompileExp(e, k, false).1, 1, Steady(e), false);
    RanPop(st, r, k, CompileExp(e, k, false).1, 1, Steady(e), false);
    StmOfExp(st, r, Pop(r.st, 1), bp, k, CompileExp(e, k, false).1, Steady(e));
  }

  lemma {:induction false} DoRuns(P: seq<Code>, Fs: seq<Fun>, fuel: nat, e: Exp, bp: bool, k: nat, or: Oracle, st: State)
    requires Compiled(P, Fs) && StmFits(Do(e), bp, st, k) && Run(P, fuel, CompileStm(Do(e), bp, k).0, or, st).Done?
    ensures k <= CompileStm(Do(e), bp, k).1
    ensures StmRan(st, Run(P, fuel, CompileStm(Do(e), bp, k).0, or, st), bp, k, CompileStm(Do(e), bp, k).1)
    decreases fuel, 2, Do(e), 0
  {
    var (c, n) := CompileExp(e, k, false);
    assert CompileStm(Do(e), bp, k) == (Then(c, Ins([Drop])), n);
    hide Compiled, Run, StmRan, Good, CompileExp, CompileStm;
    RunThen(P, fuel, c, Ins([Drop]), or, st);
    Evaluated(P, Fs, fuel, e, bp, k, or, st);
    var r := Run(P, fuel, c, or, st);
    DropRuns(P, fuel, or, r.st);
  }

  lemma DropRuns(P: seq<Code>, fuel: nat, or: Oracle, st: State)
    requires st.stack != []
    ensures Run(P, fuel, Ins([Drop]), or, st) == Done(Pop(st, 1), Next)
  {
    RunIns(P, fuel, [Drop], or, st);
    ExecStep([Drop], or, st);
    assert [Drop][1..] == [];
    ExecNone(or, Pop(st, 1));
  }

  lemma {:induction false} TwoRuns(P: seq<Code>, Fs: seq<Fun>, fuel: nat, a: Stm, b: Stm, bp: bool, k: nat, or: Oracle, st: State)
    requires Compiled(P, Fs) && StmFits(Two(a, b), bp, st, k) && Run(P, fuel, CompileStm(Two(a, b), bp, k).0, or, st).Done?
    ensures k <= CompileStm(Two(a, b), bp, k).1
    ensures StmRan(st, Run(P, fuel, CompileStm(Two(a, b), bp, k).0, or, st), bp, k, CompileStm(Two(a, b), bp, k).1)
    decreases fuel, 2, Two(a, b), 0
  {
    var (c, k1) := CompileStm(a, bp, k);
    var (d, k2) := CompileStm(b, bp, k1);
    assert CompileStm(Two(a, b), bp, k) == (Then(c, d), k2);
    assert !ContainsAlloca(Two(a, b)) ==> !ContainsAlloca(a) && !ContainsAlloca(b);
    hide Compiled, Run, StmRan, Good, CompileStm, ContainsAlloca;
    RunThen(P, fuel, c, d, or, st);
    StmRuns(P, Fs, fuel, a, bp, k, or, st);
    var r := Run(P, fuel, c, or, st);
    StmTemps(b, bp, k1);
    if r.exit == Next {
      FitsNext(b, bp, st, r, k, k1);
      StmRuns(P, Fs, fuel, b, bp, k1, or, r.st);
      StmThen(st, r, Run(P, fuel, d, or, r.st), bp, k, k1, k2);
    } else {
      StmWider(st, r, bp, k, k1, k, k2);
    }
  }

  lemma {:induction false} StmTemps(s: Stm, bp: bool, k: nat)
    ensures k <= CompileStm(s, bp, k).1
  {
    hide CompileExp;
    match s
    case Do(e) => TempsExp(e, k, false);
    case Two(a, b) => StmTemps(a, bp, k); StmTemps(b, bp, CompileStm(a, bp, k).1);
    case Choose(e, a, b) =>
      TempsExp(e, k, false);
      StmTemps(a, bp, CompileExp(e, k, false).1);
      StmTemps(b, bp, CompileStm(a, bp, CompileExp(e, k, false).1).1);
    case Labelled(a) => StmTemps(a, bp, k);
    case Repeat(a) => StmTemps(a, bp, k);
    case JumpIf(e, _) => TempsExp(e, k, false);
    case Return(v) => if v.Some? { TempsExp(v.value, k, false); }
    case _ =>
  }

  lemma {:induction false} ChooseRuns(P: seq<Code>, Fs: seq<Fun>, fuel: nat, e: Exp, a: Stm, b: Stm, bp: bool, k: nat, or: Oracle, st: State)
    requires Compiled(P, Fs) && StmFits(Choose(e, a, b), bp, st, k)
    requires Run(P, fuel, CompileStm(Choose(e, a, b), bp, k).0, or, st).Done?
    ensures k <= CompileStm(Choose(e, a, b), bp, k).1
    ensures StmRan(st, Run(P, fuel, CompileStm(Choose(e, a, b), bp, k).0, or, st), bp, k, CompileStm(Choose(e, a, b), bp, k).1)
    decreases fuel, 2, Choose(e, a, b), 0
  {
    var (c, k1) := CompileExp(e, k, false);
    var (d, k2) := CompileStm(a, bp, k1);
    var (f, k3) := CompileStm(b, bp, k2);
    assert CompileStm(Choose(e, a, b), bp, k) == (Then(c, If(d, f)), k3);
    assert !ContainsAlloca(Choose(e, a, b)) ==> !HasAlloca(e) && !ContainsAlloca(a) && !ContainsAlloca(b);
    hide Compiled, Run, StmRan, Good, CompileStm, CompileExp, ContainsAlloca, HasAlloca;
    RunThen(P, fuel, c, If(d, f), or, st);
    Evaluated(P, Fs, fuel, e, bp, k, or, st);
    var r := Run(P, fuel, c, or, st);
    RunIf(P, fuel, d, f, or, r.st);
    StmTemps(a, bp, k1);
    StmTemps(b, bp, k2);
    var s := Done(Pop(r.st, 1), Next);
    if Top(r.st) != 0 {
      FitsNext(a, bp, st, s, k, k1);
      StmRuns(P, Fs, fuel, a, bp, k1, or, s.st);
      StmWider(s.st, Run(P, fuel, d, or, s.st), bp, k1, k2, k1, k3);
      StmThen(st, s, Run(P, fuel, d, or, s.st), bp, k, k1, k3);
    } else {
      StmWider(st, s, bp, k, k1, k, k2);
      FitsNext(b, bp, st, s, k, k2);
      StmRuns(P, Fs, fuel, b, bp, k2, or, s.st);
      StmThen(st, s, Run(P, fuel, f, or, s.st), bp, k, k2, k3);
    }
  }

  lemma RunBlock(P: seq<Code>, fuel: nat, c: Code, or: Oracle, st: State)
    ensures Run(P, fuel, Block(c), or, st) ==
            var r := Run(P, fuel, c, or, st);
            if r.Done? && r.exit.Branch? then Done(r.st, if r.exit.l == 0 then Next else Branch(r.exit.l - 1)) else r
    ensures Run(P, fuel, Loop(c), or, st) ==
            var r := Run(P, fuel, c, or, st);
            if r.Done? && r.exit == Branch(0) then (if fuel == 0 then Timeout else Run(P, fuel - 1, Loop(c), or, r.st))
            else if r.Done? && r.exit.Branch? then Done(r.st, Branch(r.exit.l - 1))
            else r
  {
    hide ExecAll, RunFunction;
  }

  lemma {:induction false} LabelledRuns(P: seq<Code>, Fs: seq<Fun>, fuel: nat, a: Stm, bp: bool, k: nat, or: Oracle, st: State)
    requires Compiled(P, Fs) && StmFits(Labelled(a), bp, st, k) && Run(P, fuel, CompileStm(Labelled(a), bp, k).0, or, st).Done?
    ensures k <= CompileStm(Labelled(a), bp, k).1
    ensures StmRan(st, Run(P, fuel, CompileStm(Labelled(a), bp, k).0, or, st), bp, k, CompileStm(Labelled(a), bp, k).1)
    decreases fuel, 2, Labelled(a), 0
  {
    var (c, n) := CompileStm(a, bp, k);
    assert CompileStm(Labelled(a), bp, k) == (Block(c), n);
    hide Compiled, Run, StmRan, Good, CompileStm;
    RunBlock(P, fuel, c, or, st);
    StmRuns(P, Fs, fuel, a, bp, k, or, st);
    var r := Run(P, fuel, c, or, st);
    if r.exit.Branch? { StmExit(st, r, bp, k, n, if r.exit.l == 0 then Next else Branch(r.exit.l - 1)); }
  }

  lemma {:induction false} RepeatRuns(P: seq<Code>, Fs: seq<Fun>, fuel: nat, a: Stm, bp: bool, k: nat, or: Oracle, st: State)
    requires Compiled(P, Fs) && StmFits(Repeat(a), bp, st, k) && Run(P, fuel, CompileStm(Repeat(a), bp, k).0, or, st).Done?
    ensures k <= CompileStm(Repeat(a), bp, k).1
    ensures StmRan(st, Run(P, fuel, CompileStm(Repeat(a), bp, k).0, or, st), bp, k, CompileStm(Repeat(a), bp, k).1)
    decreases fuel, 2, Repeat(a), 0
  {
    var (c, n) := CompileStm(a, bp, k);
    assert CompileStm(Repeat(a), bp, k) == (Loop(c), n);
    hide Compiled, Run, StmRan, Good, CompileStm;
    RunBlock(P, fuel, c, or, st);
    StmRuns(P, Fs, fuel, a, bp, k, or, st);
    var r := Run(P, fuel, c, or, st);
    if r.exit == Branch(0) {
      FitsAgain(Repeat(a), bp, st, r, k, n);
      StmRuns(P, Fs, fuel - 1, Repeat(a), bp, k, or, r.st);
      StmAgain(st, r, Run(P, fuel - 1, Loop(c), or, r.st), bp, k, n);
    } else if r.exit.Branch? {
      StmExit(st, r, bp, k, n, Branch(r.exit.l - 1));
    }
  }

  lemma FitsAgain(s: Stm, bp: bool, st: State, r: Out, k: nat, n: nat)
    requires StmFits(s, bp, st, k) && StmRan(st, r, bp, k, n) && r.exit != Returned
    ensures StmFits(s, bp, r.st, k)
  {
    WithinEnd(st, r.st, st.sp);
    WithinLow(st, r.st, st.sp);
    hide Good, ContainsAlloca, Within;
  }

  /** Another round of a loop, with the same temporaries. */
  lemma StmAgain(a: State, r: Out, s: Out, bp: bool, k: nat, n: nat)
    requires 1 <= k && StmRan(a, r, bp, k, n) && r.exit != Returned && StmRan(r.st, s, bp, k, n)
    requires !a.low ==> a.sp <= Highest(a, bp)
    ensures StmRan(a, s, bp, k, n)
  {
    if s.exit != Returned {
      WithinDown(a, r.st, s.st);
      MarksTrans(a, r.st, s.st, false);
    } else {
      WithinReturn(a, r.st, s.st, Highest(a, bp));
      MarksStores(a, r.st, false);
      StoresTrans(a, r.st, s.st, Highest(a, bp));
    }
    hide Good, Within, Marks, Stores;
  }

  lemma {:induction false} JumpIfRuns(P: seq<Code>, Fs: seq<Fun>, fuel: nat, e: Exp, l: nat, bp: bool, k: nat, or: Oracle, st: State)
    requires Compiled(P, Fs) && StmFits(JumpIf(e, l), bp, st, k) && Run(P, fuel, CompileStm(JumpIf(e, l), bp, k).0, or, st).Done?
    ensures k <= CompileStm(JumpIf(e, l), bp, k).1
    ensures StmRan(st, Run(P, fuel, CompileStm(JumpIf(e, l), bp, k).0, or, st), bp, k, CompileStm(JumpIf(e, l), bp, k).1)
    decreases fuel, 2, JumpIf(e, l), 0
  {
    var (c, n) := CompileExp(e, k, false);
    assert CompileStm(JumpIf(e, l), bp, k) == (Then(c, BrIf(l)), n);
    hide Compiled, Run, StmRan, Good, CompileExp, CompileStm;
    RunThen(P, fuel, c, BrIf(l), or, st);
    Evaluated(P, Fs, fuel, e, bp, k, or, st);
    var r := Run(P, fuel, c, or, st);
    RunBrIf(P, fuel, l, or, r.st);
    StmExit(st, Done(Pop(r.st, 1), Next), bp, k, n, if Top(r.st) != 0 then Branch(l) else Next);
  }

  lemma RunBrIf(P: seq<Code>, fuel: nat, l: nat, or: Oracle, st: State)
    requires st.stack != []
    ensures Run(P, fuel, BrIf(l), or, st) == Done(Pop(st, 1), if Top(st) != 0 then Branch(l) else Next)
  {
    hide ExecAll, RunFunction;
  }

  /** The code of a return: the value, then `sp$` from `bp$` if there is one. */
  lemma {:induction false} ReturnRuns(P: seq<Code>, Fs: seq<Fun>, fuel: nat, v: Option<Exp>, bp: bool, k: nat, or: Oracle, st: State)
    requires Compiled(P, Fs) && StmFits(Return(v), bp, st, k) && Run(P, fuel, CompileStm(Return(v), bp, k).0, or, st).Done?
    ensures k <= CompileStm(Return(v), bp, k).1
    ensures StmRan(st, Run(P, fuel, CompileStm(Return(v), bp, k).0, or, st), bp, k, CompileStm(Return(v), bp, k).1)
    decreases fuel, 2, Return(v), 0
  {
    var (c, n) := if v.Some? then CompileExp(v.value, k, false) else (Nop, k);
    var tail := if bp then Then(Ins([GetL(BP), SetSp(Release)]), Ret) else Ret;
    assert CompileStm(Return(v), bp, k) == (Then(c, tail), n);
    hide Compiled, Run, Good, CompileExp, CompileStm, Ran;
    RunThen(P, fuel, c, tail, or, st);
    var r := Run(P, fuel, c, or, st);
    if v.Some? {
      TempsExp(v.value, k, false);
      ExpRuns(P, Fs, fuel, v.value, k, or, st, false);
      NoAllocaSteady(v.value);
      ValueRan(st, r, k, n, Steady(v.value), bp);
    } else {
      RunSkip(P, fuel, 0, or, st);
      WithinSelf(st);
      StoresSelf(st);
    }
    RestoreRuns(P, fuel, bp, or, r.st);
    if bp { StoresReset(st, r.st, Local(st, BP)); }
    ReturnWithin(st, r.st, bp);
    hide Within, Stores, Marks;
  }

  /** A return takes the stack pointer no higher than `bp$`. */
  lemma ReturnWithin(st: State, b: State, bp: bool)
    requires Within(st, b, st.sp) && (bp || b.sp == st.sp) && (!st.low ==> st.sp <= Highest(st, bp))
    ensures Within(st, if bp then Moved(b, Release, Local(st, BP)) else b, Highest(st, bp))
  {
    if bp {
      WithinEnd(st, b, st.sp);
      WithinLow(st, b, st.sp);
      ResetWithin(b, Local(st, BP), Local(st, BP));
      hide Within;
      WithinReturn(st, b, Moved(b, Release, Local(st, BP)), Local(st, BP));
    }
  }

  lemma ValueRan(st: State, r: Out, k: nat, n: nat, u: bool, bp: bool)
    requires 1 <= k && Ran(st, r, k, n, 1, u, false) && (bp || u)
    ensures r.exit == Next && Good(r.st.sp) && Within(st, r.st, st.sp) && Local(r.st, BP) == Local(st, BP) && (bp || r.st.sp == st.sp)
    ensures Stores(st, r.st)
  {
    MarksStores(st, r.st, false);
    hide Within, Marks, Stores;
  }

  lemma RestoreRuns(P: seq<Code>, fuel: nat, bp: bool, or: Oracle, st: State)
    ensures var x := Run(P, fuel, if bp then Then(Ins([GetL(BP), SetSp(Release)]), Ret) else Ret, or, st);
            x == Done(if bp then Moved(st, Release, Local(st, BP)) else st, Returned)
  {
    hide Exec, Push, Local, Run;
    RunSkip(P, fuel, 0, or, st);
    if bp {
      var run, s := [GetL(BP), SetSp(Release)], Moved(st, Release, Local(st, BP));
      RunThen(P, fuel, Ins(run), Ret, or, st);
      RunIns(P, fuel, run, or, st);
      assert run[1..] == [SetSp(Release)] && [SetSp(Release)][1..] == [];
      DoGetL(BP, or, st);
      ExecStep(run, or, st);
      DoSetSp(Local(st, BP), Release, or, st);
      ExecStep([SetSp(Release)], or, Push(st, Local(st, BP)));
      ExecNone(or, s);
      RunSkip(P, fuel, 0, or, s);
    }
  }

  // ---------- functions ----------

  lemma SaveRuns(P: seq<Code>, fuel: nat, or: Oracle, st: State)
    ensures Run(P, fuel, Ins([GetSp, SetL(BP)]), or, st) == Done(st.(locals := st.locals[BP := st.sp]), Next)
  {
    hide Exec, Push, Run;
    var run, s := [GetSp, SetL(BP)], st.(locals := st.locals[BP := st.sp]);
    RunIns(P, fuel, run, or, st);
    assert run[1..] == [SetL(BP)] && [SetL(BP)][1..] == [];
    DoGetSp(or, st);
    ExecStep(run, or, st);
    DoSet(st.sp, BP, or, st);
    ExecStep([SetL(BP)], or, Push(st, st.sp));
    ExecNone(or, s);
  }

  /** The frame: aligned, and below the saved stack pointer unless the size wrapped around. */
  lemma FrameRuns(P: seq<Code>, fuel: nat, size: nat, or: Oracle, st: State)
    requires Good(st.sp)
    ensures var x := Run(P, fuel, Ins(AllocaCode(size, Own) + [SetL(1)]), or, st);
            var a := Minus(st.sp, RoundUp16(size));
            var out := Took(st, RoundUp16(size), Own, a).(locals := st.locals[1 := a]);
            && x == Done(out, Next) && Good(a) && (st.sp >= RoundUp16(size) ==> a + RoundUp16(size) == st.sp)
            && Within(st, out, st.sp)
  {
    hide Exec, Push, Run, AllocaCode, RoundUp16, Minus, Within;
    RunIns(P, fuel, AllocaCode(size, Own) + [SetL(1)], or, st);
    ExecConcat(AllocaCode(size, Own), [SetL(1)], or, st);
    AllocaRuns(size, Own, or, st);
    var a := Minus(st.sp, RoundUp16(size));
    var s := Took(st, RoundUp16(size), Own, a);
    DoSet(a, 1, or, s);
    WithinSame(st, s, s.(locals := s.locals[1 := a]), st.sp);
    assert [SetL(1)][1..] == [];
    ExecStep([SetL(1)], or, Push(s, a));
    ExecNone(or, s.(locals := s.locals[1 := a]));
  }

  /** Every completed call leaves the stack pointer where it was, whatever the function calls, allocates, and
      however it returns; and all that happened to the stack memory stayed below it. */
  lemma {:induction false} FunctionBalanced(P: seq<Code>, Fs: seq<Fun>, fuel: nat, f: nat, or: Oracle, sp: nat, o: nat, low: bool,
                                            log: seq<Event>)
    requires Compiled(P, Fs) && f < |P| && Good(sp)
    ensures var r := RunFunction(P, fuel, f, or, sp, o, low, log);
            r.Done? && r.exit == Returned ==>
              r.st.sp == sp && Within(Entry(sp, o, low, log), r.st, sp) && Stores(Entry(sp, o, low, log), r.st)
    decreases fuel, 3
  {
    var st := Entry(sp, o, low, log);
    var F := Fs[f];
    var (c, n) := CompileStm(F.body, NeedsBp(F), 2);
    assert P[f] == CompileFun(F);
    assert RunFunction(P, fuel, f, or, sp, o, low, log) == Run(P, fuel, P[f], or, st);
    hide Compiled, Run, CompileStm, Good, ContainsAlloca, AllocaCode, Within, RoundUp16, Minus, Stores;
    if !NeedsBp(F) {
      if Run(P, fuel, c, or, st).Done? { StmRuns(P, Fs, fuel, F.body, false, 2, or, st); }
    } else {
      var s := st.(locals := st.locals[BP := sp]);
      SaveRuns(P, fuel, or, st);
      var rest := if F.frame > 0 then Then(Ins(AllocaCode(F.frame, Own) + [SetL(1)]), c) else c;
      RunThen(P, fuel, Ins([GetSp, SetL(BP)]), rest, or, st);
      WithinSelf(s);
      StoresSelf(s);
      var b := s;
      if F.frame > 0 {
        FrameRuns(P, fuel, F.frame, or, s);
        RunThen(P, fuel, Ins(AllocaCode(F.frame, Own) + [SetL(1)]), c, or, s);
        b := Run(P, fuel, Ins(AllocaCode(F.frame, Own) + [SetL(1)]), or, s).st;
        StoresTook(s, RoundUp16(F.frame), Own, b.sp);
        StoresAs(s, Took(s, RoundUp16(F.frame), Own, b.sp), b);
      }
      assert Local(b, BP) == sp;
      if Run(P, fuel, c, or, b).Done? {
        WithinEnd(s, b, sp);
        StmRuns(P, Fs, fuel, F.body, true, 2, or, b);
        var r := Run(P, fuel, c, or, b);
        if r.exit == Returned {
          WithinFields(s, b, st, b, sp);
          WithinReturn(st, b, r.st, sp);
          StoresFrom(s, b, st);
          StoresTrans(st, b, r.st, sp);
        }
      }
    }
  }

  /** Every area that a completed statement claims, in itself or in a function it calls, is aligned and inside
      [0, `bp$`), or below the stack pointer it began with where there is no `bp$`; at every moment the areas in use are
      apart, and those of the callers stay in use; however it ends, unless an area did not fit. */
  lemma StatementStaysBelow(P: seq<Code>, Fs: seq<Fun>, fuel: nat, s: Stm, bp: bool, k: nat, or: Oracle, st: State)
    requires Compiled(P, Fs) && StmFits(s, bp, st, k) && Run(P, fuel, CompileStm(s, bp, k).0, or, st).Done?
    requires Stacked(Live(st.log), st.sp)
    ensures var r := Run(P, fuel, CompileStm(s, bp, k).0, or, st);
            && Good(r.st.sp) && (r.exit != Returned && !r.st.low ==> r.st.sp <= st.sp)
            && (!r.st.low ==> AreasNest(st, r.st, if r.exit == Returned then Highest(st, bp) else st.sp))
  {
    hide Compiled, Run, CompileStm, Good, StmFits, Within, Stacked, Live, AreasNest;
    StmRuns(P, Fs, fuel, s, bp, k, or, st);
    var r := Run(P, fuel, CompileStm(s, bp, k).0, or, st);
    var hi := if r.exit == Returned then Highest(st, bp) else st.sp;
    if !r.st.low {
      WithinEnd(st, r.st, hi);
      WithinNest(st, r.st, hi);
    }
  }

  /** A completed call claims only aligned areas inside [0, `sp$` at entry), apart from all others in use at the time;
      the areas in use at entry stay in use throughout; and when it returns, no other area with a byte in it is. */
  lemma CallAreas(P: seq<Code>, Fs: seq<Fun>, fuel: nat, f: nat, or: Oracle, sp: nat, o: nat, low: bool, log: seq<Event>)
    requires Compiled(P, Fs) && f < |P| && Good(sp) && Stacked(Live(log), sp)
    ensures var r := RunFunction(P, fuel, f, or, sp, o, low, log);
            r.Done? && r.exit == Returned && !r.st.low ==>
              && AreasNest(Entry(sp, o, low, log), r.st, sp)
              && forall a :: a in Live(r.st.log) && a.size > 0 ==> a in Live(log)
  {
    var r := RunFunction(P, fuel, f, or, sp, o, low, log);
    hide Compiled, Run, RunFunction, Good, Within, Live, Stacked, AreasNest;
    FunctionBalanced(P, Fs, fuel, f, or, sp, o, low, log);
    if r.Done? && r.exit == Returned && !r.st.low {
      WithinNest(Entry(sp, o, low, log), r.st, sp);
      NestStacked(Entry(sp, o, low, log), r.st, sp);
      StackedAbove(Live(r.st.log), sp);
    }
  }

  lemma NestStacked(st: State, out: State, hi: nat)
    requires AreasNest(st, out, hi)
    ensures Stacked(Live(out.log), out.sp)
  {
    hide Live, Stacked, Apart, Keeps;
  }

  lemma StackedAbove(L: seq<Area>, sp: nat)
    requires Stacked(L, sp)
    ensures forall a :: a in L ==> a.base >= sp
  {}

  /** Of the non-empty areas that a completed expression claims itself, exactly those are in use after it whose `alloca`
      is in no variadic call: not among its remaining arguments, nor in its function expression. */
  lemma ExpAreasLast(P: seq<Code>, Fs: seq<Fun>, fuel: nat, e: Exp, k: nat, or: Oracle, st: State)
    requires Compiled(P, Fs) && Good(st.sp) && Run(P, fuel, CompileExp(e, k, false).0, or, st).Done?
    requires Stacked(Live(st.log), st.sp)
    ensures var r := Run(P, fuel, CompileExp(e, k, false).0, or, st);
            !r.st.low ==> Lasting(|st.log|, r.st.log)
  {
    hide Compiled, Run, CompileExp, Good, Within, Stacked, Live, Lasting;
    ExpRuns(P, Fs, fuel, e, k, or, st, false);
  }

  /** And so it is after a statement, however many it is made of and however often its loops repeat, until the
      function returns. */
  lemma AreasLast(P: seq<Code>, Fs: seq<Fun>, fuel: nat, s: Stm, bp: bool, k: nat, or: Oracle, st: State)
    requires Compiled(P, Fs) && StmFits(s, bp, st, k) && Run(P, fuel, CompileStm(s, bp, k).0, or, st).Done?
    requires Stacked(Live(st.log), st.sp)
    ensures var r := Run(P, fuel, CompileStm(s, bp, k).0, or, st);
            r.exit != Returned && !r.st.low ==> Lasting(|st.log|, r.st.log)
  {
    hide Compiled, Run, CompileStm, Good, StmFits, Within, Stacked, Live, Lasting;
    StmRuns(P, Fs, fuel, s, bp, k, or, st);
  }

  /** Everything that a completed call stores, in itself or in a function it calls, is stored inside an area in use at the
      time, at whose start the address stored to is. */
  lemma CallStores(P: seq<Code>, Fs: seq<Fun>, fuel: nat, f: nat, or: Oracle, sp: nat, o: nat, low: bool, log: seq<Event>)
    requires Compiled(P, Fs) && f < |P| && Good(sp) && Stacked(Live(log), sp)
    ensures var r := RunFunction(P, fuel, f, or, sp, o, low, log);
            r.Done? && r.exit == Returned && !r.st.low ==> Placed(|log|, r.st.log, sp)
  {
    hide Compiled, Run, RunFunction, Good, Within, Live, Stacked, Placed;
    FunctionBalanced(P, Fs, fuel, f, or, sp, o, low, log);
  }

  lemma {:induction false} SlotsAre(m: nat)
    ensures |Slots(m)| == 1 + m && Slots(m)[0] == (0, 4) && forall i :: 1 <= i <= m ==> Slots(m)[i] == (16 * i, 16)
  {
    if m > 0 { SlotsAre(m - 1); }
  }

  /** A completed variadic call with `m` remaining arguments opens an area of exactly a slot of 16 bytes for their count and
      one for each of them, and stores the count and every argument in its own slot, in turn, and nothing else. */
  lemma VariadicStores(P: seq<Code>, Fs: seq<Fun>, fuel: nat, fixed: Exps, more: Exps, fun: Exps, k: nat, or: Oracle, st: State, v: bool)
    requires var e := ApplyVar(fixed, more, fun);
             Compiled(P, Fs) && Good(st.sp) && Run(P, fuel, CompileExp(e, k, v).0, or, st).Done?
    requires Stacked(Live(st.log), st.sp)
    ensures var out := Run(P, fuel, CompileExp(ApplyVar(fixed, more, fun), k, v).0, or, st).st;
            !out.low ==>
              exists j :: |st.log| <= j < |out.log| && out.log[j].Claimed? && out.log[j].size == 16 * (1 + Count(more))
                && var into := Into(out.log, j, out.log[j].base);
                   |into| == 1 + Count(more) && into[0] == (0, 4) && forall i :: 1 <= i <= Count(more) ==> into[i] == (16 * i, 16)
  {
    hide Compiled, Run, CompileExp, Good, Live, Stacked, Ran, Slots, Into;
    ApplyVarRuns(P, Fs, fuel, fixed, more, fun, k, or, st, v);
    SlotsAre(Count(more));
  }

  lemma ArgumentOnly(size: nat)
    ensures var e := ApplyVar(End, More(AllocaConst(size), End), End); HasAlloca(e) && Steady(e)
  {
    assert HasAlloca(AllocaConst(size));
    assert AnyAlloca(More(AllocaConst(size), End));
  }

  /** Variadic calls give memory back early: an `alloca` among the remaining arguments of a variadic call is released
      when the call ends, before the function returns. */
  lemma VariadicArgumentReleased(P: seq<Code>, Fs: seq<Fun>, fuel: nat, size: nat, k: nat, or: Oracle, st: State)
    requires Compiled(P, Fs) && Good(st.sp)
    requires var e := ApplyVar(End, More(AllocaConst(size), End), End); Run(P, fuel, CompileExp(e, k, false).0, or, st).Done?
    ensures var e := ApplyVar(End, More(AllocaConst(size), End), End);
            HasAlloca(e) && Run(P, fuel, CompileExp(e, k, false).0, or, st).st.sp == st.sp
  {
    var e := ApplyVar(End, More(AllocaConst(size), End), End);
    ArgumentOnly(size);
    hide Compiled, Run, CompileExp, Good, HasAlloca, Steady;
    ExpRuns(P, Fs, fuel, e, k, or, st, false);
  }
}
