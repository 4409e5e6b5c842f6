/** Structured WebAssembly code for labelled blocks, and the proof that compiled code
    runs like the blocks (sections 4.4.8 and 4.4.9 of the WebAssembly Core Specification). */
module WasmControl {
  import opened ControlFlow
  import opened SwitchTable

  datatype Instr =
    | IAct(a: nat)                 // code of an expression evaluated for its effect
    | IVal(id: nat)                // code that pushes an expression's value
    | IConst(v: i32)
    | IEqz
    | IEq
    | ISub
    | ISetTemp(t: nat)
    | IGetTemp(t: nat)
    | IBlock(l: Label, body: Code)
    | ILoop(l: Label, body: Code)
    | IIf(thn: Code, els: Code)
    | IBr(l: Label)
    | IBrIf(l: Label)
    | IBrTable(ls: seq<Label>, d: Label)
    | IReturn

  datatype Code = End | Then(head: Instr, tail: Code)

  /** How code ends: past its last instruction with an operand stack and registers,
      at a branch to an outer label, returning, out of repetitions, or stuck. */
  datatype WOut<S> =
    | WNormal(s: S, stack: seq<i32>, temps: map<nat, i32>)
    | WBr(l: Label, s: S, temps: map<nat, i32>)
    | WReturn(s: S)
    | WTimeout
    | WTrap

  function Temp(temps: map<nat, i32>, t: nat): i32 { if t in temps then temps[t] else 0 }

  /** Leaving a block: its own operands must be used up, the ones below it come back. */
  function Leave<S>(l: Label, o: WOut<S>, stack: seq<i32>): WOut<S> {
    match o
    case WNormal(s, own, temps) => if own == [] then WNormal(s, stack, temps) else WTrap
    case WBr(l1, s, temps) => if l1 == l then WNormal(s, stack, temps) else o
    case _ => o
  }

  function Top(stack: seq<i32>): i32
    requires stack != []
  {
    stack[|stack| - 1]
  }

  function Pop(stack: seq<i32>): seq<i32>
    requires stack != []
  {
    stack[..|stack| - 1]
  }

  function Step<S>(E: Env<S>, i: Instr, s: S, stack: seq<i32>, temps: map<nat, i32>, f: nat): WOut<S>
    decreases f, i
  {
    match i
    case IAct(a) => WNormal(E.act(a, s), stack, temps)
    case IVal(id) => var (v, s1) := E.val(id, s); WNormal(s1, stack + [v], temps)
    case IConst(v) => WNormal(s, stack + [v], temps)
    case IEqz =>
      if stack == [] then WTrap else WNormal(s, Pop(stack) + [if Top(stack) == 0 then 1 else 0], temps)
    case IEq =>
      if |stack| < 2 then WTrap
      else WNormal(s, Pop(Pop(stack)) + [if Top(Pop(stack)) == Top(stack) then 1 else 0], temps)
    case ISub =>
      if |stack| < 2 then WTrap
      else WNormal(s, Pop(Pop(stack)) + [Wrap(Top(Pop(stack)) as int - Top(stack))], temps)
    case ISetTemp(t) => if stack == [] then WTrap else WNormal(s, Pop(stack), temps[t := Top(stack)])
    case IGetTemp(t) => WNormal(s, stack + [Temp(temps, t)], temps)
    case IBlock(l, b) => Leave(l, RunCode(E, b, s, [], temps, f), stack)
    case ILoop(l, b) =>
      var o := RunCode(E, b, s, [], temps, f);
      if o.WBr? && o.l == l then (if f == 0 then WTimeout else Step(E, i, o.s, stack, o.temps, f - 1))
      else Leave(l, o, stack)
    case IIf(x, y) =>
      if stack == [] then WTrap
      else if Top(stack) != 0 then Inner(RunCode(E, x, s, [], temps, f), Pop(stack))
      else Inner(RunCode(E, y, s, [], temps, f), Pop(stack))
    case IBr(l) => WBr(l, s, temps)
    case IBrIf(l) =>
      if stack == [] then WTrap else if Top(stack) != 0 then WBr(l, s, temps) else WNormal(s, Pop(stack), temps)
    case IBrTable(ls, d) => if stack == [] then WTrap else WBr(TableTarget(ls, d, Top(stack)), s, temps)
    case IReturn => WReturn(s)
  }

  /** Leaving a block without a name of its own. */
  function Inner<S>(o: WOut<S>, stack: seq<i32>): WOut<S> {
    match o
    case WNormal(s, own, temps) => if own == [] then WNormal(s, stack, temps) else WTrap
    case _ => o
  }

  function RunCode<S>(E: Env<S>, c: Code, s: S, stack: seq<i32>, temps: map<nat, i32>, f: nat): WOut<S>
    decreases f, c
  {
    match c
    case End => WNormal(s, stack, temps)
    case Then(i, rest) =>
      var o := Step(E, i, s, stack, temps, f);
      if o.WNormal? then RunCode(E, rest, o.s, o.stack, o.temps, f) else o
  }

  // ---------- compilation ----------

  function Append(a: Code, b: Code): Code {
    match a case End => b case Then(i, rest) => Then(i, Append(rest, b))
  }

  function Only(i: Instr): Code { Then(i, End) }

  function ExpCode(e: Exp): Code {
    match e
    case Opaque(id) => Only(IVal(id))
    case One => Only(IConst(1))
    case Not(x) => Append(ExpCode(x), Only(IEqz))
  }

  /** One comparison and conditional branch for each case, in ascending order, then the default. */
  function EqualityChain(get: Instr, cases: seq<(i32, Label)>, d: Label): Code {
    if cases == [] then Only(IBr(d))
    else Then(IConst(cases[0].0), Then(get, Then(IEq, Then(IBrIf(cases[0].1), EqualityChain(get, cases[1..], d)))))
  }

  function SubtractLowest(off: i32): Code {
    if off == 0 then End else Then(IConst(off), Only(ISub))
  }

  /** Code for a sorted switch: a jump table when dense enough, else comparisons. A selector that is
      just a variable (`vars`) is read again for each comparison, any other is kept in register `t`. */
  function SwitchCode(e: Exp, cases: seq<(i32, Label)>, d: Label, vars: set<nat>, t: nat): Code {
    match TableOf(cases, d)
    case Some(ls) => Append(ExpCode(e), Append(SubtractLowest(cases[0].0), Only(IBrTable(ls, d))))
    case None =>
      if e.Opaque? && e.id in vars then EqualityChain(IVal(e.id), cases, d)
      else Append(ExpCode(e), Then(ISetTemp(t), EqualityChain(IGetTemp(t), cases, d)))
  }

  /** Compiles a lowered tree; `n` is the next free register. */
  function Compile(t: Tree, vars: set<nat>, n: nat): (Code, nat)
    decreases t
  {
    match t
    case TAct(a) => (Only(IAct(a)), n)
    case TSeq(b) => CompileAll(b, vars, n)
    case TExit(l, b) => var (c, m) := CompileAll(b, vars, n); (Only(IBlock(l, c)), m)
    case TRedo(l, b) => var (c, m) := CompileAll(b, vars, n); (Only(ILoop(l, c)), m)
    case TIf(e, x) =>
      if x.TGoto? then (Append(ExpCode(e), Only(IBrIf(x.l))), n)
      else var (c, m) := Compile(x, vars, n); (Append(ExpCode(e), Only(IIf(c, End))), m)
    case TIfElse(e, x, y) =>
      var (c, m) := Compile(x, vars, n);
      var (c1, k) := Compile(y, vars, m);
      (Append(ExpCode(e), Only(IIf(c, c1))), k)
    case TGoto(l) => (Only(IBr(l)), n)
    case TReturn(a) => (if a.Some? then Then(IAct(a.value), Only(IReturn)) else Only(IReturn), n)
    case TSwitch(e, cases, d) => (SwitchCode(e, cases, d, vars, n), n + 1)
  }

  function CompileAll(b: Trees, vars: set<nat>, n: nat): (Code, nat)
    decreases b
  {
    match b
    case TNil => (End, n)
    case TCons(t, rest) =>
      var (c, m) := Compile(t, vars, n);
      var (cs, k) := CompileAll(rest, vars, m);
      (Append(c, cs), k)
  }

  // ---------- correctness ----------

  /** The code ended the way the tree did, with the operands below untouched. */
  ghost predicate Agrees<S>(w: WOut<S>, o: Out<S>, stack: seq<i32>) {
    match o
    case Normal(s) => w.WNormal? && w.s == s && w.stack == stack
    case Going(l, s) => w.WBr? && w.l == l && w.s == s
    case Returning(s) => w.WReturn? && w.s == s
    case Timeout => w.WTimeout?
    case _ => false
  }

  lemma {:induction false} RunAppend<S>(E: Env<S>, a: Code, b: Code, s: S, stack: seq<i32>, temps: map<nat, i32>, f: nat)
    ensures var o := RunCode(E, a, s, stack, temps, f);
            RunCode(E, Append(a, b), s, stack, temps, f)
            == if o.WNormal? then RunCode(E, b, o.s, o.stack, o.temps, f) else o
    decreases a
  {
    if a.Then? {
      var o := Step(E, a.head, s, stack, temps, f);
      if o.WNormal? { RunAppend(E, a.tail, b, o.s, o.stack, o.temps, f); }
    }
  }

  lemma OnlyRun<S>(E: Env<S>, i: Instr, s: S, stack: seq<i32>, temps: map<nat, i32>, f: nat)
    ensures RunCode(E, Only(i), s, stack, temps, f) == Step(E, i, s, stack, temps, f)
  {}

  lemma {:induction false} ExpRun<S>(E: Env<S>, e: Exp, s: S, stack: seq<i32>, temps: map<nat, i32>, f: nat)
    ensures var (v, s1) := Eval(E, e, s);
            RunCode(E, ExpCode(e), s, stack, temps, f) == WNormal(s1, stack + [v], temps)
    decreases e
  {
    match e
    case Opaque(id) =>
    case One =>
    case Not(x) =>
      var (v, s1) := Eval(E, x, s);
      ExpRun(E, x, s, stack, temps, f);
      RunAppend(E, ExpCode(x), Only(IEqz), s, stack, temps, f);
      OnlyRun(E, IEqz, s1, stack + [v], temps, f);
      assert Pop(stack + [v]) == stack;
  }

  lemma ExpThen<S>(E: Env<S>, e: Exp, c: Code, s: S, stack: seq<i32>, temps: map<nat, i32>, f: nat)
    ensures var (v, s1) := Eval(E, e, s);
            RunCode(E, Append(ExpCode(e), c), s, stack, temps, f) == RunCode(E, c, s1, stack + [v], temps, f)
  {
    ExpRun(E, e, s, stack, temps, f);
    RunAppend(E, ExpCode(e), c, s, stack, temps, f);
  }

  lemma PopPush(stack: seq<i32>, v: i32)
    ensures Pop(stack + [v]) == stack && Top(stack + [v]) == v
  {}

  /** Pushing by `get` yields `v` and changes nothing else, wherever the chain of comparisons does it. */
  ghost predicate Reads<S>(E: Env<S>, get: Instr, s: S, temps: map<nat, i32>, v: i32) {
    (get.IVal? && E.val(get.id, s) == (v, s)) || (get.IGetTemp? && Temp(temps, get.t) == v)
  }

  lemma ChainStep<S>(E: Env<S>, get: Instr, c: i32, l: Label, rest: Code, v: i32, s: S, stack: seq<i32>,
                     temps: map<nat, i32>, f: nat)
    requires Reads(E, get, s, temps, v)
    ensures RunCode(E, Then(IConst(c), Then(get, Then(IEq, Then(IBrIf(l), rest)))), s, stack, temps, f)
            == if c == v then WBr(l, s, temps) else RunCode(E, rest, s, stack, temps, f)
  {
    var s1 := stack + [c];
    var s2 := s1 + [v];
    PopPush(stack, c);
    PopPush(s1, v);
    var r := if c == v then 1 else 0;
    PopPush(stack, r);
    assert Step(E, IConst(c), s, stack, temps, f) == WNormal(s, s1, temps);
    assert Step(E, get, s, s1, temps, f) == WNormal(s, s2, temps);
    assert Step(E, IEq, s, s2, temps, f) == WNormal(s, stack + [r], temps);
    hide Step;
    UnfoldThree(E, IConst(c), get, IEq, Then(IBrIf(l), rest), s, stack, s1, s2, stack + [r], temps, f);
    BrIfRun(E, l, rest, s, stack, r, temps, f);
  }

  lemma UnfoldThree<S>(E: Env<S>, a: Instr, b: Instr, c: Instr, rest: Code, s: S, k0: seq<i32>, k1: seq<i32>,
                       k2: seq<i32>, k3: seq<i32>, temps: map<nat, i32>, f: nat)
    requires Step(E, a, s, k0, temps, f) == WNormal(s, k1, temps)
    requires Step(E, b, s, k1, temps, f) == WNormal(s, k2, temps)
    requires Step(E, c, s, k2, temps, f) == WNormal(s, k3, temps)
    ensures RunCode(E, Then(a, Then(b, Then(c, rest))), s, k0, temps, f) == RunCode(E, rest, s, k3, temps, f)
  {
    hide Step;
    assert RunCode(E, Then(c, rest), s, k2, temps, f) == RunCode(E, rest, s, k3, temps, f);
    assert RunCode(E, Then(b, Then(c, rest)), s, k1, temps, f) == RunCode(E, Then(c, rest), s, k2, temps, f);
  }

  lemma BrIfRun<S>(E: Env<S>, l: Label, rest: Code, s: S, stack: seq<i32>, v: i32, temps: map<nat, i32>, f: nat)
    ensures RunCode(E, Then(IBrIf(l), rest), s, stack + [v], temps, f)
            == if v != 0 then WBr(l, s, temps) else RunCode(E, rest, s, stack, temps, f)
  {
    PopPush(stack, v);
  }

  lemma {:induction false} ChainRun<S>(E: Env<S>, get: Instr, cases: seq<(i32, Label)>, d: Label, v: i32, s: S,
                                       stack: seq<i32>, temps: map<nat, i32>, f: nat)
    requires Reads(E, get, s, temps, v)
    ensures RunCode(E, EqualityChain(get, cases, d), s, stack, temps, f) == WBr(Lookup(cases, v, d), s, temps)
    decreases |cases|
  {
    if cases == [] {
      OnlyRun(E, IBr(d), s, stack, temps, f);
    } else {
      ChainStep(E, get, cases[0].0, cases[0].1, EqualityChain(get, cases[1..], d), v, s, stack, temps, f);
      ChainRun(E, get, cases[1..], d, v, s, stack, temps, f);
    }
  }

  lemma SubtractRun<S>(E: Env<S>, off: i32, rest: Code, v: i32, s: S, stack: seq<i32>, temps: map<nat, i32>, f: nat)
    ensures RunCode(E, Append(SubtractLowest(off), rest), s, stack + [v], temps, f)
            == RunCode(E, rest, s, stack + [Wrap(v as int - off)], temps, f)
  {
    if off != 0 {
      PopPush(stack, v);
      PopPush(stack + [v], off);
      RunAppend(E, SubtractLowest(off), rest, s, stack + [v], temps, f);
      OnlyRun(E, ISub, s, stack + [v] + [off], temps, f);
    }
  }

  lemma TableRun<S>(E: Env<S>, ls: seq<Label>, d: Label, v: i32, s: S, stack: seq<i32>, temps: map<nat, i32>, f: nat)
    ensures RunCode(E, Only(IBrTable(ls, d)), s, stack + [v], temps, f) == WBr(TableTarget(ls, d, v), s, temps)
  {
    PopPush(stack, v);
    OnlyRun(E, IBrTable(ls, d), s, stack + [v], temps, f);
  }

  /** Reading a variable has no effect; then both switch forms jump where the case list says. */
  ghost predicate PureReads<S(!new)>(E: Env<S>, vars: set<nat>) {
    forall id, s :: id in vars ==> E.val(id, s).1 == s
  }

  lemma SwitchRun<S(!new)>(E: Env<S>, e: Exp, cases: seq<(i32, Label)>, d: Label, vars: set<nat>, t: nat, s: S,
                           stack: seq<i32>, temps: map<nat, i32>, f: nat)
    requires Sorted(cases) && PureReads(E, vars)
    ensures var (v, s1) := Eval(E, e, s);
            var w := RunCode(E, SwitchCode(e, cases, d, vars, t), s, stack, temps, f);
            w.WBr? && w.l == Lookup(cases, v, d) && w.s == s1
  {
    var (v, s1) := Eval(E, e, s);
    match TableOf(cases, d)
    case Some(ls) =>
      var tail := Only(IBrTable(ls, d));
      ExpThen(E, e, Append(SubtractLowest(cases[0].0), tail), s, stack, temps, f);
      SubtractRun(E, cases[0].0, tail, v, s1, stack, temps, f);
      TableRun(E, ls, d, Wrap(v as int - cases[0].0), s1, stack, temps, f);
      TableSelects(cases, d, v);
    case None =>
      if e.Opaque? && e.id in vars {
        ChainRun(E, IVal(e.id), cases, d, v, s, stack, temps, f);
      } else {
        var chain := EqualityChain(IGetTemp(t), cases, d);
        ExpThen(E, e, Then(ISetTemp(t), chain), s, stack, temps, f);
        PopPush(stack, v);
        ChainRun(E, IGetTemp(t), cases, d, v, s1, stack, temps[t := v], f);
      }
  }

  predicate TablesSorted(t: Tree)
    decreases t
  {
    match t
    case TSeq(b) => AllTablesSorted(b)
    case TExit(_, b) => AllTablesSorted(b)
    case TRedo(_, b) => AllTablesSorted(b)
    case TIf(_, x) => TablesSorted(x)
    case TIfElse(_, x, y) => TablesSorted(x) && TablesSorted(y)
    case TSwitch(_, cases, _) => Sorted(cases)
    case _ => true
  }

  predicate AllTablesSorted(b: Trees)
    decreases b
  {
    b.TCons? ==> TablesSorted(b.head) && AllTablesSorted(b.tail)
  }

  lemma BranchRun<S>(E: Env<S>, e: Exp, i: Instr, s: S, stack: seq<i32>, temps: map<nat, i32>, f: nat)
    ensures var (v, s1) := Eval(E, e, s);
            RunCode(E, Append(ExpCode(e), Only(i)), s, stack, temps, f) == Step(E, i, s1, stack + [v], temps, f)
  {
    var (v, s1) := Eval(E, e, s);
    ExpThen(E, e, Only(i), s, stack, temps, f);
    OnlyRun(E, i, s1, stack + [v], temps, f);
  }

  /** Compiled trees end like the trees themselves, from any state, operands and registers. */
  lemma {:induction false} CompileKeepsRuns<S(!new)>(E: Env<S>, t: Tree, vars: set<nat>, n: nat, s: S,
                                                     stack: seq<i32>, temps: map<nat, i32>, f: nat)
    requires TablesSorted(t) && PureReads(E, vars)
    ensures Agrees(RunCode(E, Compile(t, vars, n).0, s, stack, temps, f), RunT(E, t, s, f), stack)
    decreases f, t, 0
  {
    match t
    case TAct(a) => OnlyRun(E, IAct(a), s, stack, temps, f);
    case TSeq(b) => CompileAllKeepsRuns(E, b, vars, n, s, stack, temps, f);
    case TExit(l, b) => BlockRun(E, l, b, vars, n, s, stack, temps, f);
    case TRedo(l, b) => LoopRun(E, l, b, vars, n, s, stack, temps, f);
    case TIf(e, x) =>
      if x.TGoto? {
        IfGotoRun(E, e, x.l, s, stack, temps, f);
      } else {
        IfRun(E, e, x, Compile(x, vars, n).0, vars, n, s, stack, temps, f);
      }
    case TIfElse(e, x, y) =>
      var (c, m) := Compile(x, vars, n);
      var s1 := Eval(E, e, s).1;
      CompileKeepsRuns(E, x, vars, n, s1, [], temps, f);
      CompileKeepsRuns(E, y, vars, m, s1, [], temps, f);
      IfElseRun(E, e, x, y, c, Compile(y, vars, m).0, s, stack, temps, f);
    case TGoto(l) => OnlyRun(E, IBr(l), s, stack, temps, f);
    case TReturn(a) => ReturnRun(E, a, s, stack, temps, f);
    case TSwitch(e, cases, d) => SwitchRun(E, e, cases, d, vars, n, s, stack, temps, f);
  }

  lemma ReturnRun<S>(E: Env<S>, a: Option<nat>, s: S, stack: seq<i32>, temps: map<nat, i32>, f: nat)
    ensures RunCode(E, if a.Some? then Then(IAct(a.value), Only(IReturn)) else Only(IReturn), s, stack, temps, f)
            == WReturn(Effect(E, a, s))
  {
    OnlyRun(E, IReturn, Effect(E, a, s), stack, temps, f);
  }

  lemma {:induction false} BlockRun<S(!new)>(E: Env<S>, l: Label, b: Trees, vars: set<nat>, n: nat, s: S,
                                             stack: seq<i32>, temps: map<nat, i32>, f: nat)
    requires AllTablesSorted(b) && PureReads(E, vars)
    ensures Agrees(RunCode(E, Compile(TExit(l, b), vars, n).0, s, stack, temps, f), RunT(E, TExit(l, b), s, f), stack)
    decreases f, b, 1
  {
    CompileAllKeepsRuns(E, b, vars, n, s, [], temps, f);
    OnlyRun(E, IBlock(l, CompileAll(b, vars, n).0), s, stack, temps, f);
    hide CompileAll, RunTs, RunCode, AllTablesSorted;
  }

  lemma {:induction false} LoopRun<S(!new)>(E: Env<S>, l: Label, b: Trees, vars: set<nat>, n: nat, s: S,
                                            stack: seq<i32>, temps: map<nat, i32>, f: nat)
    requires AllTablesSorted(b) && PureReads(E, vars)
    ensures Agrees(RunCode(E, Compile(TRedo(l, b), vars, n).0, s, stack, temps, f), RunT(E, TRedo(l, b), s, f), stack)
    decreases f, b, 1
  {
    var c := CompileAll(b, vars, n).0;
    CompileAllKeepsRuns(E, b, vars, n, s, [], temps, f);
    OnlyRun(E, ILoop(l, c), s, stack, temps, f);
    hide CompileAll, RunTs, RunCode, AllTablesSorted, PureReads;
    var o := RunCode(E, c, s, [], temps, f);
    if o.WBr? && o.l == l && f != 0 {
      LoopRun(E, l, b, vars, n, o.s, stack, o.temps, f - 1);
      OnlyRun(E, ILoop(l, c), o.s, stack, o.temps, f - 1);
    }
  }

  lemma {:induction false} IfRun<S(!new)>(E: Env<S>, e: Exp, x: Tree, c: Code, vars: set<nat>, n: nat, s: S,
                                          stack: seq<i32>, temps: map<nat, i32>, f: nat)
    requires TablesSorted(x) && PureReads(E, vars) && c == Compile(x, vars, n).0
    ensures Agrees(RunCode(E, Append(ExpCode(e), Only(IIf(c, End))), s, stack, temps, f), RunT(E, TIf(e, x), s, f), stack)
    decreases f, x, 1
  {
    var (v, s1) := Eval(E, e, s);
    BranchRun(E, e, IIf(c, End), s, stack, temps, f);
    PopPush(stack, v);
    CompileKeepsRuns(E, x, vars, n, s1, [], temps, f);
    hide Compile, Eval, ExpCode, Append, TablesSorted;
  }

  lemma IfElseRun<S>(E: Env<S>, e: Exp, x: Tree, y: Tree, c: Code, c1: Code, s: S,
                     stack: seq<i32>, temps: map<nat, i32>, f: nat)
    requires var s1 := Eval(E, e, s).1;
             && Agrees(RunCode(E, c, s1, [], temps, f), RunT(E, x, s1, f), [])
             && Agrees(RunCode(E, c1, s1, [], temps, f), RunT(E, y, s1, f), [])
    ensures Agrees(RunCode(E, Append(ExpCode(e), Only(IIf(c, c1))), s, stack, temps, f),
                   RunT(E, TIfElse(e, x, y), s, f), stack)
  {
    var (v, s1) := Eval(E, e, s);
    BranchRun(E, e, IIf(c, c1), s, stack, temps, f);
    PopPush(stack, v);
    hide Eval, ExpCode, Append, TablesSorted;
  }

  lemma IfGotoRun<S>(E: Env<S>, e: Exp, l: Label, s: S, stack: seq<i32>, temps: map<nat, i32>, f: nat)
    ensures Agrees(RunCode(E, Append(ExpCode(e), Only(IBrIf(l))), s, stack, temps, f), RunT(E, TIf(e, TGoto(l)), s, f), stack)
  {
    var (v, s1) := Eval(E, e, s);
    BranchRun(E, e, IBrIf(l), s, stack, temps, f);
    PopPush(stack, v);
    hide Eval, ExpCode, Append;
    assert RunT(E, TGoto(l), s1, f) == Going(l, s1);
  }

  lemma {:induction false} CompileAllKeepsRuns<S(!new)>(E: Env<S>, b: Trees, vars: set<nat>, n: nat, s: S,
                                                        stack: seq<i32>, temps: map<nat, i32>, f: nat)
    requires AllTablesSorted(b) && PureReads(E, vars)
    ensures Agrees(RunCode(E, CompileAll(b, vars, n).0, s, stack, temps, f), RunTs(E, b, s, f), stack)
    decreases f, b, 0
  {
    if b.TCons? {
      var (c, m) := Compile(b.head, vars, n);
      CompileKeepsRuns(E, b.head, vars, n, s, stack, temps, f);
      var o := RunCode(E, c, s, stack, temps, f);
      RunAppend(E, c, CompileAll(b.tail, vars, m).0, s, stack, temps, f);
      if o.WNormal? { CompileAllKeepsRuns(E, b.tail, vars, m, o.s, stack, o.temps, f); }
    }
  }
}
