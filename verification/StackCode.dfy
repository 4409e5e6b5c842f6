/** Functions as compiled, seen through the stack pointer `sp$`: frames, `alloca`, argument areas of
    variadic calls, and returns. Everything else is an operator of unknown result. */
module StackCode {
  const M32: nat := 0x1_0000_0000

  // ---------- the machine ----------

  /** Who claims an area: the function itself, for good; a variadic call of it, for what is passed; or a function
      that it calls. */
  datatype Who = Own | Argument | Called

  /** Why `sp$` is set: to release what lies below, or to claim an area from the new `sp$` on, of a fixed size or of
      the size in a local. The machine only notes it. */
  datatype Claim = Release | Fixed(size: nat, who: Who) | InLocal(x: nat, who: Who)

  datatype Instr =
    | Const(n: nat) | Add | Sub
    | Align                       // and with 0xFFFFFFF0
    | GetSp | SetSp(claim: Claim)
    | GetL(x: nat) | SetL(x: nat) | TeeL(x: nat)
    | Store(off: nat, width: nat)   // at most `width` bytes, `off` past the address
    | Drop
    | Pure(pops: nat)             // any operator that leaves sp$ and the locals below alone

  /** Structured code; `Call` calls some function of the program, `Br` leaves enclosing blocks. */
  datatype Code =
    | Nop | Ins(run: seq<Instr>) | Call(pops: nat) | Then(a: Code, b: Code) | If(yes: Code, no: Code)
    | Block(body: Code) | Loop(body: Code) | Br(l: nat) | BrIf(l: nat) | Ret

  /** What happened to the stack memory: an area was claimed, `sp$` was set back, or something was stored. */
  datatype Event = Claimed(base: nat, size: nat, who: Who) | Reset(sp: nat) | Stored(to: nat, off: nat, width: nat)

  /** `o` counts the unknown values used so far; `low` says that an area did not fit below the stack pointer; `log`
      lists all that happened to the stack memory. */
  datatype State = State(sp: nat, locals: map<nat, nat>, stack: seq<nat>, o: nat, low: bool, log: seq<Event>)

  datatype Exit = Next | Branch(l: nat) | Returned
  datatype Out = Timeout | Stuck | Done(st: State, exit: Exit)

  function Local(st: State, x: nat): nat { if x in st.locals then st.locals[x] else 0 }

  function Top(st: State): nat
    requires st.stack != []
  {
    st.stack[|st.stack| - 1]
  }

  function Pop(st: State, n: nat): State
    requires n <= |st.stack|
  {
    st.(stack := st.stack[..|st.stack| - n])
  }

  function Push(st: State, v: nat): State { st.(stack := st.stack + [v]) }

  function Mask16(v: nat): (r: nat)
    ensures r <= v < r + 16 && r % 16 == 0
  {
    v - v % 16
  }

  /** `sp$` set to `v`. */
  function Moved(st: State, claim: Claim, v: nat): State {
    match claim
    case Release => st.(sp := v, log := st.log + [Reset(v)])
    case Fixed(n, who) => Took(st, n, who, v)
    case InLocal(x, who) => Took(st, Local(st, x), who, v)
  }

  function Took(st: State, n: nat, who: Who, v: nat): State {
    st.(sp := v, low := st.low || st.sp < n, log := st.log + [Claimed(v, n, who)])
  }

  /** The log of a called function, which began after `n` events, as its caller sees it. */
  function AsCalled(log: seq<Event>, n: nat): (r: seq<Event>)
    ensures |r| == |log| && forall i :: 0 <= i < |log| ==> r[i] == if i < n then log[i] else ByCalled(log[i])
  {
    seq(|log|, i requires 0 <= i < |log| => if i < n then log[i] else ByCalled(log[i]))
  }

  function ByCalled(e: Event): Event { if e.Claimed? then e.(who := Called) else e }

  datatype Option<T> = None | Some(value: T)

  /** The unknown values. */
  type Oracle = nat -> nat

  function Exec(i: Instr, or: Oracle, st: State): Option<State> {
    var n := |st.stack|;
    match i
    case Const(v) => Some(Push(st, v % M32))
    case Add => if n < 2 then None else Some(Push(Pop(st, 2), (st.stack[n - 2] + st.stack[n - 1]) % M32))
    case Sub =>
      if n < 2 then None else Some(Push(Pop(st, 2), (st.stack[n - 2] - st.stack[n - 1]) % M32))
    case Align => if n < 1 then None else Some(Push(Pop(st, 1), Mask16(Top(st))))
    case GetSp => Some(Push(st, st.sp))
    case SetSp(claim) => if n < 1 then None else Some(Moved(Pop(st, 1), claim, Top(st)))
    case GetL(x) => Some(Push(st, Local(st, x)))
    case SetL(x) => if n < 1 then None else Some(Pop(st, 1).(locals := st.locals[x := Top(st)]))
    case TeeL(x) => if n < 1 then None else Some(st.(locals := st.locals[x := Top(st)]))
    case Store(off, width) =>
      if n < 2 then None else Some(Pop(st, 2).(log := st.log + [Stored(st.stack[n - 2], off, width)]))
    case Drop => if n < 1 then None else Some(Pop(st, 1))
    case Pure(k) => if n < k then None else Some(Push(Pop(st, k), or(st.o) % M32).(o := st.o + 1))
  }

  function ExecAll(run: seq<Instr>, or: Oracle, st: State): Option<State>
    decreases |run|
  {
    if run == [] then Some(st)
    else
      var r := Exec(run[0], or, st);
      if r.None? then None else ExecAll(run[1..], or, r.value)
  }

  /** Running code of a program; fuel bounds calls and loop rounds. */
  function Run(P: seq<Code>, fuel: nat, c: Code, or: Oracle, st: State): Out
    decreases fuel, c, 0
  {
    match c
    case Nop => Done(st, Next)
    case Ins(run) => var r := ExecAll(run, or, st); if r.None? then Stuck else Done(r.value, Next)
    case Call(pops) =>
      if fuel == 0 then Timeout
      else if |st.stack| < pops || P == [] then Stuck
      else
        var r := RunFunction(P, fuel - 1, or(st.o) % |P|, or, st.sp, st.o + 1, st.low, st.log);
        if !r.Done? then r else if r.exit != Returned then Stuck
        else Done(Push(Pop(st, pops), or(r.st.o) % M32).(sp := r.st.sp, o := r.st.o + 1, low := r.st.low,
                                                                    log := AsCalled(r.st.log, |st.log|)), Next)
    case Then(a, b) =>
      var r := Run(P, fuel, a, or, st);
      if r.Done? && r.exit == Next then Run(P, fuel, b, or, r.st) else r
    case If(y, n) => if st.stack == [] then Stuck else Run(P, fuel, if Top(st) != 0 then y else n, or, Pop(st, 1))
    case Block(body) =>
      var r := Run(P, fuel, body, or, st);
      if r.Done? && r.exit.Branch? then Done(r.st, if r.exit.l == 0 then Next else Branch(r.exit.l - 1)) else r
    case Loop(body) =>
      var r := Run(P, fuel, body, or, st);
      if r.Done? && r.exit == Branch(0) then (if fuel == 0 then Timeout else Run(P, fuel - 1, c, or, r.st))
      else if r.Done? && r.exit.Branch? then Done(r.st, Branch(r.exit.l - 1))
      else r
    case Br(l) => Done(st, Branch(l))
    case BrIf(l) => if st.stack == [] then Stuck else Done(Pop(st, 1), if Top(st) != 0 then Branch(l) else Next)
    case Ret => Done(st, Returned)
  }

  /** One call: fresh locals, an empty operand stack, the caller's `sp$`. */
  function RunFunction(P: seq<Code>, fuel: nat, f: nat, or: Oracle, sp: nat, o: nat, low: bool, log: seq<Event>): Out
    requires f < |P|
    decreases fuel, P[f], 1
  {
    Run(P, fuel, P[f], or, State(sp, map[], [], o, low, log))
  }

  // ---------- what is compiled ----------

  /** Expressions: an operator with its operands, a conditional, the two forms of `alloca`, a call, and a variadic
      call with its fixed and its remaining arguments. An indirect call evaluates the function last: it is the last of
      the `args`, or the only one of `fun`. */
  datatype Exp =
    | Op(args: Exps)
    | Select(test: Exp, yes: Exp, no: Exp)
    | AllocaConst(size: nat)
    | Alloca(amount: Exp)
    | Apply(args: Exps)
    | ApplyVar(fixed: Exps, more: Exps, fun: Exps)

  datatype Exps = End | More(head: Exp, tail: Exps)

  function Count(es: Exps): nat {
    match es
    case End => 0
    case More(_, tl) => 1 + Count(tl)
  }

  /** Statements after lowering: blocks and loops that are left and repeated by jumps. */
  datatype Stm =
    | Skip
    | Do(e: Exp)
    | Two(s: Stm, t: Stm)
    | Choose(e: Exp, s: Stm, t: Stm)
    | Labelled(s: Stm)
    | Repeat(s: Stm)
    | Jump(l: nat)
    | JumpIf(e: Exp, l: nat)
    | Return(value: Option<Exp>)

  /** A function: the size of its frame structure (0 when it has none) and its body, which ends in a return. */
  datatype Fun = Fun(frame: nat, body: Stm)

  predicate HasAlloca(e: Exp) {
    match e
    case Op(args) => AnyAlloca(args)
    case Select(t, y, n) => HasAlloca(t) || HasAlloca(y) || HasAlloca(n)
    case AllocaConst(_) => true
    case Alloca(_) => true
    case Apply(args) => AnyAlloca(args)
    case ApplyVar(fixed, more, fun) => AnyAlloca(fixed) || AnyAlloca(more) || AnyAlloca(fun)
  }

  predicate AnyAlloca(es: Exps) {
    match es
    case End => false
    case More(e, tl) => HasAlloca(e) || AnyAlloca(tl)
  }

  predicate ContainsAlloca(s: Stm) {
    match s
    case Skip => false
    case Do(e) => HasAlloca(e)
    case Two(a, b) => ContainsAlloca(a) || ContainsAlloca(b)
    case Choose(e, a, b) => HasAlloca(e) || ContainsAlloca(a) || ContainsAlloca(b)
    case Labelled(a) => ContainsAlloca(a)
    case Repeat(a) => ContainsAlloca(a)
    case Jump(_) => false
    case JumpIf(e, _) => HasAlloca(e)
    case Return(v) => v.Some? && HasAlloca(v.value)
  }

  /** The bytes of the argument area: a count and the arguments, 16 bytes each. */
  function AreaSize(more: Exps): (n: nat)
    ensures n % 16 == 0
  {
    16 * (1 + Count(more))
  }

  function RoundUp16(n: nat): (r: nat)
    ensures n <= r < n + 16 && r % 16 == 0
  {
    Mask16(n + 15)
  }

  function AllocaCode(size: nat, who: Who): seq<Instr> {
    [GetSp, Const(RoundUp16(size)), Sub, SetSp(Fixed(RoundUp16(size), who)), GetSp]
  }

  function AllocaRest(x: nat, who: Who): seq<Instr> {
    [Const(15), Add, Align, SetL(x), GetSp, GetL(x), Sub, SetSp(InLocal(x, who)), GetSp]
  }

  function OpenArea(p: nat, more: Exps): seq<Instr> {
    [GetSp, Const(AreaSize(more)), Sub, TeeL(p), SetSp(Fixed(AreaSize(more), Argument)), GetL(p), Const(Count(more)), Store(0, 4)]
  }

  function CloseArea(p: nat, more: Exps): seq<Instr> {
    [GetL(p), Const(AreaSize(more)), Add, SetSp(Release)]
  }

  function By(v: bool): Who { if v then Argument else Own }

  /** The code of an expression, with temporaries from `k` on, and the next temporary; `v` when it is evaluated
      between opening and closing the argument area of a variadic call. */
  function CompileExp(e: Exp, k: nat, v: bool): (Code, nat)
    decreases e
  {
    match e
    case Op(args) => var (c, n) := CompileArgs(args, k, v); (Then(c, Ins([Pure(Count(args))])), n)
    case Select(t, y, n) =>
      var (c, k1) := CompileExp(t, k, v);
      var (d, k2) := CompileExp(y, k1, v);
      var (f, k3) := CompileExp(n, k2, v);
      (Then(c, If(d, f)), k3)
    case AllocaConst(size) => (Ins(AllocaCode(size, By(v))), k)
    case Alloca(amount) => var (c, n) := CompileExp(amount, k, v); (Then(c, Ins(AllocaRest(n, By(v)))), n + 1)
    case Apply(args) => var (c, n) := CompileArgs(args, k, v); (Then(c, Call(Count(args))), n)
    case ApplyVar(fixed, more, fun) =>
      var (c, k1) := CompileArgs(fixed, k, v);
      var (d, p) := CompileMore(more, k1, MoreTemp(more, k1), 0);
      var (f, k2) := CompileArgs(fun, p + 1, true);
      (Then(c, Then(Ins(OpenArea(p, more)), Then(d, Then(Ins([GetL(p), Const(16), Add]),
            Then(f, Then(Call(Count(fixed) + 1 + Count(fun)), Ins(CloseArea(p, more)))))))), k2)
  }

  function CompileArgs(es: Exps, k: nat, v: bool): (Code, nat)
    decreases es
  {
    match es
    case End => (Nop, k)
    case More(e, tl) =>
      var (c, k1) := CompileExp(e, k, v);
      var (d, k2) := CompileArgs(tl, k1, v);
      (Then(c, d), k2)
  }

  /** Each remaining argument, from the one of number `i` on, is stored in its slot of the area that temporary `p`
      points to, past the slot of the count. */
  function CompileMore(es: Exps, k: nat, p: nat, i: nat): (Code, nat)
    decreases es
  {
    match es
    case End => (Nop, k)
    case More(e, tl) =>
      var (c, k1) := CompileExp(e, k, true);
      var (d, k2) := CompileMore(tl, k1, p, i + 1);
      (Then(Ins([GetL(p)]), Then(c, Then(Ins([Store(16 * (1 + i), 16)]), d))), k2)
  }

  /** The temporary after those of the remaining arguments. */
  function MoreTemp(es: Exps, k: nat): nat
    decreases es
  {
    match es
    case End => k
    case More(e, tl) => MoreTemp(tl, CompileExp(e, k, true).1)
  }

  const BP := 0   // bp$

  function CompileStm(s: Stm, bp: bool, k: nat): (Code, nat)
    decreases s
  {
    match s
    case Skip => (Nop, k)
    case Do(e) => var (c, n) := CompileExp(e, k, false); (Then(c, Ins([Drop])), n)
    case Two(a, b) =>
      var (c, k1) := CompileStm(a, bp, k);
      var (d, k2) := CompileStm(b, bp, k1);
      (Then(c, d), k2)
    case Choose(e, a, b) =>
      var (c, k1) := CompileExp(e, k, false);
      var (d, k2) := CompileStm(a, bp, k1);
      var (f, k3) := CompileStm(b, bp, k2);
      (Then(c, If(d, f)), k3)
    case Labelled(a) => var (c, n) := CompileStm(a, bp, k); (Block(c), n)
    case Repeat(a) => var (c, n) := CompileStm(a, bp, k); (Loop(c), n)
    case Jump(l) => (Br(l), k)
    case JumpIf(e, l) => var (c, n) := CompileExp(e, k, false); (Then(c, BrIf(l)), n)
    case Return(v) =>
      var (c, n) := if v.Some? then CompileExp(v.value, k, false) else (Nop, k);
      (Then(c, if bp then Then(Ins([GetL(BP), SetSp(Release)]), Ret) else Ret), n)
  }

  /** `bp$` is kept exactly when there is a frame or an `alloca`. */
  predicate NeedsBp(f: Fun) { f.frame > 0 || ContainsAlloca(f.body) }

  /** The prologue saves `sp$` in `bp$` and allocates the frame, whose address goes to local 1, `fp$`. */
  function CompileFun(f: Fun): Code {
    var (c, _) := CompileStm(f.body, NeedsBp(f), 2);
    if f.frame > 0 then Then(Ins([GetSp, SetL(BP)]), Then(Ins(AllocaCode(f.frame, Own) + [SetL(1)]), c))
    else if NeedsBp(f) then Then(Ins([GetSp, SetL(BP)]), c)
    else c
  }

  ghost predicate Compiled(P: seq<Code>, Fs: seq<Fun>) {
    |P| == |Fs| && forall i :: 0 <= i < |P| ==> P[i] == CompileFun(Fs[i])
  }
}
