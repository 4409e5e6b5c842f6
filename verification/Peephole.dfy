/** The peephole pass over a flat instruction buffer, against the structured code it stands for. */
module Peephole {
  datatype Option<T> = None | Some(value: T)
  datatype ValType = I32 | I64 | F32 | F64

  const WORD: nat := 0x1_0000_0000

  /** A WebAssembly value. `wrapped` records whether an i32 came from an addition that wrapped around:
      the pass may move such additions into a load's offset, where they would not wrap. */
  datatype Val = Val(t: ValType, bits: nat, wrapped: bool)

  /** A local: by its symbol, or by its number when it has none. */
  datatype Reg = Named(id: nat) | Indexed(ix: nat)

  datatype Label = Label(id: nat)

  /** A load: result type, bytes read, sign extension. */
  datatype LoadOp = LoadOp(t: ValType, width: nat, signed: bool)

  /** One entry of the instruction buffer. */
  datatype Tok =
    | LocalGet(r: Reg) | LocalSet(r: Reg) | LocalTee(r: Reg) | GlobalGet(g: nat)
    | Drop
    | Const(arg: int)
    | Add | Mul | Ext8 | Ext16
    | Load(op: LoadOp, offset: nat)
    | Other(id: nat)               // any other instruction without a body
    | Br(l: Label) | BrIf(l: Label) | BrTable(ls: seq<Label>, d: Label) | Return
    | Block(l: Label) | Loop(l: Label) | If(l: Label) | Else | End

  predicate Plain(t: Tok) { !(t.Block? || t.Loop? || t.If? || t.Else? || t.End?) }

  type plain = t: Tok | Plain(t) witness Drop

  datatype Machine = Machine(stack: seq<Val>, locals: map<Reg, Val>, globals: map<nat, Val>, mem: seq<bv8>)

  /** How code ends. `Bad` is a trap, ill-typed code, or a load from an address that wrapped around. */
  datatype Out = Next(m: Machine) | Jump(l: Label, m: Machine) | Ret(m: Machine) | Timeout | Bad

  /** The meaning of the instructions the pass does not look at, and of loaded bytes. */
  datatype Env = Env(other: (nat, Machine) -> Option<Machine>, decode: (LoadOp, seq<bv8>) -> nat)

  function Push(m: Machine, v: Val): Machine { m.(stack := m.stack + [v]) }

  function Top(m: Machine): Val
    requires m.stack != []
  {
    m.stack[|m.stack| - 1]
  }

  function Pop(m: Machine): Machine
    requires m.stack != []
  {
    m.(stack := m.stack[..|m.stack| - 1])
  }

  predicate IsI32(v: Val) { v.t == I32 && v.bits < WORD }

  function Int32(bits: int): Val { Val(I32, bits % WORD, false) }

  /** Sign extension of the low `m / 2` .. bits: `m` is 2^8 or 2^16. */
  function Extend(bits: nat, m: nat): nat
    requires 0 < m <= WORD
  {
    var low := bits % m;
    if low >= m / 2 then low + WORD - m else low
  }

  /** Wrap-around addition; adding a non-negative amount past 2^32 marks the result. */
  function AddVals(a: Val, b: Val): Val {
    Val(I32, (a.bits + b.bits) % WORD, a.wrapped || b.wrapped || (b.bits < WORD / 2 && a.bits + b.bits >= WORD))
  }

  /** A load's value: 8- and 16-bit signed i32 loads are sign extended. */
  function LoadVal(E: Env, op: LoadOp, bytes: seq<bv8>): Val {
    if op.t == I32 && op.signed && op.width == 2 then
      Val(I32, Extend(E.decode(op, bytes), 0x1_0000), false)
    else if op.t == I32 then Val(I32, E.decode(op, bytes) % WORD, false)
    else Val(op.t, E.decode(op, bytes), false)
  }

  function DoLoad(E: Env, op: LoadOp, offset: nat, m: Machine): Out {
    if m.stack == [] || !IsI32(Top(m)) || Top(m).wrapped then Bad
    else
      var ea := Top(m).bits + offset % WORD;
      if ea + op.width > |m.mem| then Bad
      else Next(Push(Pop(m), LoadVal(E, op, m.mem[ea..ea + op.width])))
  }

  function Unary(m: Machine, k: nat): Out
    requires 0 < k <= WORD
  {
    if m.stack == [] || !IsI32(Top(m)) then Bad
    else Next(Push(Pop(m), Val(I32, Extend(Top(m).bits, k), false)))
  }

  function Binary(m: Machine, mul: bool): Out {
    if |m.stack| < 2 then Bad
    else
      var b, a := Top(m), Top(Pop(m));
      if !IsI32(a) || !IsI32(b) then Bad
      else Next(Push(Pop(Pop(m)), if mul then Int32(a.bits * b.bits) else AddVals(a, b)))
  }

  function Exec(E: Env, t: plain, m: Machine): Out {
    match t
    case LocalGet(r) => if r in m.locals then Next(Push(m, m.locals[r])) else Bad
    case LocalSet(r) => if m.stack == [] then Bad else Next(Pop(m).(locals := m.locals[r := Top(m)]))
    case LocalTee(r) => if m.stack == [] then Bad else Next(m.(locals := m.locals[r := Top(m)]))
    case GlobalGet(g) => if g in m.globals then Next(Push(m, m.globals[g])) else Bad
    case Drop => if m.stack == [] then Bad else Next(Pop(m))
    case Const(a) => Next(Push(m, Int32(a)))
    case Add => Binary(m, false)
    case Mul => Binary(m, true)
    case Ext8 => Unary(m, 0x100)
    case Ext16 => Unary(m, 0x1_0000)
    case Load(op, offset) => DoLoad(E, op, offset, m)
    case Other(id) => (match E.other(id, m) case Some(m1) => Next(m1) case None => Bad)
    case Br(l) => Jump(l, m.(stack := []))
    case BrIf(l) =>
      if m.stack == [] || !IsI32(Top(m)) then Bad
      else if Top(m).bits != 0 then Jump(l, m.(stack := [])) else Next(Pop(m))
    case BrTable(ls, d) =>
      if m.stack == [] || !IsI32(Top(m)) then Bad
      else Jump(if Top(m).bits < |ls| then ls[Top(m).bits] else d, m.(stack := []))
    case Return => Ret(m)
  }

  // ---------- structured code ----------

  datatype Item =
    | Do(t: plain)
    | InBlock(l: Label, body: Items)
    | InLoop(l: Label, body: Items)
    | Cond(l: Label, thn: Items, els: Items)

  datatype Items = Nil | Snoc(init: Items, last: Item)

  /** Leaving a block: its operands go on top of those below. */
  function Leave(l: Label, o: Out, below: seq<Val>): Out {
    match o
    case Next(m) => Next(m.(stack := below + m.stack))
    case Jump(k, m) => if k == l then Next(m.(stack := below + m.stack)) else o
    case _ => o
  }

  function Run(E: Env, c: Items, m: Machine, f: nat): Out
    decreases f, c
  {
    match c
    case Nil => Next(m)
    case Snoc(init, i) =>
      var o := Run(E, init, m, f);
      if o.Next? then RunItem(E, i, o.m, f) else o
  }

  function RunItem(E: Env, i: Item, m: Machine, f: nat): Out
    decreases f, i
  {
    match i
    case Do(t) => Exec(E, t, m)
    case InBlock(l, b) => Leave(l, Run(E, b, m.(stack := []), f), m.stack)
    case InLoop(l, b) =>
      var o := Run(E, b, m.(stack := []), f);
      if o.Jump? && o.l == l then
        (if f == 0 then Timeout else RunItem(E, i, o.m.(stack := m.stack), f - 1))
      else Leave(l, o, m.stack)
    case Cond(l, x, y) =>
      if m.stack == [] || !IsI32(Top(m)) then Bad
      else
        var m1 := Pop(m);
        Leave(l, Run(E, if Top(m).bits != 0 then x else y, m1.(stack := []), f), m1.stack)
  }

  // ---------- what the instructions do ----------

  /** Sign extension keeps the low bits and gives, as a signed word, a number that they can hold. */
  lemma ExtendMeans(bits: nat, m: nat)
    requires m == 0x100 || m == 0x1_0000
    ensures var r := Extend(bits, m); r < WORD && r % m == bits % m && (r < m / 2 || WORD - m / 2 <= r)
  {}

  /** A load gives what its bytes decode to; a signed 16-bit one of a 32-bit word extends the sign. */
  lemma LoadMeans(E: Env, op: LoadOp, bytes: seq<bv8>)
    ensures var v, x := LoadVal(E, op, bytes), E.decode(op, bytes);
            && v.t == op.t && !v.wrapped && (op.t == I32 ==> v.bits < WORD && v.bits % 0x1_0000 == x % 0x1_0000)
            && (op.t != I32 || (x < WORD && !(op.signed && op.width == 2)) ==> v.bits == x)
            && (op == LoadOp(I32, 2, true) ==> v.bits == Extend(x, 0x1_0000))
  {
    ExtendMeans(E.decode(op, bytes), 0x1_0000);
  }

  /** Only additions mark their results. */
  lemma OnlyAddMarks(E: Env, t: plain, m: Machine)
    requires t.Const? || t.Mul? || t.Ext8? || t.Ext16? || t.Load?
    ensures var o := Exec(E, t, m); o.Next? ==> o.m.stack != [] && !Top(o.m).wrapped
  {
    hide Extend;
  }

  /** Conditional code and branches ask whether the operand is zero; tables select by its value. */
  lemma BranchOn(E: Env, m: Machine, a: int, l: Label, ls: seq<Label>, x: Items, y: Items, f: nat)
    ensures var m1, zero := Push(m, Int32(a)), a % WORD == 0;
            && Exec(E, BrIf(l), m1) == (if zero then Next(m) else Exec(E, Br(l), m))
            && RunItem(E, Cond(l, x, y), m1, f) == RunItem(E, InBlock(l, if zero then y else x), m, f)
            && Exec(E, BrTable(ls, l), m1) == Exec(E, Br(if a % WORD < |ls| then ls[a % WORD] else l), m)
  {
    PopPush(m, Int32(a));
  }

  /** After a branch at the end of a block: to its own label the code goes on past the block, with the operands from
      before it; to any other label it leaves the code around too. */
  lemma BranchOut(E: Env, l: Label, k: Label, body: Items, after: Item, m: Machine, f: nat)
    ensures var o := Run(E, body, m.(stack := []), f);
            Run(E, Snoc(Snoc(Nil, InBlock(l, Snoc(body, Do(Br(k))))), after), m, f) ==
            if o.Next? then (if k == l then RunItem(E, after, o.m.(stack := m.stack), f) else Jump(k, o.m.(stack := [])))
            else if o.Jump? && o.l == l then RunItem(E, after, o.m.(stack := m.stack + o.m.stack), f)
            else o
  {
    var o := Run(E, body, m.(stack := []), f);
    assert Run(E, Snoc(body, Do(Br(k))), m.(stack := []), f) == if o.Next? then Jump(k, o.m.(stack := [])) else o;
    assert m.stack + [] == m.stack;
    RunsPast(E, InBlock(l, Snoc(body, Do(Br(k)))), after, m, f);
  }

  lemma RunsPast(E: Env, i: Item, after: Item, m: Machine, f: nat)
    ensures Run(E, Snoc(Snoc(Nil, i), after), m, f) ==
            var o := RunItem(E, i, m, f); if o.Next? then RunItem(E, after, o.m, f) else o
  {
    assert Run(E, Snoc(Nil, i), m, f) == RunItem(E, i, m, f);
    hide RunItem;
  }

  /** After a branch to a loop's own label the loop runs again. */
  lemma BranchBack(E: Env, l: Label, body: Items, m: Machine, f: nat)
    ensures var o := Run(E, body, m.(stack := []), f + 1);
            o.Next? ==> RunItem(E, InLoop(l, Snoc(body, Do(Br(l)))), m, f + 1)
                        == RunItem(E, InLoop(l, Snoc(body, Do(Br(l)))), o.m.(stack := m.stack), f)
  {
    var o := Run(E, body, m.(stack := []), f + 1);
    if o.Next? {
      assert Run(E, Snoc(body, Do(Br(l))), m.(stack := []), f + 1) == Jump(l, o.m.(stack := []));
      assert o.m.(stack := []).(stack := m.stack) == o.m.(stack := m.stack);
    }
  }

  // ---------- from the buffer to structured code ----------

  /** An open block: its kind and, for the else branch of a conditional, the finished then branch. */
  datatype Frame = FBlock(l: Label) | FLoop(l: Label) | FThen(l: Label) | FElse(l: Label, thn: Items)

  /** Code read so far in the innermost open block, and what surrounds it. */
  datatype Parser = Parser(acc: Items, open: Opens) | Unbalanced

  datatype Opens = NoneOpen | Opened(frame: Frame, outer: Items, rest: Opens)

  function Read(p: Parser, t: Tok): Parser {
    if p.Unbalanced? then Unbalanced
    else match t
      case Block(l) => Parser(Nil, Opened(FBlock(l), p.acc, p.open))
      case Loop(l) => Parser(Nil, Opened(FLoop(l), p.acc, p.open))
      case If(l) => Parser(Nil, Opened(FThen(l), p.acc, p.open))
      case Else =>
        if p.open.Opened? && p.open.frame.FThen? then
          Parser(Nil, Opened(FElse(p.open.frame.l, p.acc), p.open.outer, p.open.rest))
        else Unbalanced
      case End =>
        if p.open.NoneOpen? then Unbalanced
        else Parser(Snoc(p.open.outer, Close(p.open.frame, p.acc)), p.open.rest)
      case _ => Parser(Snoc(p.acc, Do(t)), p.open)
  }

  function Close(fr: Frame, body: Items): Item {
    match fr
    case FBlock(l) => InBlock(l, body)
    case FLoop(l) => InLoop(l, body)
    case FThen(l) => Cond(l, body, Nil)
    case FElse(l, x) => Cond(l, x, body)
  }

  function ReadAll(p: Parser, c: seq<Tok>): Parser {
    if c == [] then p else Read(ReadAll(p, c[..|c| - 1]), c[|c| - 1])
  }

  /** The structured code of a buffer whose blocks are balanced. */
  function Parse(c: seq<Tok>): Option<Items> {
    var p := ReadAll(Parser(Nil, NoneOpen), c);
    if p.Parser? && p.open.NoneOpen? then Some(p.acc) else None
  }

  // ---------- refinement ----------

  /** Wherever `a` runs without trapping, `b` does exactly the same. */
  ghost predicate Refines(E: Env, a: Items, b: Items) {
    forall m, f {:trigger Run(E, b, m, f)} :: Run(E, a, m, f) != Bad ==> Run(E, b, m, f) == Run(E, a, m, f)
  }

  ghost predicate RefinesItem(E: Env, a: Item, b: Item) {
    forall m, f {:trigger RunItem(E, b, m, f)} :: RunItem(E, a, m, f) != Bad ==> RunItem(E, b, m, f) == RunItem(E, a, m, f)
  }

  lemma SnocRefines(E: Env, a: Items, b: Items, i: Item, j: Item)
    requires Refines(E, a, b) && RefinesItem(E, i, j)
    ensures Refines(E, Snoc(a, i), Snoc(b, j))
  {
    forall m, f | Run(E, Snoc(a, i), m, f) != Bad
      ensures Run(E, Snoc(b, j), m, f) == Run(E, Snoc(a, i), m, f)
    {
      assert Run(E, b, m, f) == Run(E, a, m, f);
      var o := Run(E, a, m, f);
      if o.Next? { assert RunItem(E, j, o.m, f) == RunItem(E, i, o.m, f); }
    }
  }

  lemma RefinesSelf(E: Env, a: Items, i: Item)
    ensures Refines(E, a, a) && RefinesItem(E, i, i)
  {}

  lemma RefinesTrans(E: Env, a: Items, b: Items, c: Items)
    requires Refines(E, a, b) && Refines(E, b, c)
    ensures Refines(E, a, c)
  {
    forall m, f | Run(E, a, m, f) != Bad
      ensures Run(E, c, m, f) == Run(E, a, m, f)
    {
      assert Run(E, b, m, f) == Run(E, a, m, f);
    }
  }

  lemma BlockRefines(E: Env, l: Label, a: Items, b: Items)
    requires Refines(E, a, b)
    ensures RefinesItem(E, InBlock(l, a), InBlock(l, b))
  {
    forall m, f | RunItem(E, InBlock(l, a), m, f) != Bad
      ensures RunItem(E, InBlock(l, b), m, f) == RunItem(E, InBlock(l, a), m, f)
    {
      var m1 := m.(stack := []);
      assert Run(E, b, m1, f) == Run(E, a, m1, f);
    }
  }

  lemma {:induction false} LoopRefinesFrom(E: Env, l: Label, a: Items, b: Items, m: Machine, f: nat)
    requires Refines(E, a, b) && RunItem(E, InLoop(l, a), m, f) != Bad
    ensures RunItem(E, InLoop(l, b), m, f) == RunItem(E, InLoop(l, a), m, f)
    decreases f
  {
    var m1 := m.(stack := []);
    var o := Run(E, a, m1, f);
    assert Run(E, b, m1, f) == o;
    if o.Jump? && o.l == l && f != 0 { LoopRefinesFrom(E, l, a, b, o.m.(stack := m.stack), f - 1); }
  }

  lemma LoopRefines(E: Env, l: Label, a: Items, b: Items)
    requires Refines(E, a, b)
    ensures RefinesItem(E, InLoop(l, a), InLoop(l, b))
  {
    forall m, f | RunItem(E, InLoop(l, a), m, f) != Bad
      ensures RunItem(E, InLoop(l, b), m, f) == RunItem(E, InLoop(l, a), m, f)
    {
      LoopRefinesFrom(E, l, a, b, m, f);
    }
  }

  lemma CondRefines(E: Env, l: Label, a: Items, b: Items, x: Items, y: Items)
    requires Refines(E, a, b) && Refines(E, x, y)
    ensures RefinesItem(E, Cond(l, a, x), Cond(l, b, y))
  {
    forall m, f | RunItem(E, Cond(l, a, x), m, f) != Bad
      ensures RunItem(E, Cond(l, b, y), m, f) == RunItem(E, Cond(l, a, x), m, f)
    {
      var m1 := Pop(m).(stack := []);
      if Top(m).bits != 0 {
        assert Run(E, b, m1, f) == Run(E, a, m1, f);
      } else {
        assert Run(E, y, m1, f) == Run(E, x, m1, f);
      }
    }
  }

  // ---------- rewriting inside a buffer ----------

  function AppendDo(acc: Items, ts: seq<plain>): Items {
    if ts == [] then acc else Snoc(AppendDo(acc, ts[..|ts| - 1]), Do(ts[|ts| - 1]))
  }

  function ExecAll(E: Env, ts: seq<plain>, m: Machine): Out {
    if ts == [] then Next(m)
    else
      var o := ExecAll(E, ts[..|ts| - 1], m);
      if o.Next? then Exec(E, ts[|ts| - 1], o.m) else o
  }

  lemma {:induction false} RunAppendDo(E: Env, acc: Items, ts: seq<plain>, m: Machine, f: nat)
    ensures var o := Run(E, acc, m, f);
            Run(E, AppendDo(acc, ts), m, f) == if o.Next? then ExecAll(E, ts, o.m) else o
    decreases |ts|
  {
    if ts != [] {
      RunAppendDo(E, acc, ts[..|ts| - 1], m, f);
      hide Exec;
    }
  }

  /** A run of plain instructions may stand for another one. */
  ghost predicate Replaces(E: Env, a: seq<plain>, b: seq<plain>) {
    forall m {:trigger ExecAll(E, b, m)} :: ExecAll(E, a, m) != Bad ==> ExecAll(E, b, m) == ExecAll(E, a, m)
  }

  lemma AppendDoRefines(E: Env, acc: Items, a: seq<plain>, b: seq<plain>)
    requires Replaces(E, a, b)
    ensures Refines(E, AppendDo(acc, a), AppendDo(acc, b))
  {
    forall m, f | Run(E, AppendDo(acc, a), m, f) != Bad
      ensures Run(E, AppendDo(acc, b), m, f) == Run(E, AppendDo(acc, a), m, f)
    {
      RunAppendDo(E, acc, a, m, f);
      RunAppendDo(E, acc, b, m, f);
      var o := Run(E, acc, m, f);
      if o.Next? { assert ExecAll(E, a, o.m) != Bad ==> ExecAll(E, b, o.m) == ExecAll(E, a, o.m); }
    }
  }

  ghost predicate RelatedFrames(E: Env, a: Frame, b: Frame) {
    a == b || (a.FElse? && b.FElse? && a.l == b.l && Refines(E, a.thn, b.thn))
  }

  ghost predicate RelatedOpens(E: Env, a: Opens, b: Opens) {
    match (a, b)
    case (NoneOpen, NoneOpen) => true
    case (Opened(fa, oa, ra), Opened(fb, ob, rb)) =>
      RelatedFrames(E, fa, fb) && Refines(E, oa, ob) && RelatedOpens(E, ra, rb)
    case _ => false
  }

  ghost predicate Related(E: Env, p: Parser, q: Parser) {
    p.Unbalanced? || (q.Parser? && Refines(E, p.acc, q.acc) && RelatedOpens(E, p.open, q.open))
  }

  lemma CloseRefines(E: Env, a: Frame, b: Frame, x: Items, y: Items)
    requires RelatedFrames(E, a, b) && Refines(E, x, y)
    ensures RefinesItem(E, Close(a, x), Close(b, y))
  {
    hide Refines, RefinesItem;
    match a
    case FBlock(l) => BlockRefines(E, l, x, y);
    case FLoop(l) => LoopRefines(E, l, x, y);
    case FThen(l) =>
      RefinesSelf(E, Nil, Do(Drop));
      CondRefines(E, l, x, y, Nil, Nil);
    case FElse(l, t) =>
      RefinesSelf(E, t, Do(Drop));
      CondRefines(E, l, t, b.thn, x, y);
  }

  lemma ReadRelated(E: Env, p: Parser, q: Parser, t: Tok)
    requires Related(E, p, q)
    ensures Related(E, Read(p, t), Read(q, t))
  {
    hide Refines, RefinesItem;
    if p.Parser? {
      RefinesSelf(E, Nil, Do(Drop));
      if Plain(t) {
        RefinesSelf(E, Nil, Do(t));
        SnocRefines(E, p.acc, q.acc, Do(t), Do(t));
      } else if t.End? && p.open.Opened? {
        CloseRefines(E, p.open.frame, q.open.frame, p.acc, q.acc);
        SnocRefines(E, p.open.outer, q.open.outer, Close(p.open.frame, p.acc), Close(q.open.frame, q.acc));
      }
    }
  }

  lemma {:induction false} ReadAllRelated(E: Env, p: Parser, q: Parser, c: seq<Tok>)
    requires Related(E, p, q)
    ensures Related(E, ReadAll(p, c), ReadAll(q, c))
    decreases |c|
  {
    if c != [] {
      ReadAllRelated(E, p, q, c[..|c| - 1]);
      ReadRelated(E, ReadAll(p, c[..|c| - 1]), ReadAll(q, c[..|c| - 1]), c[|c| - 1]);
    }
  }

  lemma {:induction false} ReadAllConcat(p: Parser, a: seq<Tok>, b: seq<Tok>)
    ensures ReadAll(p, a + b) == ReadAll(ReadAll(p, a), b)
    decreases |b|
  {
    if b == [] {
      assert a + b == a;
    } else {
      var b1 := b[..|b| - 1];
      ReadAllConcat(p, a, b1);
      assert (a + b)[..|a + b| - 1] == a + b1;
    }
  }

  lemma {:induction false} ReadPlain(p: Parser, ts: seq<plain>)
    ensures ReadAll(p, ts) == if p.Parser? then Parser(AppendDo(p.acc, ts), p.open) else p
    decreases |ts|
  {
    if ts != [] { ReadPlain(p, ts[..|ts| - 1]); }
  }

  /** The buffer still parses, to code that behaves the same wherever the old code did not trap. */
  ghost predicate Keeps(E: Env, a: seq<Tok>, b: seq<Tok>) {
    Parse(a).Some? ==> Parse(b).Some? && Refines(E, Parse(a).value, Parse(b).value)
  }

  lemma {:induction false} RelatedOpensSelf(E: Env, a: Opens)
    ensures RelatedOpens(E, a, a)
  {
    if a.Opened? {
      RefinesSelf(E, a.outer, Do(Drop));
      RelatedOpensSelf(E, a.rest);
    }
  }

  lemma RewriteKeeps(E: Env, pre: seq<Tok>, a: seq<plain>, b: seq<plain>, post: seq<Tok>)
    requires Replaces(E, a, b)
    ensures Keeps(E, pre + a + post, pre + b + post)
  {
    hide Refines, Replaces, Read, AppendDo, RelatedOpens;
    var start := Parser(Nil, NoneOpen);
    var p := ReadAll(start, pre);
    ReadAllConcat(start, pre, a);
    ReadAllConcat(start, pre + a, post);
    ReadAllConcat(start, pre, b);
    ReadAllConcat(start, pre + b, post);
    ReadPlain(p, a);
    ReadPlain(p, b);
    if p.Parser? {
      AppendDoRefines(E, p.acc, a, b);
      RelatedOpensSelf(E, p.open);
    }
    ReadAllRelated(E, ReadAll(p, a), ReadAll(p, b), post);
    if Parse(pre + a + post).Some? { RelatedEnd(E, ReadAll(start, pre + a + post), ReadAll(start, pre + b + post)); }
  }

  lemma RelatedEnd(E: Env, p: Parser, q: Parser)
    requires Related(E, p, q) && p.Parser? && p.open.NoneOpen?
    ensures q.Parser? && q.open.NoneOpen? && Refines(E, p.acc, q.acc)
  {}

  lemma KeepsTrans(E: Env, a: seq<Tok>, b: seq<Tok>, c: seq<Tok>)
    requires Keeps(E, a, b) && Keeps(E, b, c)
    ensures Keeps(E, a, c)
  {
    hide Refines, Parse;
    if Parse(a).Some? { RefinesTrans(E, Parse(a).value, Parse(b).value, Parse(c).value); }
  }

  // ---------- the rewrite rules ----------

  function One(t: plain): (r: seq<plain>)
    ensures r == [t]
  {
    [t]
  }

  function Nothing(): seq<plain> { [] }

  /** Two adjacent instructions and what replaces them. */
  function PairRule(a: Tok, b: Tok): Option<seq<plain>> {
    if b == Drop then
      if a.LocalTee? then Some(One(LocalSet(a.r)))
      else if a.LocalGet? || a.GlobalGet? then Some(Nothing())
      else if a.Load? then Some(One(Drop))
      else None
    else if b.LocalGet? then
      if a.LocalSet? && a.r.Named? && a.r.id != 0 && a.r == b.r then Some(One(LocalTee(a.r))) else None
    else if b == Add then
      if a == Const(0) then Some(Nothing()) else None
    else if b == Ext8 then
      if a == Ext8 || (a.Load? && a.op == LoadOp(I64, 1, true)) then Some(One(a)) else None
    else if b == Ext16 then
      if a == Ext16 || (a.Load? && a.op == LoadOp(I32, 2, true)) then Some(One(a)) else None
    else None
  }

  /** The low 32 bits of an argument as a signed number. */
  function Signed(x: int): int {
    var m := x % WORD;
    if m < WORD / 2 then m else m - WORD
  }

  const WORD64: nat := 0x1_0000_0000_0000_0000

  /** The product as the pass computes it, in unsigned 64-bit arithmetic. */
  function FoldedProduct(a: int, b: int): int { ((a % WORD64) * (b % WORD64)) % WORD64 % WORD }

  /** Three adjacent instructions and what replaces them. */
  function TripleRule(a: Tok, b: Tok, c: Tok): Option<seq<plain>> {
    if c == Mul then
      if a.Const? && b.Const? then Some(One(Const(FoldedProduct(a.arg, b.arg)))) else None
    else if c.Load? && b == Add && a.Const? && Signed(a.arg) >= 0 && c.offset % WORD + Signed(a.arg) < WORD - 1 then
      Some(One(Load(c.op, c.offset + Signed(a.arg))))
    else None
  }

  lemma Exec2(E: Env, a: plain, b: plain, m: Machine)
    ensures var o := Exec(E, a, m);
            ExecAll(E, [a, b], m) == if o.Next? then Exec(E, b, o.m) else o
  {
    assert [a, b][..1] == [a];
    Exec1(E, a, m);
    hide Exec;
  }

  lemma Exec1(E: Env, a: plain, m: Machine)
    ensures ExecAll(E, [a], m) == Exec(E, a, m)
  {
    assert [a][..0] == [];
    assert ExecAll(E, [], m) == Next(m);
    hide Exec;
  }

  lemma Exec3(E: Env, a: plain, b: plain, c: plain, m: Machine)
    ensures var o := Exec(E, a, m);
            ExecAll(E, [a, b, c], m)
            == if !o.Next? then o
               else (var o1 := Exec(E, b, o.m); if o1.Next? then Exec(E, c, o1.m) else o1)
  {
    assert [a, b, c][..2] == [a, b];
    Exec2(E, a, b, m);
    hide Exec;
  }

  lemma PopPush(m: Machine, v: Val)
    ensures Push(m, v).stack != [] && Pop(Push(m, v)) == m && Top(Push(m, v)) == v
  {}

  lemma PairRuleReplaces(E: Env, a: plain, b: plain)
    requires PairRule(a, b).Some?
    ensures Replaces(E, [a, b], PairRule(a, b).value)
  {
    forall m | ExecAll(E, [a, b], m) != Bad
      ensures ExecAll(E, PairRule(a, b).value, m) == ExecAll(E, [a, b], m)
    {
      Exec2(E, a, b, m);
      if |PairRule(a, b).value| == 1 { Exec1(E, PairRule(a, b).value[0], m); }
      hide ExecAll;
      PairRuleRuns(E, a, b, m);
    }
  }

  /** One rule, from one machine state. */
  lemma PairRuleRuns(E: Env, a: plain, b: plain, m: Machine)
    requires PairRule(a, b).Some?
    requires Exec(E, a, m).Next? && Exec(E, b, Exec(E, a, m).m) != Bad
    ensures var r := PairRule(a, b).value;
            |r| <= 1 && Exec(E, b, Exec(E, a, m).m) == if r == [] then Next(m) else Exec(E, r[0], m)
  {
    hide Exec;
    match b
    case Drop => DropRuleRuns(E, a, b, m);
    case LocalGet(r) => GetRuleRuns(E, a, b, m);
    case Add => AddZero(E, m);
    case Ext8 => Ext8RuleRuns(E, a, b, m);
    case Ext16 => Ext16RuleRuns(E, a, b, m);
  }

  lemma DropRuleRuns(E: Env, a: plain, b: plain, m: Machine)
    requires b == Drop
    requires PairRule(a, b).Some?
    requires Exec(E, a, m).Next? && Exec(E, b, Exec(E, a, m).m) != Bad
    ensures var r := PairRule(a, b).value;
            |r| <= 1 && Exec(E, b, Exec(E, a, m).m) == if r == [] then Next(m) else Exec(E, r[0], m)
  {
    match a
    case LocalTee(r) =>
    case LocalGet(r) => PopPush(m, m.locals[r]);
    case GlobalGet(g) => PopPush(m, m.globals[g]);
    case Load(op, n) => DropLoad(E, op, n, m);
  }

  lemma GetRuleRuns(E: Env, a: plain, b: plain, m: Machine)
    requires b.LocalGet?
    requires PairRule(a, b).Some?
    requires Exec(E, a, m).Next? && Exec(E, b, Exec(E, a, m).m) != Bad
    ensures var r := PairRule(a, b).value;
            |r| <= 1 && Exec(E, b, Exec(E, a, m).m) == if r == [] then Next(m) else Exec(E, r[0], m)
  {
    assert Push(Pop(m), Top(m)).stack == m.stack;
  }

  lemma Ext8RuleRuns(E: Env, a: plain, b: plain, m: Machine)
    requires b == Ext8
    requires PairRule(a, b).Some?
    requires Exec(E, a, m).Next? && Exec(E, b, Exec(E, a, m).m) != Bad
    ensures var r := PairRule(a, b).value;
            |r| <= 1 && Exec(E, b, Exec(E, a, m).m) == if r == [] then Next(m) else Exec(E, r[0], m)
  {
    if a == Ext8 {
      TwiceUnary(m, 0x100);
    } else {
      LoadedTop(E, a.op, a.offset, m);
    }
  }

  lemma Ext16RuleRuns(E: Env, a: plain, b: plain, m: Machine)
    requires b == Ext16
    requires PairRule(a, b).Some?
    requires Exec(E, a, m).Next? && Exec(E, b, Exec(E, a, m).m) != Bad
    ensures var r := PairRule(a, b).value;
            |r| <= 1 && Exec(E, b, Exec(E, a, m).m) == if r == [] then Next(m) else Exec(E, r[0], m)
  {
    if a == Ext16 {
      TwiceUnary(m, 0x1_0000);
    } else {
      hide PairRule;
      Ext16Load(E, a, m);
    }
  }

  /** A load that sign extends leaves nothing to extend. */
  lemma Ext16Load(E: Env, a: plain, m: Machine)
    requires a.Load? && a.op == LoadOp(I32, 2, true) && DoLoad(E, a.op, a.offset, m).Next?
    ensures Unary(DoLoad(E, a.op, a.offset, m).m, 0x1_0000) == DoLoad(E, a.op, a.offset, m)
  {
    hide Extend;
    LoadedTop(E, a.op, a.offset, m);
    hide DoLoad, Unary;
    var ea := Top(m).bits + a.offset % WORD;
    LoadThenExtend(Pop(m), E.decode(a.op, m.mem[ea..ea + 2]));
  }

  lemma TwiceUnary(m: Machine, k: nat)
    requires k == 0x100 || k == 0x1_0000
    requires Unary(m, k).Next?
    ensures Unary(Unary(m, k).m, k) == Unary(m, k)
  {
    PopPush(Pop(m), Val(I32, Extend(Top(m).bits, k), false));
    ExtendTwice(Top(m).bits, k);
    hide Extend;
  }

  lemma LoadThenExtend(m: Machine, x: nat)
    ensures Unary(Push(m, Val(I32, Extend(x, 0x1_0000), false)), 0x1_0000)
            == Next(Push(m, Val(I32, Extend(x, 0x1_0000), false)))
  {
    PopPush(m, Val(I32, Extend(x, 0x1_0000), false));
    ExtendTwice(x, 0x1_0000);
    hide Extend;
  }

  lemma ExtendTwice(x: nat, k: nat)
    requires k == 0x100 || k == 0x1_0000
    ensures Extend(Extend(x, k), k) == Extend(x, k) < WORD
  {}

  lemma LoadedTop(E: Env, op: LoadOp, n: nat, m: Machine)
    requires DoLoad(E, op, n, m).Next?
    ensures m.stack != [] && Top(m).bits + n % WORD + op.width <= |m.mem|
    ensures var ea := Top(m).bits + n % WORD;
            var m1 := DoLoad(E, op, n, m).m;
            m1 == Push(Pop(m), LoadVal(E, op, m.mem[ea..ea + op.width]))
            && m1.stack != [] && Pop(m1) == Pop(m) && Top(m1) == LoadVal(E, op, m.mem[ea..ea + op.width])
  {
    var ea := Top(m).bits + n % WORD;
    PopPush(Pop(m), LoadVal(E, op, m.mem[ea..ea + op.width]));
  }

  lemma DropLoad(E: Env, op: LoadOp, n: nat, m: Machine)
    requires DoLoad(E, op, n, m).Next?
    ensures Exec(E, Drop, DoLoad(E, op, n, m).m) == Exec(E, Drop, m)
  {
    LoadedTop(E, op, n, m);
  }

  lemma AddZero(E: Env, m: Machine)
    requires Exec(E, Add, Exec(E, Const(0), m).m) != Bad
    ensures Exec(E, Add, Exec(E, Const(0), m).m) == Next(m)
  {
    PopPush(m, Int32(0));
    assert Push(Pop(m), Top(m)).stack == m.stack;
  }

  lemma TripleRuleReplaces(E: Env, a: plain, b: plain, c: plain)
    requires TripleRule(a, b, c).Some?
    ensures Replaces(E, [a, b, c], TripleRule(a, b, c).value)
  {
    forall m | ExecAll(E, [a, b, c], m) != Bad
      ensures ExecAll(E, TripleRule(a, b, c).value, m) == ExecAll(E, [a, b, c], m)
    {
      TripleRuns(E, a, b, c, m);
    }
  }

  lemma TripleRuns(E: Env, a: plain, b: plain, c: plain, m: Machine)
    requires TripleRule(a, b, c).Some? && ExecAll(E, [a, b, c], m) != Bad
    ensures ExecAll(E, TripleRule(a, b, c).value, m) == ExecAll(E, [a, b, c], m)
  {
    hide ExecAll;
    Exec3(E, a, b, c, m);
    Exec1(E, TripleRule(a, b, c).value[0], m);
    if c == Mul { ProductRuns(E, a.arg, b.arg, m); } else { OffsetRuns(E, a.arg, c.op, c.offset, m); }
  }

  lemma ModOfMod(x: int)
    ensures x % WORD64 % WORD == x % WORD
  {
    var q := x / WORD64;
    assert x == WORD64 * q + x % WORD64;
    assert WORD64 * q == WORD * (WORD * q);
    ModShift(x % WORD64, WORD * q);
  }

  lemma ModShift(x: int, k: int)
    ensures (x + WORD * k) % WORD == x % WORD
  {}

  lemma ModProduct(x: int, y: int)
    ensures ((x % WORD) * (y % WORD)) % WORD == (x * y) % WORD
  {
    var p, q, r, s := x / WORD, y / WORD, x % WORD, y % WORD;
    assert x == r + WORD * p && y == s + WORD * q;
    assert x * y == r * s + WORD * (p * s + q * r + WORD * p * q) by { Expand(r, p, s, q); }
    ModShift(r * s, p * s + q * r + WORD * p * q);
  }

  lemma Expand(r: int, p: int, s: int, q: int)
    ensures (r + WORD * p) * (s + WORD * q) == r * s + WORD * (p * s + q * r + WORD * p * q)
  {}

  lemma FoldedProductIs(a: int, b: int)
    ensures FoldedProduct(a, b) == ((a % WORD) * (b % WORD)) % WORD
  {
    var x, y := a % WORD64, b % WORD64;
    ModOfMod(x * y);
    ModProduct(x, y);
    ModOfMod(a);
    ModOfMod(b);
  }

  lemma ProductValue(a: int, b: int)
    ensures IsI32(Int32(a)) && IsI32(Int32(b))
    ensures Int32(FoldedProduct(a, b)) == Int32(Int32(a).bits * Int32(b).bits)
  {
    FoldedProductIs(a, b);
  }

  lemma ProductRuns(E: Env, a: int, b: int, m: Machine)
    ensures var m1 := Push(m, Int32(a));
            var m2 := Push(m1, Int32(b));
            && Exec(E, Const(a), m) == Next(m1) && Exec(E, Const(b), m1) == Next(m2)
            && Exec(E, Mul, m2) == Exec(E, Const(FoldedProduct(a, b)), m)
  {
    hide FoldedProduct, Int32, IsI32;
    PopPush(m, Int32(a));
    PopPush(Push(m, Int32(a)), Int32(b));
    ProductValue(a, b);
  }

  /** Moving a constant addition into the offset: exact when the addition does not wrap. */
  lemma OffsetRuns(E: Env, a: int, op: LoadOp, n: nat, m: Machine)
    requires Signed(a) >= 0 && n % WORD + Signed(a) < WORD - 1
    requires Exec(E, Const(a), m).Next? && Exec(E, Add, Exec(E, Const(a), m).m).Next?
    requires Exec(E, Load(op, n), Exec(E, Add, Exec(E, Const(a), m).m).m) != Bad
    ensures Exec(E, Load(op, n), Exec(E, Add, Exec(E, Const(a), m).m).m) == Exec(E, Load(op, n + Signed(a)), m)
  {
    hide AddVals, DoLoad, Signed, Int32;
    AddConst(E, a, m);
    assert m.stack != [] && IsI32(Top(m)) by { hide DoLoad, IsI32; }
    var v := AddVals(Top(m), Int32(a));
    PopPush(Pop(m), v);
    OffsetMod(n, Signed(a));
    UnmarkedSum(E, op, n, m, a);
    LoadsAlike(E, op, n, n + Signed(a), Push(Pop(m), v), m);
  }

  /** Where the sum can be loaded from, it did not wrap. */
  lemma UnmarkedSum(E: Env, op: LoadOp, n: nat, m: Machine, a: int)
    requires m.stack != [] && IsI32(Top(m)) && Signed(a) >= 0
    requires DoLoad(E, op, n, Push(Pop(m), AddVals(Top(m), Int32(a)))) != Bad
    ensures var v := AddVals(Top(m), Int32(a)); !v.wrapped && !Top(m).wrapped && IsI32(v) && v.bits == Top(m).bits + Signed(a)
  {
    var v := AddVals(Top(m), Int32(a));
    PopPush(Pop(m), v);
    SumMeans(Top(m), a);
    SignedMod(Top(m).bits, a);
    hide AddVals, Int32;
  }

  lemma SignedMod(x: int, a: int)
    ensures (x + Signed(a)) % WORD == (x + a) % WORD
  {}

  lemma AddConst(E: Env, a: int, m: Machine)
    ensures var m1 := Push(m, Int32(a));
            Exec(E, Const(a), m) == Next(m1) &&
            Exec(E, Add, m1) == if m.stack == [] || !IsI32(Top(m)) then Bad else Next(Push(Pop(m), AddVals(Top(m), Int32(a))))
  {
    PopPush(m, Int32(a));
    hide AddVals;
  }

  lemma LoadsAlike(E: Env, op: LoadOp, n: nat, k: nat, m: Machine, m1: Machine)
    requires m.stack != [] && m1.stack != [] && IsI32(Top(m)) && IsI32(Top(m1)) && !Top(m).wrapped && !Top(m1).wrapped
    requires Pop(m) == Pop(m1) && Top(m).bits + n % WORD == Top(m1).bits + k % WORD
    ensures DoLoad(E, op, n, m) == DoLoad(E, op, k, m1)
  {
    assert m.mem == Pop(m).mem == m1.mem;
    hide LoadVal;
  }

  lemma OffsetMod(n: nat, k: nat)
    requires n % WORD + k < WORD
    ensures (n + k) % WORD == n % WORD + k
  {
    ModShift(n % WORD + k, n / WORD);
  }

  // ---------- the pass ----------

  ghost predicate Improves(a: seq<Tok>, b: seq<Tok>) {
    forall E: Env :: Keeps(E, a, b)
  }

  /** No rule applies to the instructions ending at position `i`. */
  predicate NoRuleAt(c: seq<Tok>, i: nat)
    requires i < |c|
  {
    && (i > 0 ==> PairRule(c[i - 1], c[i]).None?)
    && (i > 1 ==> TripleRule(c[i - 2], c[i - 1], c[i]).None?)
  }

  /** Pairs of instructions that do nothing, or nothing that one of them would not do. */
  ghost predicate UselessPair(a: Tok, b: Tok) {
    || (b == Drop && (a.LocalTee? || a.LocalGet? || a.GlobalGet? || a.Load?))
    || (exists id :: id != 0 && a == LocalSet(Named(id)) && b == LocalGet(Named(id)))
    || (a == Const(0) && b == Add)
    || (a == Ext8 && b == Ext8)
    || (a == Ext16 && b == Ext16)
    || (a.Load? && a.op == LoadOp(I64, 1, true) && b == Ext8)
    || (a.Load? && a.op == LoadOp(I32, 2, true) && b == Ext16)
  }

  /** A product of constants, or a constant added to the address of a load that has room for it in its offset. */
  predicate UselessTriple(a: Tok, b: Tok, c: Tok) {
    || (a.Const? && b.Const? && c == Mul)
    || (a.Const? && b == Add && c.Load? && a.arg % 0x1_0000_0000 < 0x8000_0000
        && a.arg % 0x1_0000_0000 + c.offset % 0x1_0000_0000 < 0xFFFF_FFFF)
  }

  /** Code without any of them. */
  ghost predicate Clean(c: seq<Tok>) {
    && (forall i :: 1 <= i < |c| ==> !UselessPair(c[i - 1], c[i]))
    && forall i :: 2 <= i < |c| ==> !UselessTriple(c[i - 2], c[i - 1], c[i])
  }

  lemma PairRuleIff(a: Tok, b: Tok)
    ensures PairRule(a, b).Some? <==> UselessPair(a, b)
  {
    if a.LocalSet? && a.r.Named? && a.r.id != 0 && b == LocalGet(a.r) { assert a == LocalSet(Named(a.r.id)); }
  }

  lemma TripleRuleIff(a: Tok, b: Tok, c: Tok)
    ensures TripleRule(a, b, c).Some? <==> UselessTriple(a, b, c)
  {}

  /** The rules apply to exactly these pairs and triples. */
  lemma CleanIff(c: seq<Tok>)
    ensures Clean(c) <==> forall k :: 0 <= k < |c| ==> NoRuleAt(c, k)
  {
    hide PairRule, TripleRule, UselessPair, UselessTriple;
    forall i | 1 <= i < |c|
      ensures PairRule(c[i - 1], c[i]).Some? <==> UselessPair(c[i - 1], c[i])
    {
      PairRuleIff(c[i - 1], c[i]);
    }
    forall i | 2 <= i < |c|
      ensures TripleRule(c[i - 2], c[i - 1], c[i]).Some? <==> UselessTriple(c[i - 2], c[i - 1], c[i])
    {
      TripleRuleIff(c[i - 2], c[i - 1], c[i]);
    }
    if forall k :: 0 <= k < |c| ==> NoRuleAt(c, k) {
      forall i | 1 <= i < |c|
        ensures !UselessPair(c[i - 1], c[i])
      {
        assert NoRuleAt(c, i);
      }
      forall i | 2 <= i < |c|
        ensures !UselessTriple(c[i - 2], c[i - 1], c[i])
      {
        assert NoRuleAt(c, i);
      }
    }
  }

  lemma PairRuleImproves(c: seq<Tok>, i: nat)
    requires 0 < i < |c| && PairRule(c[i - 1], c[i]).Some?
    ensures Improves(c, c[..i - 1] + PairRule(c[i - 1], c[i]).value + c[i + 1..])
  {
    var a: plain, b: plain := c[i - 1], c[i];
    var d := c[..i - 1] + PairRule(a, b).value + c[i + 1..];
    forall E: Env
      ensures Keeps(E, c, d)
    {
      assert c == c[..i - 1] + [a, b] + c[i + 1..];
      PairRuleReplaces(E, a, b);
      RewriteKeeps(E, c[..i - 1], [a, b], PairRule(a, b).value, c[i + 1..]);
    }
  }

  lemma TripleRuleImproves(c: seq<Tok>, i: nat)
    requires 1 < i < |c| && TripleRule(c[i - 2], c[i - 1], c[i]).Some?
    ensures Improves(c, c[..i - 2] + TripleRule(c[i - 2], c[i - 1], c[i]).value + c[i + 1..])
  {
    var x: plain, a: plain, b: plain := c[i - 2], c[i - 1], c[i];
    var d := c[..i - 2] + TripleRule(x, a, b).value + c[i + 1..];
    forall E: Env
      ensures Keeps(E, c, d)
    {
      assert c == c[..i - 2] + [x, a, b] + c[i + 1..];
      TripleRuleReplaces(E, x, a, b);
      RewriteKeeps(E, c[..i - 2], [x, a, b], TripleRule(x, a, b).value, c[i + 1..]);
    }
  }

  lemma ImprovesTrans(a: seq<Tok>, b: seq<Tok>, c: seq<Tok>)
    requires Improves(a, b) && Improves(b, c)
    ensures Improves(a, c)
  {
    forall E: Env
      ensures Keeps(E, a, c)
    {
      assert Keeps(E, a, b) && Keeps(E, b, c);
      KeepsTrans(E, a, b, c);
    }
  }

  lemma ImprovesSelf(a: seq<Tok>)
    ensures Improves(a, a)
  {
    forall E: Env
      ensures Keeps(E, a, a)
    {
      if Parse(a).Some? { RefinesSelf(E, Parse(a).value, Do(Drop)); }
    }
  }

  // ---------- the order of the rewrites ----------

  /** The buffer after the rules on two instructions ending at `i`, and where to look next: at what now stands in the
      place of the first if it is new there, else just behind it. */
  function AfterPair(c: seq<Tok>, i: nat): (r: (seq<Tok>, nat))
    requires i < |c|
    ensures r == (c, i + 1) || |r.0| < |c|
  {
    if i == 0 then (c, i + 1)
    else
      match PairRule(c[i - 1], c[i])
      case None => (c, i + 1)
      case Some(d) =>
        PairRuleShort(c[i - 1], c[i]);
        (c[..i - 1] + d + c[i + 1..], if d == [] || d == [Drop] then i - 1 else i)
  }

  /** So for three; if there is no rule the next place is `n`. */
  function AfterTriple(c: seq<Tok>, i: nat, n: nat): (r: (seq<Tok>, nat))
    requires i < |c|
    ensures r == (c, n) || |r.0| < |c|
  {
    if i <= 1 then (c, n)
    else
      match TripleRule(c[i - 2], c[i - 1], c[i])
      case None => (c, n)
      case Some(d) =>
        TripleRuleShort(c[i - 2], c[i - 1], c[i]);
        (c[..i - 2] + d + c[i + 1..], if c[i] == Mul then i - 1 else i - 2)
  }

  /** What a pass makes of a buffer from `i` on. */
  function PassFrom(c: seq<Tok>, i: nat): (d: seq<Tok>)
    ensures |d| <= |c|
    decreases |c|, |c| - i
  {
    if i >= |c| then c
    else
      var (c1, n1) := AfterPair(c, i);
      if i >= |c1| then c1
      else
        var (c2, n2) := AfterTriple(c1, i, n1);
        PassFrom(c2, n2)
  }

  lemma PassStep(c: seq<Tok>, i: nat, c1: seq<Tok>, n1: nat, c2: seq<Tok>, n2: nat)
    requires i < |c| && AfterPair(c, i) == (c1, n1)
    ensures i >= |c1| ==> PassFrom(c, i) == c1
    ensures i < |c1| && AfterTriple(c1, i, n1) == (c2, n2) ==> PassFrom(c, i) == PassFrom(c2, n2)
  {
    hide AfterPair, AfterTriple;
  }

  lemma PassEnd(c: seq<Tok>, i: nat)
    ensures i >= |c| ==> PassFrom(c, i) == c
  {
    hide AfterPair, AfterTriple;
  }

  /** Passes until one changes nothing, or `level` of them; the first is always done. */
  function Rounds(c: seq<Tok>, level: int): seq<Tok>
    decreases |c|
  {
    var d := PassFrom(c, 0);
    if |d| == |c| || level <= 1 then d else Rounds(d, level - 1)
  }

  // ---------- one pass and several ----------

  /** No rule applies to instructions ending before `n`. */
  predicate Tidy(c: seq<Tok>, n: int) { forall k :: 0 <= k < |c| && k < n ==> NoRuleAt(c, k) }

  lemma SamePrefix(c: seq<Tok>, d: seq<Tok>, n: nat)
    requires n <= |c| && n <= |d| && c[..n] == d[..n]
    ensures Tidy(c, n) <==> Tidy(d, n)
  {
    hide PairRule, TripleRule;
    forall k | 0 <= k < n
      ensures NoRuleAt(c, k) <==> NoRuleAt(d, k)
    {
      assert c[k] == c[..n][k] == d[k];
      if k > 0 { assert c[k - 1] == c[..n][k - 1] == d[k - 1]; }
      if k > 1 { assert c[k - 2] == c[..n][k - 2] == d[k - 2]; }
    }
  }

  /** What a rule on two instructions leaves: nothing, a drop for a drop, the first of the two, or something that ends no rule. */
  lemma PairLeaves(a: Tok, b: Tok)
    requires PairRule(a, b).Some?
    ensures var d := PairRule(a, b).value; d == [] || (d == [Drop] && b == Drop) || (|d| == 1 && d[0] != Drop && (d[0] == a || EndsNoRule(d[0])))
  {}

  predicate EndsNoRule(t: Tok) { !(t.Drop? || t.LocalGet? || t.Add? || t.Mul? || t.Ext8? || t.Ext16? || t.Load?) }

  lemma NoneEnds(c: seq<Tok>, k: nat)
    requires k < |c| && EndsNoRule(c[k])
    ensures NoRuleAt(c, k)
  {}

  lemma PairPlace(c: seq<Tok>, i: nat)
    requires i < |c|
    ensures var (c1, n1) := AfterPair(c, i);
            && i - 1 <= n1 <= i + 1 && (n1 < |c1| ==> c1[|c1| - 1] == c[|c| - 1])
            && (n1 == i + 1 ==> c1 == c && (i > 0 ==> PairRule(c[i - 1], c[i]).None?))
            && (i >= |c1| && n1 < |c1| ==> n1 == |c1| - 1)
  {
    if i > 0 && PairRule(c[i - 1], c[i]).Some? { PairLeaves(c[i - 1], c[i]); }
    hide PairRule;
  }

  lemma PairTidy(c: seq<Tok>, i: nat)
    requires i < |c| && Tidy(c, i)
    ensures var (c1, n1) := AfterPair(c, i); Tidy(c1, if n1 < i then n1 else i)
  {
    if i > 0 && PairRule(c[i - 1], c[i]).Some? {
      PairLeaves(c[i - 1], c[i]);
      hide PairRule;
      var (c1, n1) := AfterPair(c, i);
      assert c1[..i - 1] == c[..i - 1];
      SamePrefix(c, c1, i - 1);
      if n1 == i {
        if c1[i - 1] == c[i - 1] {
          assert c1[..i] == c[..i];
          SamePrefix(c, c1, i);
        } else {
          NoneEnds(c1, i - 1);
        }
      }
      hide NoRuleAt;
    }
  }

  lemma TripleTidy(c: seq<Tok>, i: nat, n: nat)
    requires i < |c| && i - 1 <= n <= i + 1 && Tidy(c, if n < i then n else i)
    requires n == i + 1 && i > 0 ==> PairRule(c[i - 1], c[i]).None?
    ensures var (c2, n2) := AfterTriple(c, i, n); Tidy(c2, n2)
  {
    if i > 1 && TripleRule(c[i - 2], c[i - 1], c[i]).Some? {
      hide PairRule, NoRuleAt;
      var (c2, n2) := AfterTriple(c, i, n);
      assert c2[..i - 2] == c[..i - 2];
      SamePrefix(c, c2, i - 2);
      if c[i] == Mul { NoneEnds(c2, i - 2); }
    } else {
      hide PairRule, TripleRule;
    }
  }

  lemma TriplePlace(c: seq<Tok>, i: nat, n: nat)
    requires i < |c|
    ensures var (c2, n2) := AfterTriple(c, i, n); n2 < |c2| && EndsNoRule(c[|c| - 1]) ==> EndsNoRule(c2[|c2| - 1])
  {}

  /** After a pass no rule applies any more except at the last instruction, and none at all if what ended the buffer is
      no instruction that ends a rule: one pass is enough then. */
  lemma {:induction false} PassTidy(c: seq<Tok>, i: nat)
    requires Tidy(c, i)
    ensures Tidy(PassFrom(c, i), |PassFrom(c, i)| - 1)
    ensures (i < |c| ==> EndsNoRule(c[|c| - 1])) ==> Tidy(PassFrom(c, i), |PassFrom(c, i)|)
    decreases |c|, |c| - i
  {
    hide AfterPair, AfterTriple, NoRuleAt, PairRule, TripleRule, PassFrom;
    if i < |c| {
      var (c1, n1) := AfterPair(c, i);
      PairPlace(c, i);
      PairTidy(c, i);
      if i < |c1| {
        TripleTidy(c1, i, n1);
        TriplePlace(c1, i, n1);
        var (c2, n2) := AfterTriple(c1, i, n1);
        PassStep(c, i, c1, n1, c2, n2);
        PassTidy(c2, n2);
      } else {
        PassStep(c, i, c1, n1, c1, n1);
        if n1 < |c1| && EndsNoRule(c1[n1]) { NoneEnds(c1, n1); }
      }
    } else {
      PassEnd(c, i);
    }
  }

  lemma {:induction false} TidyStays(c: seq<Tok>, i: nat)
    requires Tidy(c, |c|)
    ensures PassFrom(c, i) == c
    decreases |c| - i
  {
    if i < |c| {
      assert NoRuleAt(c, i);
      assert AfterPair(c, i) == (c, i + 1) && AfterTriple(c, i, i + 1) == (c, i + 1);
      hide PassFrom, AfterPair, AfterTriple;
      PassStep(c, i, c, i + 1, c, i + 1);
      TidyStays(c, i + 1);
    }
  }

  /** Code whose last instruction ends no rule is clean after one pass, at every level. */
  lemma OnePass(c: seq<Tok>, level: int)
    requires c != [] ==> EndsNoRule(c[|c| - 1])
    ensures Rounds(c, level) == PassFrom(c, 0) && Clean(Rounds(c, level))
  {
    hide PassFrom, NoRuleAt, Clean;
    PassTidy(c, 0);
    TidyStays(PassFrom(c, 0), 0);
    CleanIff(PassFrom(c, 0));
    if |PassFrom(c, 0)| != |c| && level > 1 { assert Rounds(PassFrom(c, 0), level - 1) == PassFrom(c, 0); }
  }

  /** Other code may need more: what is pushed and dropped before the last instruction ends the pass. */
  lemma SecondPass(a: nat, b: nat)
    requires a != 0
    ensures var c := [LocalSet(Named(a)), LocalGet(Indexed(b)), Drop, LocalGet(Named(a))];
            !Clean(Rounds(c, 1)) && Rounds(c, 2) == [LocalTee(Named(a))]
  {
    var x, y := LocalSet(Named(a)), LocalGet(Named(a));
    var c, d := [x, LocalGet(Indexed(b)), Drop, y], [x, y];
    hide PassFrom, PairRule, TripleRule;
    FirstPass(x, b, y);
    LastPass(a);
    assert PassFrom(c, 0) == d && PassFrom(d, 0) == [LocalTee(Named(a))];
    assert UselessPair(d[0], d[1]);
  }

  lemma FirstPass(x: Tok, b: nat, y: Tok)
    requires x.LocalSet?
    ensures PassFrom([x, LocalGet(Indexed(b)), Drop, y], 0) == [x, y]
  {
    var c := [x, LocalGet(Indexed(b)), Drop, y];
    assert AfterPair(c, 0) == (c, 1) && AfterTriple(c, 0, 1) == (c, 1);
    assert AfterPair(c, 1) == (c, 2) && AfterTriple(c, 1, 2) == (c, 2);
    assert c[..1] + [] + c[3..] == [x, y];
    assert AfterPair(c, 2) == ([x, y], 1);
    hide PassFrom, AfterPair, AfterTriple;
    PassStep(c, 0, c, 1, c, 1);
    PassStep(c, 1, c, 2, c, 2);
    PassStep(c, 2, [x, y], 1, [x, y], 1);
  }

  lemma LastPass(a: nat)
    requires a != 0
    ensures PassFrom([LocalSet(Named(a)), LocalGet(Named(a))], 0) == [LocalTee(Named(a))]
  {
    var c, d := [LocalSet(Named(a)), LocalGet(Named(a))], [LocalTee(Named(a))];
    assert AfterPair(c, 0) == (c, 1) && AfterTriple(c, 0, 1) == (c, 1);
    assert c[..0] + d + c[2..] == d;
    assert AfterPair(c, 1) == (d, 1);
    hide PassFrom, AfterPair, AfterTriple;
    PassStep(c, 0, c, 1, c, 1);
    PassStep(c, 1, d, 1, d, 1);
  }

  /** A growable instruction buffer. */
  class Buffer {
    var data: seq<Tok>

    method Remove(i: nat)
      requires i < |data|
      modifies this
      ensures data == old(data[..i] + data[i + 1..])
    {
      data := data[..i] + data[i + 1..];
    }

    /** The rules on two instructions, ending at `i`; `nexti` is where to look next. */
    method Pairs(i: nat) returns (mods: nat, nexti: nat)
      requires 0 < i < |data|
      modifies this
      ensures match PairRule(old(data[i - 1]), old(data[i]))
              case Some(r) => mods == 1 && data == old(data[..i - 1]) + r + old(data[i + 1..])
                              && nexti == if r == [] || r == [Drop] then i - 1 else i
              case None => mods == 0 && data == old(data) && nexti == i + 1
    {
      mods, nexti := 0, i + 1;
      var prev, cur := data[i - 1], data[i];
      if cur == Drop {
        if prev.LocalTee? {
          data := data[i - 1 := LocalSet(prev.r)];
          Remove(i);
          mods, nexti := 1, i;
        } else if prev.LocalGet? || prev.GlobalGet? {
          Remove(i - 1);
          Remove(i - 1);
          mods, nexti := 1, i - 1;
        } else if prev.Load? {
          Remove(i - 1);
          mods, nexti := 1, i - 1;
        }
      } else if cur.LocalGet? {
        if prev.LocalSet? && prev.r.Named? && prev.r.id != 0 && prev.r == cur.r {
          data := data[i - 1 := LocalTee(prev.r)];
          Remove(i);
          mods, nexti := 1, i;
        }
      } else if cur == Add {
        if prev == Const(0) {
          Remove(i - 1);
          Remove(i - 1);
          mods, nexti := 1, i - 1;
        }
      } else if cur == Ext8 {
        if prev == Ext8 || (prev.Load? && prev.op == LoadOp(I64, 1, true)) {
          Remove(i);
          mods, nexti := 1, i;
        }
      } else if cur == Ext16 {
        if prev == Ext16 || (prev.Load? && prev.op == LoadOp(I32, 2, true)) {
          Remove(i);
          mods, nexti := 1, i;
        }
      }
    }

    /** The rules on three instructions, ending at `i`. */
    method Triples(i: nat, nexti0: nat) returns (mods: nat, nexti: nat)
      requires 1 < i < |data|
      modifies this
      ensures match TripleRule(old(data[i - 2]), old(data[i - 1]), old(data[i]))
              case Some(r) => mods == 1 && data == old(data[..i - 2]) + r + old(data[i + 1..])
                              && nexti == if old(data[i]) == Mul then i - 1 else i - 2
              case None => mods == 0 && data == old(data) && nexti == nexti0
    {
      hide PairRule;
      mods, nexti := 0, nexti0;
      var pprev, prev, cur := data[i - 2], data[i - 1], data[i];
      if cur == Mul {
        if prev.Const? && pprev.Const? {
          data := data[i - 2 := Const(FoldedProduct(pprev.arg, prev.arg))];
          Remove(i - 1);
          Remove(i - 1);
          mods, nexti := 1, i - 1;
        }
      } else if cur.Load? {
        if prev == Add && pprev.Const? {
          var n, off := cur.offset % WORD, Signed(pprev.arg);
          if off >= 0 && n + off < WORD - 1 {
            data := data[i := Load(cur.op, cur.offset + off)];
            Remove(i - 2);
            Remove(i - 2);
            mods, nexti := 1, i - 2;
          }
        }
      }
    }

    /** One round of rewriting; the index steps back after a rewrite, yet each rewrite shortens the buffer. */
    method Pass() returns (nmods: nat)
      modifies this
      ensures data == PassFrom(old(data), 0)
      ensures Improves(old(data), data) && |data| + nmods <= |old(data)|
      ensures nmods == 0 ==> data == old(data) && forall k :: 0 <= k < |data| ==> NoRuleAt(data, k)
    {
      hide PairRule, TripleRule, Improves, PassFrom;
      ImprovesSelf(data);
      nmods := 0;
      var i := 0;
      while i < |data|
        invariant 0 <= i && |data| + nmods <= |old(data)| && Improves(old(data), data)
        invariant PassFrom(data, i) == PassFrom(old(data), 0)
        invariant nmods == 0 ==> data == old(data) && i <= |data| && forall k :: 0 <= k < i ==> NoRuleAt(data, k)
        decreases |data|, |data| - i
      {
        var nexti := i + 1;
        ghost var c := data;
        if i > 0 {
          var mods;
          ghost var before := data;
          mods, nexti := Pairs(i);
          nmods := nmods + mods;
          if mods > 0 {
            PairRuleImproves(before, i);
            ImprovesTrans(old(data), before, data);
            PairRuleShort(before[i - 1], before[i]);
          }
        }
        ghost var c1, n1 := data, nexti;
        assert AfterPair(c, i) == (c1, n1);
        if i >= |data| { PassStep(c, i, c1, n1, c1, n1); break; }
        if i > 1 {
          var mods;
          ghost var before := data;
          mods, nexti := Triples(i, nexti);
          nmods := nmods + mods;
          if mods > 0 {
            TripleRuleImproves(before, i);
            ImprovesTrans(old(data), before, data);
            TripleRuleShort(before[i - 2], before[i - 1], before[i]);
          }
        }
        assert AfterTriple(c1, i, n1) == (data, nexti);
        PassStep(c, i, c1, n1, data, nexti);
        i := nexti;
      }
      PassEnd(data, i);
    }

    /** `fundef_peephole`: rounds until nothing changes or `optlvl` of them are done. */
    method Optimize(optlvl: int) returns (ghost rounds: nat)
      modifies this
      ensures Improves(old(data), data) && |data| <= |old(data)|
      ensures data == Rounds(old(data), optlvl)
      ensures 1 <= rounds <= (if optlvl > 1 then optlvl else 1)
      ensures Clean(data) || (rounds == (if optlvl > 1 then optlvl else 1) && |data| + rounds <= |old(data)|)
    {
      hide PairRule, TripleRule, Improves, Clean;
      ImprovesSelf(data);
      var level := optlvl;
      rounds := 0;
      while true
        invariant Improves(old(data), data) && |data| + rounds <= |old(data)| && level + rounds == optlvl
        invariant rounds == 0 || level > 0
        invariant Rounds(data, level) == Rounds(old(data), optlvl)
        decreases |data|
      {
        ghost var before := data;
        rounds := rounds + 1;
        var nmods := Pass();
        ImprovesTrans(old(data), before, data);
        if nmods == 0 {
          CleanIff(data);
          break;
        }
        level := level - 1;
        if level <= 0 { break; }
      }
    }
  }

  lemma PairRuleShort(a: Tok, b: Tok)
    requires PairRule(a, b).Some?
    ensures |PairRule(a, b).value| <= 1
  {}

  lemma TripleRuleShort(a: Tok, b: Tok, c: Tok)
    requires TripleRule(a, b, c).Some?
    ensures |TripleRule(a, b, c).value| == 1
  {}

  // ---------- where the pass does change behaviour ----------

  /** A load as WebAssembly has it: the marker is ignored. */
  function PlainLoad(E: Env, op: LoadOp, offset: nat, m: Machine): Out {
    if m.stack == [] || !IsI32(Top(m)) then Bad
    else
      var ea := Top(m).bits + offset % WORD;
      if ea + op.width > |m.mem| then Bad
      else Next(Push(Pop(m), LoadVal(E, op, m.mem[ea..ea + op.width])))
  }

  /** Straight code with such loads. */
  function ExecPlain(E: Env, run: seq<plain>, m: Machine): Out
    decreases |run|
  {
    if run == [] then Next(m)
    else
      var o := if run[0].Load? then PlainLoad(E, run[0].op, run[0].offset, m) else Exec(E, run[0], m);
      if o.Next? then ExecPlain(E, run[1..], o.m) else o
  }

  /** Adding a constant to an address: which sum it is, and that it is marked exactly when a non-negative constant
      takes it past 2^32, or the address was marked. */
  lemma SumMeans(x: Val, a: int)
    requires IsI32(x)
    ensures var s := AddVals(x, Int32(a)); IsI32(s) && s.bits == (x.bits + a) % WORD
    ensures AddVals(x, Int32(a)).wrapped <==> x.wrapped || (Signed(a) >= 0 && x.bits + Signed(a) >= WORD)
  {}

  /** The marker only takes loads away. */
  lemma MarkerOnlyStops(E: Env, op: LoadOp, n: nat, m: Machine)
    ensures DoLoad(E, op, n, m) == if m.stack != [] && Top(m).wrapped then Bad else PlainLoad(E, op, n, m)
  {}

  lemma PlainLoadRuns(E: Env, op: LoadOp, n: nat, m: Machine)
    ensures ExecPlain(E, [Load(op, n)], m) == PlainLoad(E, op, n, m)
  {
    assert [Load(op, n)][1..] == [];
    hide PlainLoad, Exec;
  }

  /** Adding a constant to the address, then loading. */
  lemma PlainTriple(E: Env, a: int, op: LoadOp, n: nat, m: Machine)
    ensures ExecPlain(E, [Const(a), Add, Load(op, n)], m) ==
            if m.stack == [] || !IsI32(Top(m)) then Bad else PlainLoad(E, op, n, Push(Pop(m), AddVals(Top(m), Int32(a))))
  {
    var run, rest := [Const(a), Add, Load(op, n)], [Add, Load(op, n)];
    assert run[1..] == rest && rest[1..] == [Load(op, n)];
    var m1 := Push(m, Int32(a));
    AddConst(E, a, m);
    assert ExecPlain(E, run, m) == ExecPlain(E, rest, m1) by { hide PlainLoad; }
    if m.stack != [] && IsI32(Top(m)) {
      var m2 := Push(Pop(m), AddVals(Top(m), Int32(a)));
      assert Exec(E, Add, m1) == Next(m2);
      PlainLoadRuns(E, op, n, m2);
      hide PlainLoad, Exec, AddVals;
    } else {
      hide PlainLoad, Exec;
    }
  }

  /** The offset rule without the marker, on every machine: the rewritten load does the same exactly when the address
      addition does not wrap around, or the access at the wrapped address is out of bounds too. */
  lemma OffsetRuleExact(E: Env, a: plain, b: plain, c: plain, m: Machine)
    requires TripleRule(a, b, c).Some? && c.Load? && c.op.width >= 1 && |m.mem| <= WORD
    ensures ExecPlain(E, [a, b, c], m) == ExecPlain(E, TripleRule(a, b, c).value, m)
            <==> m.stack == [] || !IsI32(Top(m)) || Top(m).bits + Signed(a.arg) < WORD
                 || (Top(m).bits + Signed(a.arg)) % WORD + c.offset % WORD + c.op.width > |m.mem|
  {
    var off, n := Signed(a.arg), c.offset;
    var moved := n + off;
    assert [a, b, c] == [Const(a.arg), Add, Load(c.op, n)];
    assert TripleRule(a, b, c).value == [Load(c.op, moved)];
    MovedOffset(a.arg, n);
    hide TripleRule, Signed;
    PlainTriple(E, a.arg, c.op, n, m);
    PlainLoadRuns(E, c.op, moved, m);
    hide ExecPlain;
    if m.stack != [] && IsI32(Top(m)) {
      PopPush(Pop(m), AddVals(Top(m), Int32(a.arg)));
      hide LoadVal;
      if Top(m).bits + off < WORD {
        assert (Top(m).bits + off) % WORD == Top(m).bits + off;
      } else {
        assert (Top(m).bits + off) % WORD == Top(m).bits + off - WORD;
      }
    }
  }

  lemma MovedOffset(a: int, n: nat)
    requires Signed(a) >= 0 && n % WORD + Signed(a) < WORD - 1
    ensures (n + Signed(a)) % WORD == n % WORD + Signed(a) && Int32(a) == Val(I32, Signed(a), false)
  {}

  /** Adding 1 to the last address wraps around to the first byte; the rewritten load traps. */
  lemma OffsetRuleFails(E: Env, m: Machine)
    requires 1 <= |m.mem| <= WORD && m.stack == [Int32(-1)]
    ensures var byte := LoadOp(I32, 1, false);
            var r := TripleRule(Const(1), Add, Load(byte, 0));
            && r == Some([Load(byte, 1)])
            && ExecPlain(E, [Const(1), Add, Load(byte, 0)], m).Next? && ExecPlain(E, r.value, m) == Bad
  {
    var byte := LoadOp(I32, 1, false);
    PlainTriple(E, 1, byte, 0, m);
    PlainLoadRuns(E, byte, 1, m);
    PopPush(Pop(m), AddVals(Top(m), Int32(1)));
    hide ExecPlain, LoadVal;
  }

  /** Dropping a loaded value traps when the address is out of bounds; after the rewrite it does not. */
  lemma DropRuleFails(E: Env, op: LoadOp, m: Machine)
    requires op.width >= 1 && m.mem == [] && m.stack == [Int32(0)]
    ensures PairRule(Load(op, 0), Drop) == Some(One(Drop))
    ensures ExecAll(E, [Load(op, 0), Drop], m) == Bad && ExecAll(E, [Drop], m) != Bad
  {
    Exec2(E, Load(op, 0), Drop, m);
    Exec1(E, Drop, m);
  }

  /** Dropping a loaded value can be shortened to dropping its address exactly when the load is in bounds. */
  lemma DropRuleExact(E: Env, op: LoadOp, n: nat, m: Machine)
    requires m.stack != [] && IsI32(Top(m)) && !Top(m).wrapped
    ensures ExecAll(E, [Load(op, n), Drop], m) == ExecAll(E, [Drop], m)
            <==> Top(m).bits + n % WORD + op.width <= |m.mem|
  {
    Exec2(E, Load(op, n), Drop, m);
    Exec1(E, Drop, m);
    if DoLoad(E, op, n, m).Next? { DropLoad(E, op, n, m); }
  }
}
