/** Structured C statements, the labelled blocks they are lowered to, and the proof that
    lowering keeps every run: same states, same exits, same loops that never end. */
module ControlFlow {
  datatype Option<T> = None | Some(value: T)

  type i32 = x: int | -0x8000_0000 <= x < 0x8000_0000

  /** What expressions do: `act` for those evaluated for their effect, `val` for those that
      also yield a 32-bit value. `S` is the whole machine state they work on. */
  datatype Env<!S> = Env(act: (nat, S) -> S, val: (nat, S) -> (i32, S))

  /** A condition or selector: an expression, the constant 1, or a logical negation. */
  datatype Exp = Opaque(id: nat) | One | Not(e: Exp)

  function Eval<S>(E: Env<S>, e: Exp, s: S): (i32, S) {
    match e
    case Opaque(id) => E.val(id, s)
    case One => (1, s)
    case Not(x) => var (v, s1) := Eval(E, x, s); (if v == 0 then 1 else 0, s1)
  }

  /** Labels of the program and labels allocated by the lowering. */
  datatype Label = User(name: nat) | Gen(index: nat)

  // ---------- source statements ----------

  datatype Stm =
    | Act(a: nat)
    | Seq(body: Stms)
    | Exit(name: nat, body: Stms)      // { ... name: }
    | Redo(name: nat, body: Stms)      // { name: ... }
    | If(c: Exp, thn: Stm)
    | IfElse(c: Exp, thn: Stm, els: Stm)
    | While(c: Exp, loop: Stm)
    | Do(loop: Stm, c: Exp)
    | For(init: Option<nat>, test: Option<Exp>, step: Option<nat>, loop: Stm)
    | Switch(sel: Exp, clauses: Clauses)
    | Break
    | Continue
    | Goto(name: nat)
    | Return(value: Option<nat>)

  datatype Stms = Nil | Cons(head: Stm, tail: Stms)

  /** Switch clauses in source order; a clause without a value is the default. */
  datatype Clauses = NoClauses | Clause(value: Option<i32>, body: Stms, rest: Clauses)

  /** How a statement ends: control past it, an exit still looking for its target,
      or no end within the given number of loop repetitions. */
  datatype Out<S> =
    | Normal(s: S) | Breaking(s: S) | Continuing(s: S) | Going(l: Label, s: S) | Returning(s: S) | Timeout

  function Effect<S>(E: Env<S>, a: Option<nat>, s: S): S {
    if a.Some? then E.act(a.value, s) else s
  }

  /** The meaning of a statement; `f` bounds how often each loop may repeat its body. */
  function Run<S>(E: Env<S>, p: Stm, s: S, f: nat): Out<S>
    decreases f, p, 0
  {
    match p
    case Act(a) => Normal(E.act(a, s))
    case Seq(b) => RunAll(E, b, s, f)
    case Exit(l, b) => Caught(User(l), RunAll(E, b, s, f))
    case Redo(l, b) =>
      var o := RunAll(E, b, s, f);
      if o.Going? && o.l == User(l) then (if f == 0 then Timeout else Run(E, p, o.s, f - 1)) else o
    case If(c, t) => var (v, s1) := Eval(E, c, s); if v != 0 then Run(E, t, s1, f) else Normal(s1)
    case IfElse(c, t, e) => var (v, s1) := Eval(E, c, s); if v != 0 then Run(E, t, s1, f) else Run(E, e, s1, f)
    case While(c, b) =>
      var (v, s1) := Eval(E, c, s);
      if v == 0 then Normal(s1)
      else
        var o := Run(E, b, s1, f);
        if o.Normal? || o.Continuing? then (if f == 0 then Timeout else Run(E, p, o.s, f - 1))
        else Broken(o)
    case Do(b, c) =>
      var o := Run(E, b, s, f);
      if o.Normal? || o.Continuing? then
        var (v, s1) := Eval(E, c, o.s);
        if v == 0 then Normal(s1) else if f == 0 then Timeout else Run(E, p, s1, f - 1)
      else Broken(o)
    case For(x, y, z, b) => RunFor(E, y, z, b, Effect(E, x, s), f)
    case Switch(e, cs) =>
      var (v, s1) := Eval(E, e, s);
      Broken(RunClauses(E, Enter(cs, v), s1, f))
    case Break => Breaking(s)
    case Continue => Continuing(s)
    case Goto(l) => Going(User(l), s)
    case Return(a) => Returning(Effect(E, a, s))
  }

  function RunAll<S>(E: Env<S>, b: Stms, s: S, f: nat): Out<S>
    decreases f, b, 0
  {
    match b
    case Nil => Normal(s)
    case Cons(p, rest) =>
      var o := Run(E, p, s, f);
      if o.Normal? then RunAll(E, rest, o.s, f) else o
  }

  function RunFor<S>(E: Env<S>, y: Option<Exp>, z: Option<nat>, b: Stm, s: S, f: nat): Out<S>
    decreases f, b, 1
  {
    var (v, s1) := Eval(E, if y.Some? then y.value else One, s);
    if v == 0 then Normal(s1)
    else
      var o := Run(E, b, s1, f);
      if o.Normal? || o.Continuing? then
        (if f == 0 then Timeout else RunFor(E, y, z, b, Effect(E, z, o.s), f - 1))
      else Broken(o)
  }

  /** Clauses one after the other: without a `break`, control falls through. */
  function RunClauses<S>(E: Env<S>, cs: Clauses, s: S, f: nat): Out<S>
    decreases f, cs, 0
  {
    match cs
    case NoClauses => Normal(s)
    case Clause(_, b, rest) =>
      var o := RunAll(E, b, s, f);
      if o.Normal? then RunClauses(E, rest, o.s, f) else o
  }

  function Caught<S>(l: Label, o: Out<S>): Out<S> {
    if o.Going? && o.l == l then Normal(o.s) else o
  }

  function Broken<S>(o: Out<S>): Out<S> {
    if o.Breaking? then Normal(o.s) else o
  }

  predicate HasValue(cs: Clauses, w: Option<i32>) {
    cs.Clause? && (cs.value == w || HasValue(cs.rest, w))
  }

  /** The clauses from the one labelled `w` on. */
  function From(cs: Clauses, w: Option<i32>): (r: Clauses)
    ensures r == cs || r < cs
  {
    if cs.NoClauses? || cs.value == w then cs else From(cs.rest, w)
  }

  /** Where a switch enters its clauses: at the case of the value, else at the default, else past them. */
  function Enter(cs: Clauses, v: i32): (r: Clauses)
    ensures r == cs || r < cs
  {
    if HasValue(cs, Some(v)) then From(cs, Some(v)) else From(cs, None)
  }

  // ---------- labelled blocks ----------

  /** What is left after lowering: labelled blocks, conditionals, jumps and a jump table. */
  datatype Tree =
    | TAct(a: nat)
    | TSeq(body: Trees)
    | TExit(l: Label, body: Trees)  // jumping to `l` leaves the block
    | TRedo(l: Label, body: Trees)  // jumping to `l` starts it over
    | TIf(c: Exp, thn: Tree)
    | TIfElse(c: Exp, thn: Tree, els: Tree)
    | TGoto(l: Label)
    | TReturn(value: Option<nat>)
    | TSwitch(sel: Exp, cases: seq<(i32, Label)>, default: Label)

  datatype Trees = TNil | TCons(head: Tree, tail: Trees)

  function Lookup(cases: seq<(i32, Label)>, v: int, d: Label): Label {
    if cases == [] then d else if cases[0].0 == v then cases[0].1 else Lookup(cases[1..], v, d)
  }

  function RunT<S>(E: Env<S>, t: Tree, s: S, f: nat): Out<S>
    decreases f, t
  {
    match t
    case TAct(a) => Normal(E.act(a, s))
    case TSeq(b) => RunTs(E, b, s, f)
    case TExit(l, b) => Caught(l, RunTs(E, b, s, f))
    case TRedo(l, b) =>
      var o := RunTs(E, b, s, f);
      if o.Going? && o.l == l then (if f == 0 then Timeout else RunT(E, t, o.s, f - 1)) else o
    case TIf(c, x) => var (v, s1) := Eval(E, c, s); if v != 0 then RunT(E, x, s1, f) else Normal(s1)
    case TIfElse(c, x, y) => var (v, s1) := Eval(E, c, s); if v != 0 then RunT(E, x, s1, f) else RunT(E, y, s1, f)
    case TGoto(l) => Going(l, s)
    case TReturn(a) => Returning(Effect(E, a, s))
    case TSwitch(e, cases, d) => var (v, s1) := Eval(E, e, s); Going(Lookup(cases, v, d), s1)
  }

  function RunTs<S>(E: Env<S>, b: Trees, s: S, f: nat): Out<S>
    decreases f, b
  {
    match b
    case TNil => Normal(s)
    case TCons(t, rest) =>
      var o := RunT(E, t, s, f);
      if o.Normal? then RunTs(E, rest, o.s, f) else o
  }

  // ---------- lowering ----------

  /** The stack of jump targets in scope. */
  datatype Target = Plain(l: Label) | BreakTo(l: Label) | ContinueTo(l: Label)

  function FindBreak(lib: seq<Target>): Option<Label> {
    if lib == [] then None
    else if lib[|lib| - 1].BreakTo? then Some(lib[|lib| - 1].l) else FindBreak(lib[..|lib| - 1])
  }

  function FindContinue(lib: seq<Target>): Option<Label> {
    if lib == [] then None
    else if lib[|lib| - 1].ContinueTo? then Some(lib[|lib| - 1].l) else FindContinue(lib[..|lib| - 1])
  }

  function OneTree(t: Tree): Trees { TCons(t, TNil) }

  function Simple(a: Option<nat>): Tree { if a.Some? then TAct(a.value) else TSeq(TNil) }

  /** Sorted insertion; `qsort` on distinct keys has the same result. */
  function Insert(c: (i32, Label), cases: seq<(i32, Label)>): seq<(i32, Label)> {
    if cases == [] || c.0 < cases[0].0 then [c] + cases else [cases[0]] + Insert(c, cases[1..])
  }

  /** Lowered clauses: their labels and bodies, in source order. */
  datatype Lowered = LNil | LCons(value: Option<i32>, l: Label, body: Trees, rest: Lowered)

  function SortedCases(ls: Lowered): seq<(i32, Label)> {
    match ls
    case LNil => []
    case LCons(w, l, _, rest) => if w.Some? then Insert((w.value, l), SortedCases(rest)) else SortedCases(rest)
  }

  function DefaultLabel(ls: Lowered, d: Label): Label {
    match ls
    case LNil => d
    case LCons(w, l, _, rest) => if w.None? then l else DefaultLabel(rest, d)
  }

  function Prepend(t: Tree, b: Trees): Trees { TCons(t, b) }

  /** Nests the blocks: each clause's label ends a block holding everything before the clause. */
  function Nest(acc: Trees, ls: Lowered): Trees
    decreases ls
  {
    match ls
    case LNil => acc
    case LCons(_, l, b, rest) => Nest(Prepend(TExit(l, acc), b), rest)
  }

  /** Lowers a statement with targets `lib`; `n` is the next free generated label. */
  function Lower(p: Stm, lib: seq<Target>, n: nat): (r: (Tree, nat))
    ensures r.1 >= n
    decreases p, 0
  {
    match p
    case Act(a) => (TAct(a), n)
    case Seq(b) => var (t, m) := LowerAll(b, lib, n); (TSeq(t), m)
    case Exit(l, b) => var (t, m) := LowerAll(b, lib + [Plain(User(l))], n); (TExit(User(l), t), m)
    case Redo(l, b) => var (t, m) := LowerAll(b, lib + [Plain(User(l))], n); (TRedo(User(l), t), m)
    case If(c, x) => var (t, m) := Lower(x, lib, n); (TIf(c, t), m)
    case IfElse(c, x, y) =>
      var (t, m) := Lower(x, lib, n); var (e, k) := Lower(y, lib, m); (TIfElse(c, t, e), k)
    case While(c, b) =>
      var bl, cl := Gen(n), Gen(n + 1);
      var (t, m) := Lower(b, lib + [BreakTo(bl), ContinueTo(cl)], n + 2);
      (TExit(bl, OneTree(TRedo(cl, OneTree(TIf(c, TSeq(TCons(t, OneTree(TGoto(cl))))))))), m)
    case Do(b, c) =>
      var l, bl, cl := Gen(n), Gen(n + 1), Gen(n + 2);
      var (t, m) := Lower(b, lib + [BreakTo(bl), ContinueTo(cl)], n + 3);
      (TExit(bl, OneTree(TRedo(l, TCons(TExit(cl, OneTree(t)), OneTree(TIf(c, TGoto(l))))))), m)
    case For(x, y, z, b) =>
      var l, bl, cl := Gen(n), Gen(n + 1), Gen(n + 2);
      var (t, m) := Lower(b, lib + [BreakTo(bl), ContinueTo(cl)], n + 3);
      (TExit(bl, TCons(Simple(x), OneTree(TRedo(l, ForBody(y, z, t, l, bl, cl))))), m)
    case Switch(e, cs) =>
      var bl := Gen(n);
      var (ls, m) := LowerClauses(cs, lib + [BreakTo(bl)], n + 1);
      (TExit(bl, Nest(OneTree(TSwitch(e, SortedCases(ls), DefaultLabel(ls, bl))), ls)), m)
    case Break => (TGoto(JumpLabel(FindBreak(lib))), n)
    case Continue => (TGoto(JumpLabel(FindContinue(lib))), n)
    case Goto(l) => (TGoto(User(l)), n)
    case Return(a) => (TReturn(a), n)
  }

  /** A target that was looked up; accepted statements always find one. */
  function JumpLabel(o: Option<Label>): Label { if o.Some? then o.value else Gen(0) }

  function ForBody(y: Option<Exp>, z: Option<nat>, t: Tree, l: Label, bl: Label, cl: Label): Trees {
    TCons(TIf(Not(if y.Some? then y.value else One), TGoto(bl)),
      TCons(TExit(cl, OneTree(t)), TCons(Simple(z), OneTree(TGoto(l)))))
  }

  function LowerAll(b: Stms, lib: seq<Target>, n: nat): (r: (Trees, nat))
    ensures r.1 >= n
    decreases b, 0
  {
    match b
    case Nil => (TNil, n)
    case Cons(p, rest) =>
      var (t, m) := Lower(p, lib, n); var (ts, k) := LowerAll(rest, lib, m); (TCons(t, ts), k)
  }

  function LowerClauses(cs: Clauses, lib: seq<Target>, n: nat): (r: (Lowered, nat))
    ensures r.1 >= n
    decreases cs, 0
  {
    match cs
    case NoClauses => (LNil, n)
    case Clause(w, b, rest) =>
      var (t, m) := LowerAll(b, lib, n + 1);
      var (ls, k) := LowerClauses(rest, lib, m);
      (LCons(w, Gen(n), t, ls), k)
  }

  // ---------- accepted statements ----------

  /** The statements that are compiled without a diagnostic: jumps have targets, and switch
      clauses differ. `bk` and `ct` tell whether break and continue have a target. */
  predicate Accepts(p: Stm, bk: bool, ct: bool, names: set<nat>)
    decreases p, 0
  {
    match p
    case Act(_) => true
    case Seq(b) => AcceptsAll(b, bk, ct, names)
    case Exit(l, b) => AcceptsAll(b, bk, ct, names + {l})
    case Redo(l, b) => AcceptsAll(b, bk, ct, names + {l})
    case If(_, x) => Accepts(x, bk, ct, names)
    case IfElse(_, x, y) => Accepts(x, bk, ct, names) && Accepts(y, bk, ct, names)
    case While(_, b) => Accepts(b, true, true, names)
    case Do(b, _) => Accepts(b, true, true, names)
    case For(_, _, _, b) => Accepts(b, true, true, names)
    case Switch(_, cs) => Distinct(cs) && AcceptsClauses(cs, true, ct, names)
    case Break => bk
    case Continue => ct
    case Goto(l) => l in names
    case Return(_) => true
  }

  predicate AcceptsAll(b: Stms, bk: bool, ct: bool, names: set<nat>)
    decreases b, 0
  {
    b.Cons? ==> Accepts(b.head, bk, ct, names) && AcceptsAll(b.tail, bk, ct, names)
  }

  predicate AcceptsClauses(cs: Clauses, bk: bool, ct: bool, names: set<nat>)
    decreases cs, 0
  {
    cs.Clause? ==> AcceptsAll(cs.body, bk, ct, names) && AcceptsClauses(cs.rest, bk, ct, names)
  }

  predicate Distinct(cs: Clauses) {
    cs.Clause? ==> !HasValue(cs.rest, cs.value) && Distinct(cs.rest)
  }

  /** An outcome that an accepted statement can have. */
  predicate Possible<S>(o: Out<S>, bk: bool, ct: bool, names: set<nat>) {
    match o
    case Breaking(_) => bk
    case Continuing(_) => ct
    case Going(l, _) => l.User? && l.name in names
    case _ => true
  }

  /** Accepted statements only jump to targets in scope. */
  lemma {:induction false} JumpsHaveTargets<S>(E: Env<S>, p: Stm, bk: bool, ct: bool, names: set<nat>, s: S, f: nat)
    requires Accepts(p, bk, ct, names)
    ensures Possible(Run(E, p, s, f), bk, ct, names)
    decreases f, p, 0
  {
    match p
    case Act(_) =>
    case Seq(b) => JumpsHaveTargetsAll(E, b, bk, ct, names, s, f);
    case Exit(l, b) => JumpsHaveTargetsAll(E, b, bk, ct, names + {l}, s, f);
    case Redo(l, b) =>
      JumpsHaveTargetsAll(E, b, bk, ct, names + {l}, s, f);
      var o := RunAll(E, b, s, f);
      if o.Going? && o.l == User(l) && f != 0 { JumpsHaveTargets(E, p, bk, ct, names, o.s, f - 1); }
    case If(c, x) => JumpsHaveTargets(E, x, bk, ct, names, Eval(E, c, s).1, f);
    case IfElse(c, x, y) =>
      JumpsHaveTargets(E, x, bk, ct, names, Eval(E, c, s).1, f);
      JumpsHaveTargets(E, y, bk, ct, names, Eval(E, c, s).1, f);
    case While(c, b) =>
      var s1 := Eval(E, c, s).1;
      JumpsHaveTargets(E, b, true, true, names, s1, f);
      var o := Run(E, b, s1, f);
      if (o.Normal? || o.Continuing?) && f != 0 { JumpsHaveTargets(E, p, bk, ct, names, o.s, f - 1); }
    case Do(b, c) =>
      JumpsHaveTargets(E, b, true, true, names, s, f);
      var o := Run(E, b, s, f);
      if (o.Normal? || o.Continuing?) && f != 0 { JumpsHaveTargets(E, p, bk, ct, names, Eval(E, c, o.s).1, f - 1); }
    case For(x, y, z, b) => JumpsHaveTargetsFor(E, y, z, b, bk, ct, names, Effect(E, x, s), f);
    case Switch(e, cs) =>
      var (v, s1) := Eval(E, e, s);
      AcceptsFrom(cs, Some(v), true, ct, names);
      AcceptsFrom(cs, None, true, ct, names);
      JumpsHaveTargetsClauses(E, Enter(cs, v), true, ct, names, s1, f);
    case Break =>
    case Continue =>
    case Goto(_) =>
    case Return(_) =>
  }

  lemma {:induction false} JumpsHaveTargetsFor<S>(E: Env<S>, y: Option<Exp>, z: Option<nat>, b: Stm,
                                                  bk: bool, ct: bool, names: set<nat>, s: S, f: nat)
    requires Accepts(b, true, true, names)
    ensures Possible(RunFor(E, y, z, b, s, f), bk, ct, names)
    decreases f, b, 1
  {
    var s1 := Eval(E, if y.Some? then y.value else One, s).1;
    JumpsHaveTargets(E, b, true, true, names, s1, f);
    var o := Run(E, b, s1, f);
    if (o.Normal? || o.Continuing?) && f != 0 {
      JumpsHaveTargetsFor(E, y, z, b, bk, ct, names, Effect(E, z, o.s), f - 1);
    }
  }

  lemma {:induction false} JumpsHaveTargetsAll<S>(E: Env<S>, b: Stms, bk: bool, ct: bool, names: set<nat>, s: S, f: nat)
    requires AcceptsAll(b, bk, ct, names)
    ensures Possible(RunAll(E, b, s, f), bk, ct, names)
    decreases f, b, 0
  {
    if b.Cons? {
      JumpsHaveTargets(E, b.head, bk, ct, names, s, f);
      var o := Run(E, b.head, s, f);
      if o.Normal? { JumpsHaveTargetsAll(E, b.tail, bk, ct, names, o.s, f); }
    }
  }

  lemma {:induction false} JumpsHaveTargetsClauses<S>(E: Env<S>, cs: Clauses, bk: bool, ct: bool, names: set<nat>, s: S, f: nat)
    requires AcceptsClauses(cs, bk, ct, names)
    ensures Possible(RunClauses(E, cs, s, f), bk, ct, names)
    decreases f, cs, 0
  {
    if cs.Clause? {
      JumpsHaveTargetsAll(E, cs.body, bk, ct, names, s, f);
      var o := RunAll(E, cs.body, s, f);
      if o.Normal? { JumpsHaveTargetsClauses(E, cs.rest, bk, ct, names, o.s, f); }
    }
  }

  lemma {:induction false} AcceptsFrom(cs: Clauses, w: Option<i32>, bk: bool, ct: bool, names: set<nat>)
    requires AcceptsClauses(cs, bk, ct, names)
    ensures AcceptsClauses(From(cs, w), bk, ct, names)
  {
    if cs.Clause? && cs.value != w { AcceptsFrom(cs.rest, w, bk, ct, names); }
  }
}
