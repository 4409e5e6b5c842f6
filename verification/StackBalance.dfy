/** Every completed call leaves the stack pointer where it was. */
module StackBalance {
  import opened StackCode

  ghost predicate Good(sp: nat) { sp < M32 && sp % 16 == 0 }

  // ---------- what happened to the stack memory ----------

  /** The stack pointer after an event. */
  function After(e: Event, sp: nat): nat { match e case Claimed(b, _, _) => b case Reset(v) => v case Stored(_, _, _) => sp }

  /** Events that start at stack pointer `sp` and end at `end`: every area claimed is aligned and lies below the stack
      pointer it was claimed under, and no reset goes above `hi`. */
  ghost predicate Nested(ev: seq<Event>, sp: nat, hi: nat, end: nat)
    decreases |ev|
  {
    && sp <= hi
    && if ev == [] then end == sp
       else match ev[0]
            case Claimed(b, n, _) => b % 16 == 0 && b + n <= sp && Nested(ev[1..], b, hi, end)
            case Reset(v) => Nested(ev[1..], v, hi, end)
            case Stored(_, _, _) => Nested(ev[1..], sp, hi, end)
  }

  lemma {:induction false} NestedConcat(a: seq<Event>, b: seq<Event>, sp: nat, hi: nat, mid: nat, end: nat)
    requires Nested(a, sp, hi, mid) && Nested(b, mid, hi, end)
    ensures Nested(a + b, sp, hi, end)
    decreases |a|
  {
    if a == [] {
      assert a + b == b;
    } else {
      assert (a + b)[1..] == a[1..] + b;
      NestedConcat(a[1..], b, After(a[0], sp), hi, mid, end);
    }
  }

  lemma {:induction false} NestedHigher(ev: seq<Event>, sp: nat, hi: nat, top: nat, end: nat)
    requires Nested(ev, sp, hi, end) && hi <= top
    ensures Nested(ev, sp, top, end)
    decreases |ev|
  {
    if ev != [] { NestedHigher(ev[1..], After(ev[0], sp), hi, top, end); }
  }

  lemma {:induction false} NestedEnd(ev: seq<Event>, sp: nat, hi: nat, end: nat)
    requires Nested(ev, sp, hi, end)
    ensures sp <= hi && end <= hi
    decreases |ev|
  {
    if ev != [] { NestedEnd(ev[1..], After(ev[0], sp), hi, end); }
  }

  /** From `st` to `out` the log was only added to, and what was added stays below `hi` unless an area did not fit. */
  ghost predicate Within(st: State, out: State, hi: nat) {
    && (st.low ==> out.low) && st.log <= out.log
    && (!out.low ==> Nested(out.log[|st.log|..], st.sp, hi, out.sp))
  }

  lemma WithinTrans(a: State, b: State, c: State, hi: nat, mid: nat)
    requires Within(a, b, hi) && Within(b, c, mid) && mid <= hi
    ensures Within(a, c, hi)
  {
    if !c.low {
      var u, v := b.log[|a.log|..], c.log[|b.log|..];
      assert c.log[|a.log|..] == u + v;
      hide Nested;
      NestedHigher(v, b.sp, mid, hi, c.sp);
      NestedConcat(u, v, a.sp, hi, b.sp, c.sp);
    }
  }

  lemma WithinEnd(a: State, b: State, hi: nat)
    requires Within(a, b, hi)
    ensures !b.low ==> a.sp <= hi && b.sp <= hi
  {
    hide Nested;
    if !b.low { NestedEnd(b.log[|a.log|..], a.sp, hi, b.sp); }
  }

  lemma WithinSelf(a: State)
    ensures Within(a, a, a.sp)
  {
    assert a.log[|a.log|..] == [];
  }

  lemma WithinSame(a: State, b: State, c: State, hi: nat)
    requires Within(a, b, hi) && c.sp == b.sp && c.low == b.low && c.log == b.log
    ensures Within(a, c, hi)
  {}

  lemma {:induction false} NestedCalled(a: seq<Event>, b: seq<Event>, sp: nat, hi: nat, end: nat)
    requires Nested(a, sp, hi, end) && |b| == |a| && forall i :: 0 <= i < |a| ==> b[i] == ByCalled(a[i])
    ensures Nested(b, sp, hi, end)
    decreases |a|
  {
    if a != [] {
      assert forall i :: 0 <= i < |a| - 1 ==> b[1..][i] == ByCalled(a[1..][i]);
      NestedCalled(a[1..], b[1..], After(a[0], sp), hi, end);
    }
  }

  /** Noting who claimed the areas changes nothing else. */
  lemma CalledWithin(a: State, b: State, c: State, hi: nat)
    requires Within(a, b, hi) && c.sp == b.sp && c.low == b.low && c.log == AsCalled(b.log, |a.log|)
    ensures Within(a, c, hi)
  {
    hide Nested;
    if !b.low { NestedCalled(b.log[|a.log|..], c.log[|a.log|..], a.sp, hi, b.sp); }
  }

  /** Claiming an area that fits, and resetting the stack pointer. */
  lemma TookWithin(st: State, n: nat, who: Who, v: nat)
    requires v % 16 == 0 && (st.sp >= n ==> v + n == st.sp)
    ensures Within(st, Took(st, n, who, v), st.sp)
  {
    var out := Took(st, n, who, v);
    assert out.log[|st.log|..] == [Claimed(v, n, who)];
    assert [Claimed(v, n, who)][1..] == [];
  }

  lemma StoredWithin(st: State, e: Event)
    requires e.Stored?
    ensures Within(st, st.(log := st.log + [e]), st.sp)
  {
    assert (st.log + [e])[|st.log|..] == [e];
    assert [e][1..] == [];
  }

  lemma ResetWithin(st: State, v: nat, hi: nat)
    requires !st.low ==> st.sp <= hi && v <= hi
    ensures Within(st, Moved(st, Release, v), hi)
  {
    var out := Moved(st, Release, v);
    assert out.log[|st.log|..] == [Reset(v)];
    assert [Reset(v)][1..] == [];
  }

  lemma WithinLow(a: State, b: State, hi: nat)
    requires Within(a, b, hi)
    ensures a.low ==> b.low
  {}

  lemma WithinLowTrans(a: State, b: State, c: State, hi: nat, mid: nat)
    requires Within(a, b, hi) && Within(b, c, mid) && b.low
    ensures Within(a, c, hi)
  {}

  /** Going down, then further down. */
  lemma WithinDown(a: State, b: State, c: State)
    requires Within(a, b, a.sp) && Within(b, c, b.sp)
    ensures Within(a, c, a.sp)
  {
    hide Within;
    WithinEnd(a, b, a.sp);
    if b.low { WithinLowTrans(a, b, c, a.sp, b.sp); } else { WithinTrans(a, b, c, a.sp, b.sp); }
  }

  // ---------- straight runs of instructions ----------

  lemma ExecStep(run: seq<Instr>, or: Oracle, st: State)
    requires run != []
    ensures ExecAll(run, or, st) == var r := Exec(run[0], or, st); if r.None? then None else ExecAll(run[1..], or, r.value)
  {
    hide Exec;
  }

  lemma ExecNone(or: Oracle, st: State)
    ensures ExecAll([], or, st) == Some(st)
  {}

  function Minus(sp: nat, n: nat): (r: nat) { (sp - n % M32) % M32 }

  lemma MinusGood(sp: nat, n: nat)
    requires Good(sp) && n % 16 == 0
    ensures Good(Minus(sp, n)) && (n <= sp ==> Minus(sp, n) + n == sp)
  {
    assert (n % M32) % 16 == 0;
    if n <= sp { SmallMod(n); }
    hide Minus;
    MinusIs(sp, n % M32, Minus(sp, n));
  }

  lemma SmallMod(n: nat)
    requires n < M32
    ensures n % M32 == n
  {}

  lemma MinusIs(sp: nat, m: nat, r: nat)
    requires Good(sp) && m < M32 && m % 16 == 0 && r == (sp - m) % M32
    ensures Good(r) && (m <= sp ==> r + m == sp)
  {}

  lemma PopPush(st: State, v: nat)
    ensures Pop(Push(st, v), 1) == st && Top(Push(st, v)) == v && |Push(st, v).stack| == |st.stack| + 1
    ensures Push(st, v).stack[|st.stack|] == v
  {
    assert (st.stack + [v])[..|st.stack|] == st.stack;
  }

  lemma PopPush2(st: State, v: nat, w: nat)
    ensures Pop(Push(Push(st, v), w), 2) == st && Push(Push(st, v), w).stack[|st.stack|] == v
    ensures Push(Push(st, v), w).stack[|st.stack| + 1] == w
  {
    assert (st.stack + [v] + [w])[..|st.stack|] == st.stack;
  }

  lemma DoConst(n: nat, or: Oracle, st: State)
    ensures Exec(Const(n), or, st) == Some(Push(st, n % M32))
  {}

  lemma DoGetL(x: nat, or: Oracle, st: State)
    ensures Exec(GetL(x), or, st) == Some(Push(st, Local(st, x)))
  {}

  lemma DoAdd(v: nat, w: nat, or: Oracle, st: State)
    ensures Exec(Add, or, Push(Push(st, v), w)) == Some(Push(st, (v + w) % M32))
  {
    PopPush2(st, v, w);
  }

  lemma DoSub(v: nat, w: nat, or: Oracle, st: State)
    ensures Exec(Sub, or, Push(Push(st, v), w)) == Some(Push(st, (v - w) % M32))
  {
    PopPush2(st, v, w);
  }

  lemma DoAlign(v: nat, or: Oracle, st: State)
    ensures Exec(Align, or, Push(st, v)) == Some(Push(st, Mask16(v)))
  {
    PopPush(st, v);
  }

  lemma DoSet(v: nat, x: nat, or: Oracle, st: State)
    ensures Exec(SetL(x), or, Push(st, v)) == Some(st.(locals := st.locals[x := v]))
    ensures Exec(SetSp(Release), or, Push(st, v)) == Some(Moved(st, Release, v))
    ensures Exec(TeeL(x), or, Push(st, v)) == Some(Push(st.(locals := st.locals[x := v]), v))
    ensures Exec(Drop, or, Push(st, v)) == Some(st)
  {
    PopPush(st, v);
  }

  lemma DoSetSp(v: nat, claim: Claim, or: Oracle, st: State)
    ensures Exec(SetSp(claim), or, Push(st, v)) == Some(Moved(st, claim, v))
  {
    PopPush(st, v);
  }

  lemma DoStore(v: nat, w: nat, off: nat, width: nat, or: Oracle, st: State)
    ensures Exec(Store(off, width), or, Push(Push(st, v), w)) == Some(st.(log := st.log + [Stored(v, off, width)]))
  {
    PopPush2(st, v, w);
  }

  /** Lowering the stack pointer by a constant: the result is left on the operand stack. */
  lemma LowerBy(n: nat, or: Oracle, st: State)
    ensures ExecAll([GetSp, Const(n), Sub], or, st) == Some(Push(st, Minus(st.sp, n)))
  {
    hide Exec, ExecAll, Push;
    DoConst(n, or, Push(st, st.sp));
    Difference(or, st, [Const(n), Sub], Const(n), n % M32);
  }

  /** The stack pointer less what instruction `i` pushes. */
  lemma Difference(or: Oracle, st: State, rest: seq<Instr>, i: Instr, m: nat)
    requires rest == [i, Sub] && Exec(i, or, Push(st, st.sp)) == Some(Push(Push(st, st.sp), m))
    ensures ExecAll([GetSp, i, Sub], or, st) == Some(Push(st, (st.sp - m) % M32))
  {
    hide Push, Exec;
    var run, s2, s3 := [GetSp, i, Sub], Push(Push(st, st.sp), m), Push(st, (st.sp - m) % M32);
    assert run[1..] == rest && rest[1..] == [Sub] && [Sub][1..] == [];
    DoGetSp(or, st);
    ExecStep(run, or, st);
    ExecStep(rest, or, Push(st, st.sp));
    DoSub(st.sp, m, or, st);
    ExecStep([Sub], or, s2);
    ExecNone(or, s3);
  }

  lemma DoGetSp(or: Oracle, st: State)
    ensures Exec(GetSp, or, st) == Some(Push(st, st.sp))
  {}

  lemma {:induction false} ExecConcat(a: seq<Instr>, b: seq<Instr>, or: Oracle, st: State)
    ensures ExecAll(a + b, or, st) == var r := ExecAll(a, or, st); if r.None? then None else ExecAll(b, or, r.value)
    decreases |a|
  {
    hide Exec;
    if a == [] {
      assert a + b == b;
    } else {
      assert (a + b)[1..] == a[1..] + b;
      var r := Exec(a[0], or, st);
      if r.Some? { ExecConcat(a[1..], b, or, r.value); }
    }
  }

  /** Setting the stack pointer to the top of the operand stack and leaving it there. */
  lemma SetAndGet(v: nat, claim: Claim, or: Oracle, st: State)
    ensures ExecAll([SetSp(claim), GetSp], or, Push(st, v)) == Some(Push(Moved(st, claim, v), v))
  {
    DoSetSp(v, claim, or, st);
    assert [SetSp(claim), GetSp][1..] == [GetSp] && [GetSp][1..] == [];
    ExecStep([SetSp(claim), GetSp], or, Push(st, v));
    DoGetSp(or, Moved(st, claim, v));
    ExecStep([GetSp], or, Moved(st, claim, v));
    ExecNone(or, Push(Moved(st, claim, v), v));
  }

  /** A constant `alloca`: the area is aligned and, if it fits, directly below everything before. */
  lemma AllocaRuns(size: nat, who: Who, or: Oracle, st: State)
    requires Good(st.sp)
    ensures var n := RoundUp16(size);
            var a := Minus(st.sp, n);
            && ExecAll(AllocaCode(size, who), or, st) == Some(Push(Took(st, n, who, a), a))
            && Good(a) && (st.sp >= n ==> a + n == st.sp) && Within(st, Took(st, n, who, a), st.sp)
  {
    hide Exec, Push, Within;
    var n := RoundUp16(size);
    LowerBy(n, or, st);
    assert AllocaCode(size, who) == [GetSp, Const(n), Sub] + [SetSp(Fixed(n, who)), GetSp];
    ExecConcat([GetSp, Const(n), Sub], [SetSp(Fixed(n, who)), GetSp], or, st);
    var a := Minus(st.sp, n);
    SetAndGet(a, Fixed(n, who), or, st);
    MinusGood(st.sp, n);
    TookWithin(st, n, who, a);
  }

  lemma RoundTop(v: nat, x: nat, or: Oracle, st: State)
    ensures ExecAll([Const(15), Add, Align, SetL(x)], or, Push(st, v)) ==
            Some(st.(locals := st.locals[x := Mask16((v + 15) % M32)]))
  {
    hide Push, Exec, Mask16;
    var run := [Const(15), Add, Align, SetL(x)];
    var w, m := (v + 15) % M32, Mask16((v + 15) % M32);
    assert run[1..] == [Add, Align, SetL(x)] && [Add, Align, SetL(x)][1..] == [Align, SetL(x)];
    assert [Align, SetL(x)][1..] == [SetL(x)] && [SetL(x)][1..] == [];
    DoConst(15, or, Push(st, v));
    ExecStep(run, or, Push(st, v));
    DoAdd(v, 15, or, st);
    ExecStep([Add, Align, SetL(x)], or, Push(Push(st, v), 15));
    DoAlign(w, or, st);
    ExecStep([Align, SetL(x)], or, Push(st, w));
    DoSet(m, x, or, st);
    ExecStep([SetL(x)], or, Push(st, m));
    ExecNone(or, st.(locals := st.locals[x := m]));
  }

  lemma LowerByLocal(x: nat, or: Oracle, st: State)
    ensures ExecAll([GetSp, GetL(x), Sub], or, st) ==
            Some(Push(st, (st.sp - Local(st, x)) % M32))
  {
    SameLocal(st, st.sp, x);
    DoGetL(x, or, Push(st, st.sp));
    hide Push, Exec, Local;
    Difference(or, st, [GetL(x), Sub], GetL(x), Local(st, x));
  }

  lemma SameLocal(st: State, v: nat, x: nat)
    ensures Local(Push(st, v), x) == Local(st, x)
  {}

  /** A dynamic `alloca`, with the size on the operand stack: aligned and, if the rounded size fits, directly below
      everything before. */
  lemma AllocaRestRuns(v: nat, x: nat, who: Who, or: Oracle, st: State)
    requires Good(st.sp)
    ensures var m := Mask16((v + 15) % M32);
            var a := (st.sp - m) % M32;
            var s := st.(locals := st.locals[x := m]);
            && ExecAll(AllocaRest(x, who), or, Push(st, v)) == Some(Push(Took(s, m, who, a), a))
            && Good(a) && (st.sp >= m ==> a + m == st.sp) && Within(st, Took(s, m, who, a), st.sp)
  {
    hide Exec, Push, Mask16, Within;
    var m := Mask16((v + 15) % M32);
    var a, s := (st.sp - m) % M32, st.(locals := st.locals[x := m]);
    var last := [SetSp(InLocal(x, who)), GetSp];
    assert AllocaRest(x, who) == [Const(15), Add, Align, SetL(x)] + ([GetSp, GetL(x), Sub] + last);
    ExecConcat([Const(15), Add, Align, SetL(x)], [GetSp, GetL(x), Sub] + last, or, Push(st, v));
    RoundTop(v, x, or, st);
    ExecConcat([GetSp, GetL(x), Sub], last, or, s);
    LowerByLocal(x, or, s);
    SetAndGet(a, InLocal(x, who), or, s);
    MinusGood(st.sp, m);
    TookWithin(s, m, who, a);
    WithinStart(s, Took(s, m, who, a), st);
  }

  lemma WithinStart(a: State, out: State, b: State)
    requires Within(a, out, a.sp) && a.sp == b.sp && a.low == b.low && a.log == b.log
    ensures Within(b, out, b.sp)
  {}

  /** The rounded size covers the size asked for exactly when rounding does not wrap around. */
  lemma RoundedCovers(v: nat)
    requires v < M32
    ensures Mask16((v + 15) % M32) >= v <==> v <= M32 - 16
  {}

  lemma TeeAndSet(v: nat, p: nat, claim: Claim, or: Oracle, st: State)
    ensures ExecAll([TeeL(p), SetSp(claim)], or, Push(st, v)) == Some(Moved(st.(locals := st.locals[p := v]), claim, v))
  {
    hide Push, Exec;
    var run, s := [TeeL(p), SetSp(claim)], st.(locals := st.locals[p := v]);
    assert run[1..] == [SetSp(claim)] && [SetSp(claim)][1..] == [];
    DoSet(v, p, or, st);
    ExecStep(run, or, Push(st, v));
    DoSetSp(v, claim, or, s);
    ExecStep([SetSp(claim)], or, Push(s, v));
    ExecNone(or, Moved(s, claim, v));
  }

  lemma StoreCount(p: nat, n: nat, or: Oracle, st: State)
    ensures ExecAll([GetL(p), Const(n), Store(0, 4)], or, st) == Some(st.(log := st.log + [Stored(Local(st, p), 0, 4)]))
  {
    hide Push, Exec, Local;
    var run, v, last := [GetL(p), Const(n), Store(0, 4)], Local(st, p), [Store(0, 4)];
    assert run[1..] == [Const(n)] + last && ([Const(n)] + last)[1..] == last && last[1..] == [];
    DoGetL(p, or, st);
    ExecStep(run, or, st);
    DoConst(n, or, Push(st, v));
    ExecStep([Const(n)] + last, or, Push(st, v));
    DoStore(v, n % M32, 0, 4, or, st);
    ExecStep(last, or, Push(Push(st, v), n % M32));
    ExecNone(or, st.(log := st.log + [Stored(v, 0, 4)]));
  }

  /** Opening an argument area claims it, remembers its address in `p`, and stores the count at its start. */
  lemma OpenRuns(p: nat, more: Exps, or: Oracle, st: State)
    requires Good(st.sp)
    ensures var n := AreaSize(more);
            var a := Minus(st.sp, n);
            var s := Took(st.(locals := st.locals[p := a]), n, Argument, a);
            var out := s.(log := s.log + [Stored(a, 0, 4)]);
            && ExecAll(OpenArea(p, more), or, st) == Some(out)
            && Good(a) && (st.sp >= n ==> a + n == st.sp) && Within(st, out, st.sp)
  {
    hide Exec, Push, AreaSize, Minus, Within;
    var n := AreaSize(more);
    var a := Minus(st.sp, n);
    var s, pair, last := st.(locals := st.locals[p := a]), [TeeL(p), SetSp(Fixed(n, Argument))], [GetL(p), Const(Count(more)), Store(0, 4)];
    assert OpenArea(p, more) == [GetSp, Const(n), Sub] + (pair + last);
    ExecConcat([GetSp, Const(n), Sub], pair + last, or, st);
    LowerBy(n, or, st);
    ExecConcat(pair, last, or, Push(st, a));
    TeeAndSet(a, p, Fixed(n, Argument), or, st);
    var t := Took(s, n, Argument, a);
    StoreCount(p, Count(more), or, t);
    assert Local(t, p) == a by { SetLocal(st, p, a); }
    MinusGood(st.sp, n);
    TookWithin(s, n, Argument, a);
    WithinStart(s, t, st);
    StoredWithin(t, Stored(a, 0, 4));
    WithinDown(st, t, t.(log := t.log + [Stored(a, 0, 4)]));
  }

  lemma SetLocal(st: State, p: nat, a: nat)
    ensures Local(st.(locals := st.locals[p := a]), p) == a
  {}

  /** Closing it sets the stack pointer to what it was when the area was opened. */
  lemma CloseRuns(p: nat, more: Exps, or: Oracle, st: State, sp: nat)
    requires sp < M32 && Local(st, p) == Minus(sp, AreaSize(more))
    ensures ExecAll(CloseArea(p, more), or, st) == Some(Moved(st, Release, sp))
  {
    hide Push, Exec, Local, AreaSize, Moved;
    var n, a := AreaSize(more) % M32, Local(st, p);
    var run, rest, last := CloseArea(p, more), [Const(AreaSize(more)), Add, SetSp(Release)], [SetSp(Release)];
    assert run[1..] == rest && rest[1..] == [Add] + last && ([Add] + last)[1..] == last && last[1..] == [];
    DoGetL(p, or, st);
    ExecStep(run, or, st);
    DoConst(AreaSize(more), or, Push(st, a));
    ExecStep(rest, or, Push(st, a));
    DoAdd(a, n, or, st);
    ExecStep([Add] + last, or, Push(Push(st, a), n));
    AddBack(sp, n);
    DoSetSp(sp, Release, or, st);
    ExecStep(last, or, Push(st, sp));
    ExecNone(or, Moved(st, Release, sp));
  }

  lemma AddBack(sp: nat, n: nat)
    requires sp < M32 && n < M32
    ensures ((sp - n) % M32 + n) % M32 == sp
  {}
}
