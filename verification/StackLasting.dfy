/** Which of the areas that a function claims itself are still in use later, and that what it stores is stored in them. */
module StackLasting {
  import opened StackAreas
  import opened StackCode
  import opened StackBalance

  /** The area claimed by event `i` is in use after the log. */
  ghost predicate InUse(log: seq<Event>, i: nat) {
    i < |log| && log[i].Claimed? && Area(log[i].base, log[i].size, i) in Live(log)
  }

  /** Event `i` claims a non-empty area for the function itself: for good, or for a variadic call. */
  predicate OwnClaim(log: seq<Event>, i: nat) {
    i < |log| && log[i].Claimed? && log[i].size > 0 && log[i].who != Called
  }

  /** Of the non-empty areas that the function claimed itself from event `n` on, those in use are those not claimed
      for a variadic call. */
  ghost predicate Lasting(n: nat, log: seq<Event>) {
    forall i :: n <= i && OwnClaim(log, i) ==> (InUse(log, i) <==> log[i].who == Own)
  }

  ghost predicate NoneForGood(n: nat, log: seq<Event>) {
    forall i :: n <= i < |log| && log[i].Claimed? ==> log[i].who != Own
  }

  /** What event `i` stores lies inside an area in use at the time, which begins at the address stored to. */
  ghost predicate Inside(log: seq<Event>, i: nat) {
    i < |log| && log[i].Stored? && exists a :: a in Live(log[..i]) && a.base == log[i].to && log[i].off + log[i].width <= a.size
  }

  /** So does everything stored from event `n` on, all of it to addresses below `hi`. */
  ghost predicate Placed(n: nat, log: seq<Event>, hi: nat) {
    forall i :: n <= i < |log| && log[i].Stored? ==> Inside(log, i) && log[i].to < hi
  }

  ghost predicate Stores(st: State, out: State) {
    Stacked(Live(st.log), st.sp) && !out.low ==> Placed(|st.log|, out.log, st.sp)
  }

  /** What a run claims: nothing for good within the arguments of a variadic call, elsewhere what lasts; and what it
      stores. */
  ghost predicate Marks(st: State, out: State, v: bool) {
    Stacked(Live(st.log), st.sp) && !out.low ==>
      && (if v then NoneForGood(|st.log|, out.log) else Lasting(|st.log|, out.log))
      && Placed(|st.log|, out.log, st.sp)
  }

  /** Offsets and sizes of what was stored to address `to` from event `n` on. */
  ghost function Into(log: seq<Event>, n: nat, to: nat): seq<(nat, nat)>
    decreases |log|
  {
    if |log| <= n then []
    else
      var e := log[|log| - 1];
      Into(log[..|log| - 1], n, to) + if e.Stored? && e.to == to then [(e.off, e.width)] else []
  }

  // ---------- one area over time ----------

  /** The last event adds an area, or removes some. */
  lemma LiveNext(log: seq<Event>)
    requires log != []
    ensures var n := |log| - 1;
            forall a :: a in Live(log) ==> a in Live(log[..n]) || (log[n].Claimed? && a == Area(log[n].base, log[n].size, n))
  {
    var n := |log| - 1;
    if log[n].Reset? { FromIs(Live(log[..n]), log[n].sp); }
    hide From;
  }

  /** An area released is not in use again. */
  lemma {:induction false} StaysReleased(log: seq<Event>, n: nat, a: Area)
    requires n <= |log| && a.at < n && a in Live(log)
    ensures a in Live(log[..n])
    decreases |log|
  {
    if n == |log| {
      assert log[..n] == log;
    } else {
      LiveNext(log);
      hide Live;
      assert log[..|log| - 1][..n] == log[..n];
      StaysReleased(log[..|log| - 1], n, a);
    }
  }

  /** What a run leaves in use above its stack pointer stays in use while the stack pointer does not rise above that. */
  lemma StaysInUse(b: State, c: State, i: nat)
    requires Within(b, c, b.sp) && !c.low && Stacked(Live(b.log), b.sp) && InUse(b.log, i)
    ensures InUse(c.log, i)
  {
    hide Live, Stacked, Within;
    LogGrows(b, c, b.sp);
    StackedHas(Live(b.log), b.sp, Area(b.log[i].base, b.log[i].size, i));
    WithinNest(b, c, b.sp);
    NestKeeps(b, c, b.sp);
  }

  lemma LogGrows(b: State, c: State, hi: nat)
    requires Within(b, c, hi)
    ensures b.log <= c.log && (b.low ==> c.low)
  {
    hide Nested;
  }

  lemma StackedHas(L: seq<Area>, sp: nat, a: Area)
    requires Stacked(L, sp) && a in L
    ensures a.base >= sp
  {}

  lemma NestKeeps(st: State, out: State, hi: nat)
    requires AreasNest(st, out, hi)
    ensures Keeps(Live(st.log), Live(out.log), hi) && Stacked(Live(out.log), out.sp)
  {
    hide Live, Stacked, Apart, Keeps;
    assert out.log[..|out.log|] == out.log;
  }

  lemma StillStacked(a: State, b: State)
    requires Within(a, b, a.sp) && !b.low && Stacked(Live(a.log), a.sp)
    ensures Stacked(Live(b.log), b.sp)
  {
    hide Live, Stacked, Within;
    WithinNest(a, b, a.sp);
    NestKeeps(a, b, a.sp);
  }

  // ---------- runs ----------

  lemma MarksTrans(a: State, b: State, c: State, v: bool)
    requires Within(a, b, a.sp) && Within(b, c, b.sp) && Marks(a, b, v) && Marks(b, c, v)
    ensures Marks(a, c, v)
  {
    hide Live, Stacked, Within, Lasting, NoneForGood, Placed;
    LogGrows(a, b, a.sp);
    LogGrows(b, c, b.sp);
    if Stacked(Live(a.log), a.sp) && !c.low {
      StillStacked(a, b);
      WithinEnd(a, b, a.sp);
      PlacedTrans(|a.log|, b.log, c.log, a.sp, b.sp);
      if v { NoneTrans(|a.log|, b.log, c.log); } else { LastingTrans(|a.log|, b, c); }
    }
  }

  lemma StoresTrans(a: State, b: State, c: State, hi: nat)
    requires Within(a, b, a.sp) && Within(b, c, hi) && Stores(a, b) && Stores(b, c)
    ensures Stores(a, c)
  {
    hide Live, Stacked, Within, Placed;
    LogGrows(a, b, a.sp);
    LogGrows(b, c, hi);
    if Stacked(Live(a.log), a.sp) && !c.low {
      StillStacked(a, b);
      WithinEnd(a, b, a.sp);
      PlacedTrans(|a.log|, b.log, c.log, a.sp, b.sp);
    }
  }

  lemma StoresFrom(a: State, b: State, c: State)
    requires Stores(a, b) && c.sp == a.sp && c.log == a.log
    ensures Stores(c, b)
  {
    hide Live, Stacked, Placed;
  }

  lemma StoresSelf(a: State)
    ensures Stores(a, a)
  {
    hide Live, Stacked;
  }

  lemma StoresAs(a: State, b: State, c: State)
    requires Stores(a, b) && c.low == b.low && c.log == b.log
    ensures Stores(a, c)
  {
    hide Live, Stacked, Placed;
  }

  lemma StoresReset(a: State, b: State, v: nat)
    requires Stores(a, b)
    ensures Stores(a, Moved(b, Release, v))
  {
    hide Live, Stacked, Placed;
    if Stacked(Live(a.log), a.sp) && !b.low { PlacedMore(|a.log|, b.log, Reset(v), a.sp); }
  }

  /** Claiming an area stores nothing. */
  lemma StoresTook(a: State, n: nat, who: Who, v: nat)
    ensures Stores(a, Took(a, n, who, v))
  {
    hide Live, Stacked;
  }

  lemma MarksStores(a: State, b: State, v: bool)
    requires Marks(a, b, v)
    ensures Stores(a, b)
  {
    hide Live, Stacked, Placed, Lasting, NoneForGood;
  }

  lemma PlacedTrans(n: nat, b: seq<Event>, c: seq<Event>, hi: nat, mid: nat)
    requires Placed(n, b, hi) && Placed(|b|, c, mid) && b <= c && mid <= hi
    ensures Placed(n, c, hi)
  {
    hide Live;
    forall i | n <= i < |c| && c[i].Stored?
      ensures Inside(c, i) && c[i].to < hi
    {
      if i < |b| { assert b[..i] == c[..i] && Inside(b, i); }
    }
  }

  lemma NoneTrans(n: nat, b: seq<Event>, c: seq<Event>)
    requires NoneForGood(n, b) && NoneForGood(|b|, c) && b <= c
    ensures NoneForGood(n, c)
  {}

  lemma LastingTrans(n: nat, b: State, c: State)
    requires Within(b, c, b.sp) && !c.low && Stacked(Live(b.log), b.sp) && Lasting(n, b.log) && Lasting(|b.log|, c.log)
    ensures Lasting(n, c.log)
  {
    hide Live, Stacked, Within;
    LogGrows(b, c, b.sp);
    forall i: nat | n <= i && OwnClaim(c.log, i)
      ensures InUse(c.log, i) <==> c.log[i].who == Own
    {
      if i < |b.log| {
        assert OwnClaim(b.log, i) && b.log[i] == c.log[i];
        if InUse(b.log, i) { StaysInUse(b, c, i); }
        if InUse(c.log, i) { ReleasedBefore(b, c, i); }
      }
    }
  }

  lemma ReleasedBefore(b: State, c: State, i: nat)
    requires b.log <= c.log && i < |b.log| && InUse(c.log, i)
    ensures InUse(b.log, i)
  {
    hide Live;
    assert c.log[..|b.log|] == b.log;
    StaysReleased(c.log, |b.log|, Area(c.log[i].base, c.log[i].size, i));
  }

  lemma MarksSelf(a: State, v: bool)
    ensures Marks(a, a, v)
  {
    hide Live, Stacked;
  }

  lemma MarksSame(a: State, b: State, c: State, v: bool)
    requires Marks(a, b, v) && c.low == b.low && c.log == b.log
    ensures Marks(a, c, v)
  {
    hide Live, Stacked, Lasting, NoneForGood, Placed;
  }

  lemma MarksFrom(a: State, b: State, c: State, v: bool)
    requires Marks(a, b, v) && c.sp == a.sp && c.log == a.log
    ensures Marks(c, b, v)
  {
    hide Live, Stacked, Lasting, NoneForGood, Placed;
  }

  /** An `alloca`: in use at once, and for good unless it is passed to a variadic call. */
  lemma TookMarks(st: State, n: nat, v: bool, a: nat)
    ensures Marks(st, Took(st, n, By(v), a), v)
  {
    var e := Claimed(a, n, By(v));
    LiveStep(st.log, e);
    hide Live, Stacked;
    assert Area(a, n, |st.log|) in Live(st.log + [e]);
  }

  /** What a called function claims is not the function's own. */
  lemma CalledMarks(st: State, x: State, out: State, v: bool)
    requires Stores(st, x) && out.low == x.low && out.log == AsCalled(x.log, |st.log|)
    ensures Marks(st, out, v)
  {
    hide Live, Stacked, Placed;
    if Stacked(Live(st.log), st.sp) && !out.low { PlacedCalled(x.log, |st.log|, st.sp); }
  }

  /** Who claimed an area makes no difference to whether it is in use. */
  lemma {:induction false} LiveCalled(log: seq<Event>, n: nat)
    ensures Live(AsCalled(log, n)) == Live(log)
    decreases |log|
  {
    if log != [] {
      var m := |log| - 1;
      assert AsCalled(log, n)[..m] == AsCalled(log[..m], n);
      LiveCalled(log[..m], n);
    }
  }

  lemma PlacedCalled(log: seq<Event>, n: nat, hi: nat)
    requires Placed(n, log, hi)
    ensures Placed(n, AsCalled(log, n), hi)
  {
    hide Live;
    var c := AsCalled(log, n);
    forall i | n <= i < |c| && c[i].Stored?
      ensures Inside(c, i) && c[i].to < hi
    {
      assert Inside(log, i);
      assert c[..i] == AsCalled(log[..i], n);
      LiveCalled(log[..i], n);
    }
  }

  /** Something stored inside an area in use. */
  lemma StoredMarks(r: State, s: State, e: Event, j: nat, v: bool)
    requires Marks(r, s, v) && e.Stored? && r.log <= s.log
    requires Stacked(Live(r.log), r.sp) && !s.low ==> InUse(s.log, j) && s.log[j].base == e.to < r.sp && e.off + e.width <= s.log[j].size
    ensures Marks(r, s.(log := s.log + [e]), v)
  {
    hide Stacked, Live;
    var log := s.log + [e];
    if Stacked(Live(r.log), r.sp) && !s.low {
      LiveStep(s.log, e);
      assert log[..|s.log|] == s.log;
      assert Inside(log, |s.log|);
      PlacedMore(|r.log|, s.log, e, r.sp);
      hide Placed, Inside;
      if !v { LastingMore(|r.log|, s.log, e); }
    }
  }

  lemma PlacedMore(n: nat, log: seq<Event>, e: Event, hi: nat)
    requires Placed(n, log, hi) && (e.Stored? ==> Inside(log + [e], |log|) && e.to < hi)
    ensures Placed(n, log + [e], hi)
  {
    hide Live;
    var c := log + [e];
    forall i | n <= i < |c| && c[i].Stored?
      ensures Inside(c, i) && c[i].to < hi
    {
      if i < |log| { assert c[..i] == log[..i] && Inside(log, i); }
    }
  }

  lemma LastingMore(n: nat, log: seq<Event>, e: Event)
    requires Lasting(n, log) && e.Stored?
    ensures Lasting(n, log + [e])
  {
    LiveStep(log, e);
    hide Live;
    forall i: nat | n <= i && OwnClaim(log + [e], i)
      ensures InUse(log + [e], i) <==> (log + [e])[i].who == Own
    {
      assert OwnClaim(log, i);
    }
  }

  /** Closing the argument area releases everything claimed since it was opened, the area included. */
  lemma CloseMarks(r: State, c: State, v: bool)
    requires Within(r, c, r.sp) && Marks(r, c, true)
    ensures Marks(r, Moved(c, Release, r.sp), v)
  {
    var out := Moved(c, Release, r.sp);
    hide Live, Stacked, Within, Lasting, Placed, Inside;
    if Stacked(Live(r.log), r.sp) && !c.low {
      LogGrows(r, c, r.sp);
      PlacedMore(|r.log|, c.log, Reset(r.sp), r.sp);
      if !v { ReleasedAll(r, c); }
    }
  }

  lemma ReleasedAll(r: State, c: State)
    requires Within(r, c, r.sp) && !c.low && NoneForGood(|r.log|, c.log)
    ensures Lasting(|r.log|, c.log + [Reset(r.sp)])
  {
    var log := c.log + [Reset(r.sp)];
    LogGrows(r, c, r.sp);
    LiveStep(c.log, Reset(r.sp));
    FromIs(Live(c.log), r.sp);
    ClaimsBelow(c.log[|r.log|..], r.sp, r.sp, c.sp);
    hide Live, Nested, From;
    forall i: nat | |r.log| <= i && OwnClaim(log, i)
      ensures InUse(log, i) <==> log[i].who == Own
    {
      var e := c.log[i];
      assert e == c.log[|r.log|..][i - |r.log|];
      assert e.base < r.sp;
    }
  }

  // ---------- what is stored to one address ----------

  /** Runs that begin with the stack pointer at or below an address store nothing to it. */
  lemma {:induction false} IntoSame(b: seq<Event>, c: seq<Event>, n: nat, to: nat, hi: nat)
    requires b <= c && n <= |b| && Placed(|b|, c, hi) && hi <= to
    ensures Into(c, n, to) == Into(b, n, to)
    decreases |c|
  {
    hide Inside;
    if |b| == |c| {
      assert b == c;
    } else {
      var d := c[..|c| - 1];
      assert b <= d;
      NotInto(b, c, hi);
      PlacedLess(|b|, c, hi);
      hide Placed;
      IntoSame(b, d, n, to, hi);
    }
  }

  lemma NotInto(b: seq<Event>, c: seq<Event>, hi: nat)
    requires |b| < |c| && Placed(|b|, c, hi)
    ensures var e := c[|c| - 1]; e.Stored? ==> e.to < hi
  {
    hide Inside;
  }

  lemma PlacedLess(n: nat, c: seq<Event>, hi: nat)
    requires c != [] && Placed(n, c, hi)
    ensures Placed(n, c[..|c| - 1], hi)
  {
    hide Live;
    var d := c[..|c| - 1];
    forall i | n <= i < |d| && d[i].Stored?
      ensures Inside(d, i) && d[i].to < hi
    {
      assert d[..i] == c[..i] && Inside(c, i);
    }
  }

  lemma IntoNext(log: seq<Event>, e: Event, n: nat, to: nat)
    requires n <= |log|
    ensures Into(log + [e], n, to) == Into(log, n, to) + if e.Stored? && e.to == to then [(e.off, e.width)] else []
  {
    assert (log + [e])[..|log|] == log;
  }

  // ---------- whole runs ----------

  /** From `st` to `out` the stack pointer has stayed aligned and, unless an area did not fit, has not risen, nor did it
      in between; locals below `k` and from `n` on are as they were; and of what it claimed itself the run kept what it should. */
  ghost predicate Below(st: State, out: State, k: nat, n: nat, v: bool) {
    && Good(out.sp) && Within(st, out, st.sp) && Marks(st, out, v)
    && forall x: nat :: x < k || n <= x ==> Local(out, x) == Local(st, x)
  }

  lemma BelowTrans(a: State, b: State, c: State, k: nat, m: nat, n: nat, v: bool)
    requires k <= m <= n && Below(a, b, k, m, v) && Below(b, c, m, n, v)
    ensures Below(a, c, k, n, v)
  {
    hide Within, Marks;
    MarksTrans(a, b, c, v);
    if b.low { WithinLow(b, c, b.sp); WithinLowTrans(a, b, c, a.sp, b.sp); }
    else {
      WithinEnd(a, b, a.sp);
      WithinTrans(a, b, c, a.sp, b.sp);
    }
  }

  lemma BelowWider(a: State, b: State, k: nat, n: nat, j: nat, m: nat, v: bool)
    requires Below(a, b, k, n, v) && j <= k && n <= m
    ensures Below(a, b, j, m, v)
  {
    hide Within, Marks;
  }

  lemma BelowSame(a: State, b: State, c: State, k: nat, n: nat, v: bool)
    requires Below(a, b, k, n, v) && c.sp == b.sp && c.low == b.low && c.log == b.log && c.locals == b.locals
    ensures Below(a, c, k, n, v)
  {
    WithinSame(a, b, c, a.sp);
    MarksSame(a, b, c, v);
    hide Within, Marks;
  }

  lemma BelowSelf(a: State, k: nat, v: bool)
    requires Good(a.sp)
    ensures Below(a, a, k, k, v)
  {
    WithinSelf(a);
    MarksSelf(a, v);
    hide Within, Marks;
  }
}
