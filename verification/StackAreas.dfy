/** Which areas of the stack memory are in use at each moment, from the log of what happened to it. */
module StackAreas {
  import opened StackCode
  import opened StackBalance

  /** An area, and the event that claimed it. */
  datatype Area = Area(base: nat, size: nat, at: nat)

  /** The areas in use after a log: all claimed, but those below a stack pointer set since. */
  function Live(log: seq<Event>): seq<Area>
    decreases |log|
  {
    if log == [] then [] else Next(Live(log[..|log| - 1]), log[|log| - 1], |log| - 1)
  }

  function Next(L: seq<Area>, e: Event, at: nat): seq<Area> {
    match e
    case Claimed(b, n, _) => L + [Area(b, n, at)]
    case Reset(v) => From(L, v)
    case Stored(_, _, _) => L
  }

  /** The areas at `v` or above. */
  function From(L: seq<Area>, v: nat): seq<Area> {
    if L == [] then []
    else From(L[..|L| - 1], v) + if L[|L| - 1].base >= v then [L[|L| - 1]] else []
  }

  /** Aligned areas at `sp` or above, each wholly below those before it. */
  ghost predicate Stacked(L: seq<Area>, sp: nat) {
    && (forall i :: 0 <= i < |L| ==> L[i].base >= sp && L[i].base % 16 == 0)
    && forall i, j :: 0 <= i < j < |L| ==> L[j].base + L[j].size <= L[i].base
  }

  predicate Has(a: Area, x: nat) { a.base <= x < a.base + a.size }

  /** No two areas have a byte in common. */
  ghost predicate Apart(L: seq<Area>) {
    forall i, j, x :: 0 <= i < j < |L| && Has(L[i], x) ==> !Has(L[j], x)
  }

  lemma StackedApart(L: seq<Area>, sp: nat)
    requires Stacked(L, sp)
    ensures Apart(L)
  {}

  lemma {:induction false} FromIs(L: seq<Area>, v: nat)
    ensures forall a :: a in From(L, v) <==> a in L && a.base >= v
  {
    if L != [] {
      FromIs(L[..|L| - 1], v);
      assert L == L[..|L| - 1] + [L[|L| - 1]];
    }
  }

  lemma {:induction false} FromStacked(L: seq<Area>, sp: nat, v: nat)
    requires Stacked(L, sp)
    ensures Stacked(From(L, v), v)
  {
    if L != [] {
      var M, a := L[..|L| - 1], L[|L| - 1];
      FromStacked(M, sp, v);
      FromIs(M, v);
      hide From;
      Add(From(M, v), a, v);
    }
  }

  lemma Add(L: seq<Area>, a: Area, v: nat)
    requires Stacked(L, v) && a.base % 16 == 0 && forall b :: b in L ==> a.base + a.size <= b.base
    ensures a.base >= v ==> Stacked(L + [a], v)
    ensures a.base < v ==> Stacked(L, v)
  {}

  /** Every area of `K` at `hi` or above is still in use in `L`. */
  ghost predicate Keeps(K: seq<Area>, L: seq<Area>, hi: nat) {
    forall a :: a in K && a.base >= hi ==> a in L
  }

  /** What holds at a moment of a run that began with the areas `K` in use and never raised the stack pointer above `hi`. */
  ghost predicate Sound(K: seq<Area>, L: seq<Area>, sp: nat, hi: nat) {
    Stacked(L, sp) && Keeps(K, L, hi) && sp <= hi && forall a :: a in L ==> a in K || a.base + a.size <= hi
  }

  lemma ClaimSound(K: seq<Area>, L: seq<Area>, sp: nat, hi: nat, b: nat, n: nat, at: nat)
    requires Sound(K, L, sp, hi) && b % 16 == 0 && b + n <= sp
    ensures Sound(K, L + [Area(b, n, at)], b, hi)
  {}

  lemma ResetSound(K: seq<Area>, L: seq<Area>, sp: nat, hi: nat, v: nat)
    requires Sound(K, L, sp, hi) && v <= hi
    ensures Sound(K, From(L, v), v, hi)
  {
    FromIs(L, v);
    FromStacked(L, sp, v);
    hide From, Stacked;
  }

  lemma LiveStep(log: seq<Event>, e: Event)
    ensures Live(log + [e]) == Next(Live(log), e, |log|)
  {
    assert (log + [e])[..|log|] == log;
  }

  lemma StepSound(K: seq<Area>, log: seq<Event>, ev: seq<Event>, sp: nat, hi: nat, end: nat)
    requires Sound(K, Live(log), sp, hi) && Nested(ev, sp, hi, end) && ev != []
    ensures Sound(K, Live(log + [ev[0]]), After(ev[0], sp), hi) && Nested(ev[1..], After(ev[0], sp), hi, end)
  {
    NestedStep(ev, sp, hi, end);
    LiveStep(log, ev[0]);
    hide Sound, Live, Nested;
    match ev[0] {
      case Claimed(b, n, _) => ClaimSound(K, Live(log), sp, hi, b, n, |log|);
      case Reset(v) => ResetSound(K, Live(log), sp, hi, v);
      case Stored(_, _, _) =>
    }
  }

  lemma FirstEvent(log: seq<Event>, ev: seq<Event>, m: nat)
    requires 0 < m <= |ev|
    ensures log + ev[..m] == (log + [ev[0]]) + ev[1..][..m - 1]
  {
    assert ev[..m] == [ev[0]] + ev[1..][..m - 1];
  }

  /** At every moment of a nested run the areas in use are aligned and apart, those above `hi` are still in use, and
      every other lies below `hi`. */
  lemma {:induction false} SoundThroughout(K: seq<Area>, log: seq<Event>, ev: seq<Event>, sp: nat, hi: nat, end: nat, m: nat)
    requires Sound(K, Live(log), sp, hi) && Nested(ev, sp, hi, end) && m <= |ev|
    ensures exists cur :: Sound(K, Live(log + ev[..m]), cur, hi) && (m == |ev| ==> cur == end)
    decreases |ev|
  {
    if m == 0 {
      assert log + ev[..0] == log;
    } else {
      hide Sound, Live, Nested;
      StepSound(K, log, ev, sp, hi, end);
      FirstEvent(log, ev, m);
      SoundThroughout(K, log + [ev[0]], ev[1..], After(ev[0], sp), hi, end, m - 1);
    }
  }

  lemma NestedStep(ev: seq<Event>, sp: nat, hi: nat, end: nat)
    requires Nested(ev, sp, hi, end) && ev != []
    ensures match ev[0]
            case Claimed(b, n, _) => b % 16 == 0 && b + n <= sp && Nested(ev[1..], b, hi, end)
            case Reset(v) => v <= hi && Nested(ev[1..], v, hi, end)
            case Stored(_, _, _) => Nested(ev[1..], sp, hi, end)
  {
    if ev[0].Reset? { NestedEnd(ev[1..], ev[0].sp, hi, end); }
  }

  lemma {:induction false} ClaimsBelow(ev: seq<Event>, sp: nat, hi: nat, end: nat)
    requires Nested(ev, sp, hi, end)
    ensures forall e :: e in ev && e.Claimed? ==> e.base % 16 == 0 && e.base + e.size <= hi
    decreases |ev|
  {
    if ev != [] {
      NestedStep(ev, sp, hi, end);
      NestedEnd(ev, sp, hi, end);
      ClaimsBelow(ev[1..], After(ev[0], sp), hi, end);
      assert ev == [ev[0]] + ev[1..];
    }
  }

  /** From `st` to `out` with the stack pointer never above `hi`: every area claimed is aligned and inside [0, `hi`); at
      every moment the areas in use are apart; and those in use before, from `hi` on, stay in use. */
  ghost predicate AreasNest(st: State, out: State, hi: nat) {
    && st.log <= out.log
    && (forall e :: e in out.log[|st.log|..] && e.Claimed? ==> e.base % 16 == 0 && e.base + e.size <= hi)
    && (forall m :: |st.log| <= m <= |out.log| ==> Apart(Live(out.log[..m])) && Keeps(Live(st.log), Live(out.log[..m]), hi))
    && Stacked(Live(out.log), out.sp)
  }

  lemma Moment(st: State, out: State, hi: nat, m: nat)
    requires Within(st, out, hi) && !out.low && Stacked(Live(st.log), st.sp) && |st.log| <= m <= |out.log|
    ensures Apart(Live(out.log[..m])) && Keeps(Live(st.log), Live(out.log[..m]), hi)
    ensures m == |out.log| ==> Sound(Live(st.log), Live(out.log), out.sp, hi)
  {
    var ev, K, n := out.log[|st.log|..], Live(st.log), m - |st.log|;
    NestedEnd(ev, st.sp, hi, out.sp);
    assert out.log[..m] == st.log + ev[..n];
    if m == |out.log| { assert out.log[..m] == out.log; }
    hide Nested, Live, Stacked, Apart;
    SoundThroughout(K, st.log, ev, st.sp, hi, out.sp, n);
    var cur :| Sound(K, Live(out.log[..m]), cur, hi) && (n == |ev| ==> cur == out.sp);
    StackedApart(Live(out.log[..m]), cur);
  }

  lemma WithinNest(st: State, out: State, hi: nat)
    requires Within(st, out, hi) && !out.low && Stacked(Live(st.log), st.sp)
    ensures AreasNest(st, out, hi)
    ensures forall a :: a in Live(out.log) ==> a in Live(st.log) || a.base + a.size <= hi
  {
    ClaimsBelow(out.log[|st.log|..], st.sp, hi, out.sp);
    hide Nested, Live, Stacked, Apart;
    forall m | |st.log| <= m <= |out.log|
      ensures Apart(Live(out.log[..m])) && Keeps(Live(st.log), Live(out.log[..m]), hi)
    {
      Moment(st, out, hi, m);
    }
    Moment(st, out, hi, |out.log|);
  }
}
