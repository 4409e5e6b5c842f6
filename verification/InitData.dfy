/** The initialization of structures, arrays and numbers in preallocated static data. */
module InitData {
  import opened Arith
  import opened IntTypes
  import opened Layout
  import opened Bin

  /** A constant initializer: a braced list, an integer constant with its type, the bits of a `float` or
      `double` constant, a string literal with its final zero, or the 16 bytes of a vector. */
  datatype Init =
    | Display(items: seq<Init>)
    | Const(cts: TS, v: int)
    | FloatBits(bits: nat)
    | DoubleBits(bits: nat)
    | Chars(wide: bool, data: seq<byte>)
    | Vector(data: seq<byte>)

  /** A constant of type `from` can be promoted to `to`, or survives conversion there and back. */
  predicate Compatible(to: TS, from: TS, v: int)
    requires InType(from, v)
  {
    to == from || Common(to, from) == to || Convert(from, to, Convert(to, from, v)) == v
  }

  /** Exactly those integer constants are accepted that can be read back from what is stored. */
  lemma CompatibleKeepsValue(to: TS, from: TS, v: int)
    requires InType(from, v)
    ensures Compatible(to, from, v) <==> Convert(from, to, Convert(to, from, v)) == v
  {
    if to != from && Common(to, from) == to {
      PromotionKeepsValue(to, from, v);
    }
  }

  lemma PromotionKeepsValue(to: TS, from: TS, v: int)
    requires InType(from, v) && to != from && Common(to, from) == to
    ensures Convert(from, to, Convert(to, from, v)) == v
  {
    CommonWide(to, from);
    hide Common;
    if from != Bool { ReduceBack(to, from, v); }
  }

  lemma CommonWide(to: TS, from: TS)
    requires Common(to, from) == to
    ensures to != Bool && Modulus(from) <= Modulus(to)
  {
    hide Modulus;
    ModulusOrder(to, from);
  }

  lemma ModulusOrder(to: TS, from: TS)
    requires Common(to, from) == to
    ensures Modulus(from) <= Modulus(to)
  {}

  lemma ReduceBack(to: TS, from: TS, v: int)
    requires from != Bool && to != Bool && InType(from, v) && Modulus(from) <= Modulus(to)
    ensures Reduce(from, Reduce(to, v)) == v
  {
    Near(to, from, v);
    hide Reduce;
    ReduceNear(from, v, Reduce(to, v), Modulus(to));
  }

  lemma ModNear(v: int, m: nat)
    requires m > 0 && -(m as int) <= v < m
    ensures v % m == if v < 0 then v + m else v
  {
    Remainder(v, if v < 0 then -1 else 0, m, if v < 0 then v + m else v);
  }

  lemma Near(to: TS, from: TS, v: int)
    requires from != Bool && to != Bool && InType(from, v) && Modulus(from) <= Modulus(to)
    ensures var r := Reduce(to, v); r == v || r == v + Modulus(to) || r == v - Modulus(to)
  {
    hide Modulus;
    ModNear(v, Modulus(to));
  }

  lemma ReduceNear(from: TS, v: int, r: int, m: nat)
    requires from != Bool && InType(from, v) && Modulus(from) <= m && (m == M8 || m == M16 || m == M32 || m == M64)
    requires r == v || r == v + m || r == v - m
    ensures Reduce(from, r) == v
  {
    var n := Modulus(from);
    Multiple(n, m);
    hide Modulus;
    var q, k := m / n, if v < 0 then -1 else 0;
    var low := if v < 0 then v + n else v;
    assert (k + q) * n == k * n + m && (k - q) * n == k * n - m;
    Remainder(r, if r == v then k else if r == v + m then k + q else k - q, n, low);
  }

  lemma Multiple(n: nat, m: nat)
    requires n == M8 || n == M16 || n == M32 || n == M64
    requires m == M8 || m == M16 || m == M32 || m == M64
    requires n <= m
    ensures m == m / n * n && n % 2 == 0
  {}

  /** The bytes that a single initializer stores in a place of type `t`; none is an error exit. */
  function Leaf(E: Env, t: Type, d: Init): (r: Option<seq<byte>>)
    requires d.Const? ==> InType(d.cts, d.v)
  {
    match d
    case Const(cts, v) =>
      if t.Num? && Compatible(t.ts, cts, v) then Some(Little(Convert(t.ts, cts, v), NumSize(t.ts)))
      else if t.Ptr? && cts == Int && v == 0 then Some(Little(0, 4))
      else None
    case FloatBits(bits) => if t.Float? then Some(Little(bits, 4)) else None
    case DoubleBits(bits) => if t.Double? then Some(Little(bits, 8)) else None
    case Vector(data) => if t.V128? && |data| == 16 then Some(data) else None
    case Chars(wide, data) =>
      if !t.Array? then None
      else
        var b, e := Measure(E, t, 0), Measure(E, t.elem, 0);
        if b.None? || e.None? || e.value.size != (if wide then 4 else 1) then None
        else
          var icnt, acnt := |data| / e.value.size, b.value.size / e.value.size;
          if icnt < 1 then None
          else if icnt - 1 == acnt then Some(data[..(icnt - 1) * e.value.size])
          else if icnt > acnt then None
          else Some(data[..icnt * e.value.size])
    case Display(_) => None
  }

  /** The place of item `i` of a braced list for `t`: its offset and type. */
  function Part(E: Env, t: Type, i: nat): Option<(nat, Type)> {
    match t
    case Array(elem, _) =>
      var e := Measure(E, elem, 0);
      if e.None? then None else Some((i * e.value.size, elem))
    case Struct(tag, fields) =>
      var fs := Members(E.structs, tag, fields);
      if fs.None? || i >= |fs.value| then None else OffsetOf(E, t, fs.value[i].name)
    case Union(tag, fields) =>
      var fs := Members(E.unions, tag, fields);
      if fs.None? || i >= |fs.value| then None else OffsetOf(E, t, fs.value[i].name)
    case _ => None
  }

  /** A braced list of `n` items has a legal length for `t`: no more than an array holds, exactly the members of a
      structure, and for a union with members never. */
  predicate CountOk(E: Env, t: Type, n: nat) {
    match t
    case Array(elem, _) =>
      var b, e := Measure(E, t, 0), Measure(E, elem, 0);
      b.Some? && e.Some? && (n == 0 || (n - 1) * e.value.size < b.value.size)
    case Struct(tag, fields) =>
      var fs := Members(E.structs, tag, fields);
      fs.Some? && n == |fs.value|
    case Union(tag, fields) =>
      var fs := Members(E.unions, tag, fields);
      fs.Some? && n == 0 && |fs.value| == 0
    case _ => false
  }

  /** An array takes no more items than it has elements, a structure one for each member. */
  lemma CountIff(E: Env, elem: Type, c: int, n: nat, tag: nat, fields: seq<Field>)
    ensures Measure(E, Array(elem, Some(c)), 0).Some? ==> (CountOk(E, Array(elem, Some(c)), n) <==> n <= c)
    ensures CountOk(E, Struct(tag, fields), n) <==> Members(E.structs, tag, fields).Some? && n == |Members(E.structs, tag, fields).value|
  {
    if Measure(E, Array(elem, Some(c)), 0).Some? { ItemsFit(E, elem, c, n); }
    hide Measure;
  }

  lemma ItemsFit(E: Env, elem: Type, c: int, n: nat)
    requires Measure(E, Array(elem, Some(c)), 0).Some?
    ensures CountOk(E, Array(elem, Some(c)), n) <==> n <= c
  {
    hide NumSize, Finished;
    ArraySize(E, elem, Some(c), 0);
    LevelLower(E, elem, 1, 0);
    hide Measure;
    if n > 0 { Elements(n, c, Measure(E, elem, 0).value.size); }
  }

  lemma Elements(n: nat, c: int, s: nat)
    requires n > 0 && s > 0
    ensures (n - 1) * s < c * s <==> n <= c
  {
    if n <= c { MulAtLeast(s, c - n + 1); assert c * s - (n - 1) * s == s * (c - n + 1); }
    if n > c {
      if n - 1 == c { } else { MulAtLeast(s, n - 1 - c); }
      assert (n - 1) * s - c * s == s * (n - 1 - c);
    }
  }

  /** Integer constants are values of their types. */
  predicate Typed(d: Init)
    decreases d
  {
    match d
    case Display(items) => forall i :: 0 <= i < |items| ==> Typed(items[i])
    case Const(cts, v) => InType(cts, v)
    case _ => true
  }

  ghost predicate Contains(d: Init, x: Init)
    decreases d
  {
    d == x || (d.Display? && exists i :: 0 <= i < |d.items| && Contains(d.items[i], x))
  }

  /** Initializers are typed when every integer constant in them is. */
  lemma {:induction false} TypedIff(d: Init)
    ensures Typed(d) <==> forall x :: Contains(d, x) && x.Const? ==> InType(x.cts, x.v)
    decreases d
  {
    hide InType;
    if d.Display? {
      forall i | 0 <= i < |d.items|
        ensures Typed(d.items[i]) <==> forall x :: Contains(d.items[i], x) && x.Const? ==> InType(x.cts, x.v)
      {
        TypedIff(d.items[i]);
      }
    } else {
      assert Contains(d, d);
    }
  }

  /** The initializer is accepted for a place of type `t`. */
  predicate Accepts(E: Env, t: Type, d: Init)
    requires Typed(d)
    decreases d
  {
    if !d.Display? then Leaf(E, t, d).Some?
    else CountOk(E, t, |d.items|) &&
         forall i :: 0 <= i < |d.items| ==> Part(E, t, i).Some? && Accepts(E, Part(E, t, i).value.1, d.items[i])
  }

  /** Member names are distinct in every structure the initializer goes into. */
  ghost predicate Named(E: Env, t: Type, d: Init)
    decreases d
  {
    d.Display? ==>
      && (t.Struct? && Members(E.structs, t.tag, t.fields).Some? ==> Distinct(Members(E.structs, t.tag, t.fields).value))
      && forall i :: 0 <= i < |d.items| && Part(E, t, i).Some? ==> Named(E, Part(E, t, i).value.1, d.items[i])
  }

  ghost predicate Distinct(fs: seq<Field>) {
    forall i, j :: 0 <= i < j < |fs| ==> fs[i].name != fs[j].name
  }

  /** Memory `mem` holds the initializer's bytes at `off`: each leaf's at exactly the leaf's own place. */
  ghost predicate Holds(E: Env, t: Type, d: Init, mem: seq<byte>, off: nat)
    requires Typed(d)
    decreases d
  {
    if d.Display? then
      forall i :: 0 <= i < |d.items| ==>
        Part(E, t, i).Some? && Holds(E, Part(E, t, i).value.1, d.items[i], mem, off + Part(E, t, i).value.0)
    else
      var b := Leaf(E, t, d);
      b.Some? && off + |b.value| <= |mem| && mem[off..off + |b.value|] == b.value
  }

  /** Byte `x`, counted from the start of the place, belongs to a leaf. */
  ghost predicate Touches(E: Env, t: Type, d: Init, x: int)
    requires Typed(d)
    decreases d
  {
    if d.Display? then
      exists i :: 0 <= i < |d.items| && Part(E, t, i).Some?
                  && Touches(E, Part(E, t, i).value.1, d.items[i], x - Part(E, t, i).value.0)
    else Leaf(E, t, d).Some? && 0 <= x < |Leaf(E, t, d).value|
  }

  /** A braced initializer for a union is never accepted. */
  lemma UnionNeverAccepted(E: Env, t: Type, d: Init, lvl: nat)
    requires t.Union? && Measure(E, t, lvl).Some? && d.Display? && Typed(d)
    ensures !Accepts(E, t, d)
  {}

  // ---------- where the parts are ----------

  lemma LeafFits(E: Env, t: Type, d: Init)
    requires Typed(d) && !d.Display? && Leaf(E, t, d).Some? && Measure(E, t, 0).Some?
    ensures |Leaf(E, t, d).value| <= Measure(E, t, 0).value.size
  {
    if t.Array? {
      var b, e := Measure(E, t, 0).value.size, Measure(E, t.elem, 0).value.size;
      hide Measure;
      assert e == 1 || e == 4;
    }
  }

  /** An array of size `s * c` with at most `n` elements started has room for all of them. */
  lemma RoomFor(s: nat, c: int, n: nat)
    requires s > 0 && n > 0 && (n - 1) * s < s * c
    ensures n * s <= s * c
  {
    if n > c {
      MulLess(c, n - 1, s);
      assert false;
    }
    MulLess(n, c, s);
  }

  lemma MulLess(x: int, y: int, s: nat)
    requires x <= y
    ensures x * s <= y * s && s * x == x * s
  {
    assert y * s - x * s == (y - x) * s;
  }

  lemma ArrayParts(E: Env, t: Type, n: nat, i: nat)
    requires t.Array? && Measure(E, t, 0).Some? && CountOk(E, t, n) && i < n
    ensures Part(E, t, i).Some? && Measure(E, Part(E, t, i).value.1, 0).Some?
    ensures var o, m := Part(E, t, i).value.0, Measure(E, Part(E, t, i).value.1, 0).value;
            && o + m.size <= Measure(E, t, 0).value.size
            && forall j: nat :: i < j ==> Part(E, t, j).Some? && o + m.size <= Part(E, t, j).value.0
  {
    var s, c := Measure(E, t.elem, 0).value.size, t.count.value;
    LevelLower(E, t.elem, 1, 0);
    assert Measure(E, t, 0).value.size == s * c;
    hide Measure;
    RoomFor(s, c, n);
    MulLess(i + 1, n, s);
    assert (i + 1) * s == i * s + s;
    forall j: nat | i < j
      ensures i * s + s <= j * s
    {
      MulLess(i + 1, j, s);
    }
  }

  lemma StructParts(E: Env, t: Type, n: nat, i: nat)
    requires t.Struct? && Measure(E, t, 0).Some? && CountOk(E, t, n) && i < n
    requires Distinct(Members(E.structs, t.tag, t.fields).value)
    ensures Part(E, t, i).Some? && Measure(E, Part(E, t, i).value.1, 0).Some?
    ensures var o, m := Part(E, t, i).value.0, Measure(E, Part(E, t, i).value.1, 0).value;
            && o + m.size <= Measure(E, t, 0).value.size
            && forall j: nat :: i < j < n ==> Part(E, t, j).Some? && o + m.size <= Part(E, t, j).value.0
  {
    hide Measure, OffsetOf, Offset;
    var fs := Members(E.structs, t.tag, t.fields).value;
    MembersInside(E, t, 0, i);
    OffsetAgrees(E, t, 0, fs[i].name);
    assert FirstNamed(fs, fs[i].name, i);
    forall j: nat | i < j < n
      ensures Part(E, t, j).Some? && Part(E, t, j).value.0 == Offset(E, fs, j).value
    {
      OffsetAgrees(E, t, 0, fs[j].name);
      assert FirstNamed(fs, fs[j].name, j);
    }
  }

  /** The parts of a braced list lie inside the place and one after another. */
  lemma Parts(E: Env, t: Type, d: Init, i: nat)
    requires d.Display? && Measure(E, t, 0).Some? && CountOk(E, t, |d.items|) && i < |d.items| && Named(E, t, d)
    ensures Part(E, t, i).Some? && Measure(E, Part(E, t, i).value.1, 0).Some? && Named(E, Part(E, t, i).value.1, d.items[i])
    ensures var o, m := Part(E, t, i).value.0, Measure(E, Part(E, t, i).value.1, 0).value;
            && o + m.size <= Measure(E, t, 0).value.size
            && forall j: nat :: i < j < |d.items| ==> Part(E, t, j).Some? && o + m.size <= Part(E, t, j).value.0
  {
    hide Measure, Part, Distinct;
    if t.Array? { ArrayParts(E, t, |d.items|, i); } else { StructParts(E, t, |d.items|, i); }
  }

  /** Leaves are inside the place. */
  lemma {:induction false} TouchesInside(E: Env, t: Type, d: Init, x: int)
    requires Typed(d) && Measure(E, t, 0).Some? && Accepts(E, t, d) && Named(E, t, d) && Touches(E, t, d, x)
    ensures 0 <= x < Measure(E, t, 0).value.size
    decreases d
  {
    hide Measure, Part, Leaf, CountOk;
    if d.Display? {
      var i :| 0 <= i < |d.items| && Part(E, t, i).Some? && Touches(E, Part(E, t, i).value.1, d.items[i], x - Part(E, t, i).value.0);
      Parts(E, t, d, i);
      TouchesInside(E, Part(E, t, i).value.1, d.items[i], x - Part(E, t, i).value.0);
    } else {
      LeafFits(E, t, d);
    }
  }

  /** What a place holds depends on its own bytes only. */
  lemma {:induction false} HoldsFrame(E: Env, t: Type, d: Init, mem: seq<byte>, now: seq<byte>, off: nat)
    requires Typed(d) && Measure(E, t, 0).Some? && Accepts(E, t, d) && Named(E, t, d) && Holds(E, t, d, mem, off)
    requires |now| == |mem| && off + Measure(E, t, 0).value.size <= |mem|
    requires forall x :: off <= x < off + Measure(E, t, 0).value.size ==> now[x] == mem[x]
    ensures Holds(E, t, d, now, off)
    decreases d
  {
    hide Measure, Part, Leaf, CountOk;
    if d.Display? {
      forall i | 0 <= i < |d.items|
        ensures Part(E, t, i).Some? && Holds(E, Part(E, t, i).value.1, d.items[i], now, off + Part(E, t, i).value.0)
      {
        Parts(E, t, d, i);
        HoldsFrame(E, Part(E, t, i).value.1, d.items[i], mem, now, off + Part(E, t, i).value.0);
      }
    } else {
      LeafFrame(E, t, d, mem, now, off);
    }
  }

  lemma LeafFrame(E: Env, t: Type, d: Init, mem: seq<byte>, now: seq<byte>, off: nat)
    requires Typed(d) && !d.Display? && Measure(E, t, 0).Some? && Leaf(E, t, d).Some?
    requires var b := Leaf(E, t, d).value; off + |b| <= |mem| && mem[off..off + |b|] == b
    requires |now| == |mem| && off + Measure(E, t, 0).value.size <= |mem|
    requires forall x :: off <= x < off + Measure(E, t, 0).value.size ==> now[x] == mem[x]
    ensures Holds(E, t, d, now, off)
  {
    hide Measure, Leaf;
    LeafFits(E, t, d);
    var n := |Leaf(E, t, d).value|;
    assert now[off..off + n] == mem[off..off + n];
  }

  // ---------- the first items of a braced list ----------

  ghost predicate AcceptsUpTo(E: Env, t: Type, d: Init, n: nat)
    requires d.Display? && Typed(d) && n <= |d.items|
  {
    forall i :: 0 <= i < n ==> Part(E, t, i).Some? && Accepts(E, Part(E, t, i).value.1, d.items[i])
  }

  ghost predicate HoldsUpTo(E: Env, t: Type, d: Init, mem: seq<byte>, off: nat, n: nat)
    requires d.Display? && Typed(d) && n <= |d.items|
  {
    forall i :: 0 <= i < n ==>
      Part(E, t, i).Some? && Holds(E, Part(E, t, i).value.1, d.items[i], mem, off + Part(E, t, i).value.0)
  }

  ghost predicate TouchesUpTo(E: Env, t: Type, d: Init, x: int, n: nat)
    requires d.Display? && Typed(d) && n <= |d.items|
  {
    exists i :: 0 <= i < n && Part(E, t, i).Some? && Touches(E, Part(E, t, i).value.1, d.items[i], x - Part(E, t, i).value.0)
  }

  /** The memory after `n` items: they are in place, and no byte outside their leaves has changed. */
  ghost predicate Filled(E: Env, t: Type, d: Init, was: seq<byte>, mem: seq<byte>, off: nat, n: nat)
    requires d.Display? && Typed(d) && n <= |d.items|
  {
    && |mem| == |was| && AcceptsUpTo(E, t, d, n) && HoldsUpTo(E, t, d, mem, off, n)
    && forall x :: 0 <= x < |mem| && !TouchesUpTo(E, t, d, x - off, n) ==> mem[x] == was[x]
  }

  /** The memory after one initializer. */
  ghost predicate Initialized(E: Env, t: Type, d: Init, was: seq<byte>, mem: seq<byte>, off: nat)
    requires Typed(d)
  {
    && |mem| == |was| && Accepts(E, t, d) && Holds(E, t, d, mem, off)
    && forall x :: 0 <= x < |mem| && !Touches(E, t, d, x - off) ==> mem[x] == was[x]
  }

  /** An initialized place changes nothing outside itself. */
  lemma OutsideSame(E: Env, t: Type, d: Init, was: seq<byte>, mem: seq<byte>, off: nat, x: nat)
    requires Typed(d) && Measure(E, t, 0).Some? && Named(E, t, d) && Initialized(E, t, d, was, mem, off)
    requires x < |mem| && (x < off || off + Measure(E, t, 0).value.size <= x)
    ensures mem[x] == was[x]
  {
    hide Measure, Named, Accepts, Holds, Touches;
    if Touches(E, t, d, x - off) { TouchesInside(E, t, d, x - off); }
  }

  lemma FillNone(E: Env, t: Type, d: Init, was: seq<byte>, off: nat)
    requires d.Display? && Typed(d)
    ensures Filled(E, t, d, was, was, off, 0)
  {}

  /** One more item: the items before it stay in place, and only its own leaves change. */
  lemma FillStep(E: Env, t: Type, d: Init, was: seq<byte>, mem: seq<byte>, now: seq<byte>, off: nat, n: nat)
    requires d.Display? && Typed(d) && n < |d.items| && Named(E, t, d) && Measure(E, t, 0).Some? && CountOk(E, t, |d.items|)
    requires Filled(E, t, d, was, mem, off, n) && off + Measure(E, t, 0).value.size <= |mem|
    requires Part(E, t, n).Some?
    requires Initialized(E, Part(E, t, n).value.1, d.items[n], mem, now, off + Part(E, t, n).value.0)
    ensures Filled(E, t, d, was, now, off, n + 1)
  {
    hide Measure, Part, CountOk, Named, Accepts, Holds, Touches;
    forall i | 0 <= i < n
      ensures Part(E, t, i).Some? && Holds(E, Part(E, t, i).value.1, d.items[i], now, off + Part(E, t, i).value.0)
    {
      EarlierStays(E, t, d, mem, now, off, i, n);
    }
    var o := Part(E, t, n).value.0;
    forall x | 0 <= x < |now| && !TouchesUpTo(E, t, d, x - off, n + 1)
      ensures now[x] == was[x]
    {
      assert !TouchesUpTo(E, t, d, x - off, n);
      assert x - (off + o) == x - off - o;
    }
  }

  lemma EarlierStays(E: Env, t: Type, d: Init, mem: seq<byte>, now: seq<byte>, off: nat, i: nat, n: nat)
    requires d.Display? && Typed(d) && i < n < |d.items| && Named(E, t, d) && Measure(E, t, 0).Some? && CountOk(E, t, |d.items|)
    requires off + Measure(E, t, 0).value.size <= |mem| && AcceptsUpTo(E, t, d, n) && HoldsUpTo(E, t, d, mem, off, n)
    requires Part(E, t, n).Some?
    requires Initialized(E, Part(E, t, n).value.1, d.items[n], mem, now, off + Part(E, t, n).value.0)
    ensures Part(E, t, i).Some? && Holds(E, Part(E, t, i).value.1, d.items[i], now, off + Part(E, t, i).value.0)
  {
    hide Measure, Part, CountOk, Named, Accepts, Holds, Initialized;
    Parts(E, t, d, i);
    Parts(E, t, d, n);
    var o, ft := Part(E, t, i).value.0, Part(E, t, i).value.1;
    var m := Measure(E, ft, 0).value;
    assert Accepts(E, ft, d.items[i]) && Holds(E, ft, d.items[i], mem, off + o);
    assert |now| == |mem| by { InitializedSize(E, Part(E, t, n).value.1, d.items[n], mem, now, off + Part(E, t, n).value.0); }
    forall x | off + o <= x < off + o + m.size
      ensures now[x] == mem[x]
    {
      OutsideSame(E, Part(E, t, n).value.1, d.items[n], mem, now, off + Part(E, t, n).value.0, x);
    }
    HoldsFrame(E, ft, d.items[i], mem, now, off + o);
  }

  lemma InitializedSize(E: Env, t: Type, d: Init, was: seq<byte>, mem: seq<byte>, off: nat)
    requires Typed(d) && Initialized(E, t, d, was, mem, off)
    ensures |mem| == |was|
  {}

  lemma FillDone(E: Env, t: Type, d: Init, was: seq<byte>, mem: seq<byte>, off: nat)
    requires d.Display? && Typed(d) && CountOk(E, t, |d.items|) && Filled(E, t, d, was, mem, off, |d.items|)
    ensures Initialized(E, t, d, was, mem, off)
  {
    hide Part, CountOk, Leaf;
    forall x: int | Touches(E, t, d, x)
      ensures TouchesUpTo(E, t, d, x, |d.items|)
    {}
  }

  // ---------- in place ----------

  /** The bytes of one number, through a fresh character buffer. */
  method NumberBytes(v: int, n: nat) returns (s: seq<byte>)
    requires n == 1 || n == 2 || n == 4 || n == 8
    ensures s == Little(v, n)
  {
    var cb := new Cbuf();
    if n == 1 {
      cb.Put(v);
      assert Little(v / 256, 0) == [];
    } else if n == 2 {
      cb.BinShort(v);
    } else if n == 4 {
      cb.BinInt(v);
    } else {
      cb.BinLLong(v);
    }
    hide Little;
    s := cb.data;
  }

  /** A literal of `n` characters, the final zero among them, fits an array of as many or more, or without the zero one of
      one less, when the characters are as large as the elements. */
  lemma LiteralIff(E: Env, elem: Type, count: int, wide: bool, data: seq<byte>)
    requires Measure(E, Array(elem, Some(count)), 0).Some?
    ensures var r, w := Leaf(E, Array(elem, Some(count)), Chars(wide, data)), if wide then 4 else 1;
            && (r.Some? <==> Measure(E, elem, 0).Some? && Measure(E, elem, 0).value.size == w && 1 <= |data| / w <= count + 1)
            && (r.Some? ==> r.value == data[..w * (if |data| / w <= count then |data| / w else count)])
  {
    hide Measure, Leaf;
    var t, w := Array(elem, Some(count)), if wide then 4 else 1;
    ArrayRoom(E, elem, count);
    if Measure(E, elem, 0).value.size == w { LiteralCase(E, t, wide, data, w, count); } else { OtherElements(E, t, wide, data); }
  }

  lemma ArrayRoom(E: Env, elem: Type, count: int)
    requires Measure(E, Array(elem, Some(count)), 0).Some?
    ensures count > 0 && Measure(E, elem, 0).Some?
    ensures Measure(E, Array(elem, Some(count)), 0).value.size / Measure(E, elem, 0).value.size == count
  {
    hide NumSize, Finished;
    ArraySize(E, elem, Some(count), 0);
    LevelLower(E, elem, 1, 0);
    hide Measure;
    Ratio(count, Measure(E, elem, 0).value.size);
  }

  lemma OtherElements(E: Env, t: Type, wide: bool, data: seq<byte>)
    requires t.Array? && Measure(E, t.elem, 0).Some? && Measure(E, t.elem, 0).value.size != if wide then 4 else 1
    ensures Leaf(E, t, Chars(wide, data)).None?
  {
    hide Measure, Compatible, Convert, Little, InType;
  }

  lemma LiteralCase(E: Env, t: Type, wide: bool, data: seq<byte>, w: nat, c: nat)
    requires t.Array? && Measure(E, t, 0).Some? && Measure(E, t.elem, 0).Some?
    requires w == (if wide then 4 else 1) && Measure(E, t.elem, 0).value.size == w && Measure(E, t, 0).value.size / w == c
    ensures var n := |data| / w;
            Leaf(E, t, Chars(wide, data)) == if 1 <= n <= c + 1 then Some(data[..w * (if n <= c then n else c)]) else None
  {
    hide Measure, Compatible, Convert, Little, InType;
  }

  lemma Ratio(c: nat, s: nat)
    requires s > 0
    ensures c * s / s == c
  {
    Remainder(c * s, c, s, 0);
  }

  /** Every other leaf has the size of its type; vectors are given whole, and pointers only as the `int` 0. */
  lemma LeafSize(E: Env, t: Type, d: Init)
    requires Typed(d) && !d.Display? && !d.Chars?
    ensures Leaf(E, t, d).Some? ==> Measure(E, t, 0).Some? && |Leaf(E, t, d).value| == Measure(E, t, 0).value.size
    ensures d.Vector? ==> (Leaf(E, t, d) == Some(d.data) <==> t.V128? && |d.data| == 16)
    ensures d.FloatBits? ==> (Leaf(E, t, d).Some? <==> t.Float?)
    ensures d.DoubleBits? ==> (Leaf(E, t, d).Some? <==> t.Double?)
    ensures d.Const? && t.Ptr? ==> Leaf(E, t, d) == if d.cts == Int && d.v == 0 then Some([0, 0, 0, 0]) else None
  {
    Le4(0);
    hide Compatible, Convert, InType;
  }

  /** A string literal for an array: with or without its final zero, never more than the array holds. */
  method LiteralBytes(E: Env, t: Type, wide: bool, data: seq<byte>) returns (b: Option<seq<byte>>)
    requires t.Array? && Measure(E, t, 0).Some?
    ensures b == Leaf(E, t, Chars(wide, data))
  {
    hide Measure;
    var asize := MeasureType(E, t, 0);
    var size := MeasureType(E, t.elem, 0);
    if size.None? { return None; }
    var icnt;
    if size.value.size == 1 && !wide {
      icnt := |data|;
    } else if size.value.size == 4 && wide {
      icnt := |data| / 4;
    } else {
      return None;
    }
    if icnt < 1 { return None; }
    var acnt := asize.value.size / size.value.size;
    if icnt - 1 == acnt {
      icnt := icnt - 1;
    } else if icnt > acnt {
      return None;
    }
    b := Some(data[..icnt * size.value.size]);
  }

  method LeafBytes(E: Env, t: Type, d: Init) returns (b: Option<seq<byte>>)
    requires Typed(d) && !d.Display? && Measure(E, t, 0).Some?
    ensures b == Leaf(E, t, d)
  {
    hide Measure, Little, Convert, Compatible;
    b := None;
    match d {
      case Const(cts, v) =>
        if t.Num? && Compatible(t.ts, cts, v) {
          var s := NumberBytes(Convert(t.ts, cts, v), NumSize(t.ts));
          b := Some(s);
        } else if t.Ptr? && cts == Int && v == 0 {
          var s := NumberBytes(0, 4);
          b := Some(s);
        }
      case FloatBits(bits) =>
        if t.Float? { var s := NumberBytes(bits, 4); b := Some(s); }
      case DoubleBits(bits) =>
        if t.Double? { var s := NumberBytes(bits, 8); b := Some(s); }
      case Vector(data) =>
        if t.V128? && |data| == 16 { b := Some(data); }
      case Chars(wide, data) =>
        if t.Array? { b := LiteralBytes(E, t, wide, data); }
      case Display(_) =>
    }
  }

  method Copy(data: array<byte>, off: nat, s: seq<byte>)
    requires off + |s| <= data.Length
    modifies data
    ensures data[off..off + |s|] == s
    ensures forall x :: 0 <= x < data.Length && !(off <= x < off + |s|) ==> data[x] == old(data[x])
  {
    var k := 0;
    while k < |s|
      invariant 0 <= k <= |s| && forall j :: 0 <= j < k ==> data[off + j] == s[j]
      invariant forall x :: 0 <= x < data.Length && !(off <= x < off + |s|) ==> data[x] == old(data[x])
    {
      data[off + k] := s[k];
      k := k + 1;
    }
  }

  lemma LeafHolds(E: Env, t: Type, d: Init, mem: seq<byte>, off: nat)
    requires Typed(d) && !d.Display? && Leaf(E, t, d).Some? && off + |Leaf(E, t, d).value| <= |mem|
    requires mem[off..off + |Leaf(E, t, d).value|] == Leaf(E, t, d).value
    ensures Accepts(E, t, d) && Holds(E, t, d, mem, off)
  {
    hide Leaf, Part, CountOk;
  }

  lemma LeafTouches(E: Env, t: Type, d: Init, x: int)
    requires Typed(d) && !d.Display? && Leaf(E, t, d).Some? && 0 <= x < |Leaf(E, t, d).value|
    ensures Touches(E, t, d, x)
  {
    hide Leaf, Part, CountOk;
  }

  lemma LeafDone(E: Env, t: Type, d: Init, was: seq<byte>, mem: seq<byte>, off: nat)
    requires Typed(d) && !d.Display? && Leaf(E, t, d).Some? && |mem| == |was| && off + |Leaf(E, t, d).value| <= |mem|
    requires mem[off..off + |Leaf(E, t, d).value|] == Leaf(E, t, d).value
    requires forall x :: 0 <= x < |mem| && !(off <= x < off + |Leaf(E, t, d).value|) ==> mem[x] == was[x]
    ensures Initialized(E, t, d, was, mem, off)
  {
    hide Leaf, Touches, Holds, Accepts;
    LeafHolds(E, t, d, mem, off);
    forall x | 0 <= x < |mem| && !Touches(E, t, d, x - off)
      ensures mem[x] == was[x]
    {
      if off <= x < off + |Leaf(E, t, d).value| { LeafTouches(E, t, d, x - off); }
    }
  }

  /** `initialize_bulk_data`: the bytes of every leaf go to its own place and nothing else changes; a failure is
      an error exit. */
  method Initialize(E: Env, data: array<byte>, off: nat, t: Type, d: Init) returns (ok: bool)
    requires Typed(d) && Named(E, t, d) && Measure(E, t, 0).Some? && off + Measure(E, t, 0).value.size <= data.Length
    modifies data
    ensures ok <==> Accepts(E, t, d)
    ensures ok ==> Initialized(E, t, d, old(data[..]), data[..], off)
    decreases d, 1
  {
    hide Measure, Leaf, Part, CountOk, Named, Initialized, Typed;
    if d.Display? {
      match t {
        case Array(elem, count) => ok := InitArray(E, data, off, t, d);
        case Struct(tag, fields) => ok := InitStruct(E, data, off, t, d);
        case Union(tag, fields) => ok := InitUnion(E, data, off, t, d);
        case _ =>
          NoList(E, t, |d.items|);
          ok := false;
      }
    } else {
      var b := LeafBytes(E, t, d);
      if b.None? { return false; }
      LeafFits(E, t, d);
      ghost var was := data[..];
      Copy(data, off, b.value);
      LeafDone(E, t, d, was, data[..], off);
      ok := true;
    }
  }

  lemma NoList(E: Env, t: Type, n: nat)
    requires !t.Array? && !t.Struct? && !t.Union?
    ensures !CountOk(E, t, n)
  {}

  method InitArray(E: Env, data: array<byte>, off: nat, t: Type, d: Init) returns (ok: bool)
    requires t.Array? && d.Display? && Typed(d) && Named(E, t, d)
    requires Measure(E, t, 0).Some? && off + Measure(E, t, 0).value.size <= data.Length
    modifies data
    ensures ok <==> Accepts(E, t, d)
    ensures ok ==> Initialized(E, t, d, old(data[..]), data[..], off)
    decreases d, 0
  {
    hide Measure, Part, CountOk, Named, Initialized, Filled, Leaf, Typed;
    ghost var was := data[..];
    var asize := MeasureType(E, t, 0);
    var size := MeasureType(E, t.elem, 0);
    ElemMeasured(E, t);
    FillNone(E, t, d, was, off);
    var offi: nat, j := 0, 0;
    while j < |d.items|
      invariant 0 <= j <= |d.items| && offi == j * size.value.size
      invariant j > 0 ==> (j - 1) * size.value.size < asize.value.size
      invariant CountOk(E, t, |d.items|) ==> Filled(E, t, d, was, data[..], off, j)
    {
      if offi >= asize.value.size {
        ArrayTooLong(E, t, j, |d.items|);
        return false;
      }
      ArrayCount(E, t, j + 1);
      ArrayParts(E, t, j + 1, j);
      ArrayPart(E, t, j);
      NamedPart(E, t, d, j);
      ghost var mem := data[..];
      var one := Initialize(E, data, off + offi, t.elem, d.items[j]);
      if !one { return false; }
      if CountOk(E, t, |d.items|) { FillStep(E, t, d, was, mem, data[..], off, j); }
      j, offi := j + 1, offi + size.value.size;
    }
    ArrayCount(E, t, j);
    FillDone(E, t, d, was, data[..], off);
    InitializedAccepts(E, t, d, was, data[..], off);
    ok := true;
  }

  lemma InitializedAccepts(E: Env, t: Type, d: Init, was: seq<byte>, mem: seq<byte>, off: nat)
    requires Typed(d) && Initialized(E, t, d, was, mem, off)
    ensures Accepts(E, t, d)
  {}

  lemma ElemMeasured(E: Env, t: Type)
    requires t.Array? && Measure(E, t, 0).Some?
    ensures Measure(E, t.elem, 0).Some?
  {
    LevelLower(E, t.elem, 1, 0);
  }

  lemma ArrayCount(E: Env, t: Type, n: nat)
    requires t.Array? && Measure(E, t, 0).Some? && Measure(E, t.elem, 0).Some?
    ensures CountOk(E, t, n) <==> n == 0 || (n - 1) * Measure(E, t.elem, 0).value.size < Measure(E, t, 0).value.size
  {
    hide Measure;
  }

  lemma ArrayPart(E: Env, t: Type, i: nat)
    requires t.Array? && Measure(E, t.elem, 0).Some?
    ensures Part(E, t, i) == Some((i * Measure(E, t.elem, 0).value.size, t.elem))
  {
    hide Measure;
  }

  lemma ArrayTooLong(E: Env, t: Type, j: nat, n: nat)
    requires t.Array? && Measure(E, t, 0).Some? && Measure(E, t.elem, 0).Some? && j < n
    requires j * Measure(E, t.elem, 0).value.size >= Measure(E, t, 0).value.size
    ensures !CountOk(E, t, n)
  {
    hide Measure, CountOk;
    ArrayCount(E, t, n);
    MulLess(j, n - 1, Measure(E, t.elem, 0).value.size);
  }

  lemma NamedPart(E: Env, t: Type, d: Init, i: nat)
    requires d.Display? && Typed(d) && Named(E, t, d) && i < |d.items|
    ensures Typed(d.items[i]) && (Part(E, t, i).Some? ==> Named(E, Part(E, t, i).value.1, d.items[i]))
  {
    hide Part, Distinct;
  }

  method InitStruct(E: Env, data: array<byte>, off: nat, t: Type, d: Init) returns (ok: bool)
    requires t.Struct? && d.Display? && Typed(d) && Named(E, t, d)
    requires Measure(E, t, 0).Some? && off + Measure(E, t, 0).value.size <= data.Length
    modifies data
    ensures ok <==> Accepts(E, t, d)
    ensures ok ==> Initialized(E, t, d, old(data[..]), data[..], off)
    decreases d, 0
  {
    hide Measure, Part, CountOk, Named, Initialized, Filled, Leaf, Typed, OffsetOf, Distinct;
    ghost var was := data[..];
    StructMembers(E, t, d);
    var fs := Members(E.structs, t.tag, t.fields).value;
    FillNone(E, t, d, was, off);
    var i := 0;
    while i < |fs|
      invariant 0 <= i <= |fs| && i <= |d.items|
      invariant CountOk(E, t, |d.items|) ==> Filled(E, t, d, was, data[..], off, i)
    {
      StructParts(E, t, |fs|, i);
      StructPart(E, t, i);
      var place := MeasureOffset(E, t, fs[i].name);
      if i >= |d.items| { return false; }
      NamedPart(E, t, d, i);
      ghost var mem := data[..];
      var one := Initialize(E, data, off + place.value.0, place.value.1, d.items[i]);
      if !one { return false; }
      if CountOk(E, t, |d.items|) { FillStep(E, t, d, was, mem, data[..], off, i); }
      i := i + 1;
    }
    if |d.items| != |fs| { return false; }
    FillDone(E, t, d, was, data[..], off);
    InitializedAccepts(E, t, d, was, data[..], off);
    ok := true;
  }

  lemma StructMembers(E: Env, t: Type, d: Init)
    requires t.Struct? && Measure(E, t, 0).Some? && Named(E, t, d) && d.Display?
    ensures Members(E.structs, t.tag, t.fields).Some?
    ensures var fs := Members(E.structs, t.tag, t.fields).value;
            Distinct(fs) && forall n: nat :: CountOk(E, t, n) <==> n == |fs|
  {
    hide Distinct, Part;
  }

  lemma StructPart(E: Env, t: Type, i: nat)
    requires t.Struct? && Members(E.structs, t.tag, t.fields).Some? && i < |Members(E.structs, t.tag, t.fields).value|
    ensures Part(E, t, i) == OffsetOf(E, t, Members(E.structs, t.tag, t.fields).value[i].name)
  {
    hide OffsetOf;
  }

  /** A union takes its first item and then always finds the list to have the wrong length. */
  method InitUnion(E: Env, data: array<byte>, off: nat, t: Type, d: Init) returns (ok: bool)
    requires t.Union? && d.Display? && Typed(d) && Named(E, t, d)
    requires Measure(E, t, 0).Some? && off + Measure(E, t, 0).value.size <= data.Length
    modifies data
    ensures !ok && !Accepts(E, t, d)
    decreases d, 0
  {
    hide Measure, Part, Named, Initialized, Leaf, Typed, OffsetOf;
    UnionNeverAccepted(E, t, d, 0);
    UnionFirst(E, t, 0);
    var fs := Members(E.unions, t.tag, t.fields).value;
    var j := 1;
    var place := MeasureOffset(E, t, fs[0].name);
    if j >= |d.items| + 1 { return false; }
    NamedPart(E, t, d, 0);
    var one := Initialize(E, data, off + place.value.0, place.value.1, d.items[0]);
    if !one { return false; }
    ok := j == |d.items| + 1;
  }

  lemma UnionFirst(E: Env, t: Type, lvl: nat)
    requires t.Union? && Measure(E, t, lvl).Some?
    ensures Members(E.unions, t.tag, t.fields).Some? && |Members(E.unions, t.tag, t.fields).value| > 0
    ensures var f := Members(E.unions, t.tag, t.fields).value[0];
            && OffsetOf(E, t, f.name) == Some((0, f.ftype)) && Part(E, t, 0) == Some((0, f.ftype))
            && Measure(E, f.ftype, 0).Some? && Measure(E, f.ftype, 0).value.size <= Measure(E, t, lvl).value.size
  {
    UnionInside(E, t, lvl, 0);
  }

  /** A new bulk variable: zero bytes, then the initializer. */
  method NewBulk(E: Env, t: Type, d: Init) returns (ok: bool, data: seq<byte>)
    requires Typed(d) && Named(E, t, d)
    ensures ok <==> Measure(E, t, 0).Some? && Accepts(E, t, d)
    ensures ok ==> |data| == Measure(E, t, 0).value.size && Holds(E, t, d, data, 0)
    ensures ok ==> forall x :: 0 <= x < |data| && !Touches(E, t, d, x) ==> data[x] == 0
  {
    hide Measure, Accepts, Holds, Touches, Typed, Named;
    data := [];
    var b := MeasureType(E, t, 0);
    if b.None? { return false, []; }
    var buf := new byte[b.value.size](_ => 0);
    ok := Initialize(E, buf, 0, t, d);
    data := buf[..];
  }
}
