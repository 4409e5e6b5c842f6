/** Sizes, alignments and field offsets of C types under the wasm32 model. */
module Layout {
  import opened IntTypes

  datatype Option<T> = None | Some(value: T)

  /** Enumerations are laid out as `Int`; `Text` and `WText` are string literal types; symbol 0 is no name. */
  datatype Type =
    | Void | Etc | Function
    | V128 | Num(ts: TS) | Float | Double | Ptr | Text | WText
    | Struct(tag: nat, fields: seq<Field>)
    | Union(tag: nat, fields: seq<Field>)
    | Array(elem: Type, count: Option<int>)

  datatype Field = Field(name: nat, ftype: Type)

  /** The complete structure and union types declared so far, by tag. */
  datatype Env = Env(structs: map<nat, seq<Field>>, unions: map<nat, seq<Field>>)

  datatype Box = Box(size: nat, align: nat)

  predicate AlignOk(a: nat) { a == 1 || a == 2 || a == 4 || a == 8 || a == 16 }

  /** Sizes on the way may be empty or unpadded; a finished type is neither. */
  predicate Sound(b: Box) { AlignOk(b.align) && b.size > 0 && b.size % b.align == 0 }

  function RoundUp(s: nat, a: nat): (r: nat)
    requires a > 0
    ensures s <= r < s + a
  {
    if s % a > 0 then s + (a - s % a) else s
  }

  /** The members of a structure or union, looked up by tag when the type is given by its tag alone. */
  function Members(decls: map<nat, seq<Field>>, tag: nat, fields: seq<Field>): Option<seq<Field>> {
    if tag != 0 && fields == [] then (if tag in decls then Some(decls[tag]) else None) else Some(fields)
  }

  function NumSize(ts: TS): (n: nat)
    ensures (n == 1 || n == 2 || n == 4 || n == 8) && AlignOk(n)
  {
    match ts
    case Bool => 1
    case Char => 1
    case UChar => 1
    case Short => 2
    case UShort => 2
    case LLong => 8
    case ULLong => 8
    case _ => 4
  }

  function Finished(b: Box): (r: Option<Box>)
    requires b.align == 0 || AlignOk(b.align)
    ensures r.Some? ==> Sound(r.value) && b.size <= r.value.size && r.value.align == b.align
  {
    if b.size == 0 || b.align == 0 then None
    else
      RoundUpIs(b.size, b.align);
      Some(Box(RoundUp(b.size, b.align), b.align))
  }

  lemma RoundUpIs(s: nat, a: nat)
    requires AlignOk(a)
    ensures RoundUp(s, a) % a == 0
  {}

  /** The size and alignment of a type; no result is an error exit, as for types nested more than 100 deep. */
  function Measure(E: Env, t: Type, lvl: nat): (r: Option<Box>)
    ensures r.Some? ==> Sound(r.value)
    decreases 101 - lvl, 1, 0
  {
    if lvl > 100 then None
    else match t
      case V128 => Some(Box(16, 16))
      case Num(ts) => Some(Box(NumSize(ts), NumSize(ts)))
      case Float => Some(Box(4, 4))
      case Double => Some(Box(8, 8))
      case Ptr => Some(Box(4, 4))
      case Text => Some(Box(4, 4))
      case WText => Some(Box(4, 4))
      case Union(tag, fields) =>
        var fs := Members(E.unions, tag, fields);
        if fs.None? then None
        else
          var b := UnionUpTo(E, fs.value, |fs.value|, lvl + 1);
          if b.None? then None else Finished(b.value)
      case Struct(tag, fields) =>
        var fs := Members(E.structs, tag, fields);
        if fs.None? then None
        else
          var b := StructUpTo(E, fs.value, |fs.value|, lvl + 1);
          if b.None? then None else Finished(b.value)
      case Array(elem, count) =>
        if count.None? || count.value <= 0 then None
        else
          var b := Measure(E, elem, lvl + 1);
          if b.None? then None
          else
            MultipleOf(b.value.size, count.value, b.value.align);
            Some(Box(b.value.size * count.value, b.value.align))
      case _ => None
  }

  /** The running layout of the first `n` members of a structure, at nesting level `lvl`. */
  function StructUpTo(E: Env, fs: seq<Field>, n: nat, lvl: nat): (r: Option<Box>)
    requires n <= |fs|
    ensures r.Some? ==> r.value.align == 0 || AlignOk(r.value.align)
    decreases 101 - lvl, 2, n
  {
    if n == 0 then Some(Box(0, 0))
    else
      var b, f := StructUpTo(E, fs, n - 1, lvl), Measure(E, fs[n - 1].ftype, lvl);
      if b.None? || f.None? then None
      else Some(Box(RoundUp(b.value.size, f.value.align) + f.value.size, Max(b.value.align, f.value.align)))
  }

  function UnionUpTo(E: Env, fs: seq<Field>, n: nat, lvl: nat): (r: Option<Box>)
    requires n <= |fs|
    ensures r.Some? ==> r.value.align == 0 || AlignOk(r.value.align)
    decreases 101 - lvl, 2, n
  {
    if n == 0 then Some(Box(0, 0))
    else
      var b, f := UnionUpTo(E, fs, n - 1, lvl), Measure(E, fs[n - 1].ftype, lvl);
      if b.None? || f.None? then None
      else Some(Box(Max(b.value.size, f.value.size), Max(b.value.align, f.value.align)))
  }

  function Max(x: nat, y: nat): nat { if y > x then y else x }

  lemma {:induction false} MultipleOf(s: nat, c: nat, a: nat)
    requires AlignOk(a) && s % a == 0 && s > 0 && c > 0
    ensures s * c > 0 && (s * c) % a == 0
  {
    if c > 1 {
      MultipleOf(s, c - 1, a);
      assert s * c == s * (c - 1) + s;
      hide *;
      SumMultiple(s * (c - 1), s, a);
    }
  }

  lemma SumMultiple(x: nat, y: nat, a: nat)
    requires AlignOk(a) && x % a == 0 && y % a == 0
    ensures (x + y) % a == 0
  {}

  // ---------- where members are ----------

  /** The offset of member `i`: the end of the members before it, rounded up to its alignment. */
  function Offset(E: Env, fs: seq<Field>, i: nat): (r: Option<nat>)
    requires i < |fs|
  {
    var b, f := StructUpTo(E, fs, i, 0), Measure(E, fs[i].ftype, 0);
    if b.None? || f.None? then None else Some(RoundUp(b.value.size, f.value.align))
  }

  /** A type that can be measured at some nesting level measures the same nearer the top. */
  lemma {:induction false} LevelLower(E: Env, t: Type, lvl: nat, k: nat)
    requires k <= lvl && Measure(E, t, lvl).Some?
    ensures Measure(E, t, k) == Measure(E, t, lvl)
    decreases 101 - lvl, 1, 0
  {
    hide Finished, RoundUp;
    match t
    case Union(tag, fields) =>
      var fs := Members(E.unions, tag, fields).value;
      UnionLower(E, fs, |fs|, lvl + 1, k + 1);
    case Struct(tag, fields) =>
      var fs := Members(E.structs, tag, fields).value;
      StructLower(E, fs, |fs|, lvl + 1, k + 1);
    case Array(elem, count) =>
      LevelLower(E, elem, lvl + 1, k + 1);
    case _ =>
  }

  lemma {:induction false} StructLower(E: Env, fs: seq<Field>, n: nat, lvl: nat, k: nat)
    requires k <= lvl && n <= |fs| && StructUpTo(E, fs, n, lvl).Some?
    ensures StructUpTo(E, fs, n, k) == StructUpTo(E, fs, n, lvl)
    decreases 101 - lvl, 2, n
  {
    hide RoundUp, Max;
    if n > 0 {
      StructLower(E, fs, n - 1, lvl, k);
      LevelLower(E, fs[n - 1].ftype, lvl, k);
    }
  }

  lemma {:induction false} UnionLower(E: Env, fs: seq<Field>, n: nat, lvl: nat, k: nat)
    requires k <= lvl && n <= |fs| && UnionUpTo(E, fs, n, lvl).Some?
    ensures UnionUpTo(E, fs, n, k) == UnionUpTo(E, fs, n, lvl)
    decreases 101 - lvl, 2, n
  {
    hide Max;
    if n > 0 {
      UnionLower(E, fs, n - 1, lvl, k);
      LevelLower(E, fs[n - 1].ftype, lvl, k);
    }
  }

  /** Members lie one after another, each at the first aligned place after the one before. */
  lemma {:induction false} OffsetsAscend(E: Env, fs: seq<Field>, i: nat, n: nat)
    requires i < n <= |fs| && StructUpTo(E, fs, n, 0).Some?
    ensures Offset(E, fs, i).Some? && Measure(E, fs[i].ftype, 0).Some?
    ensures var o, m, b := Offset(E, fs, i).value, Measure(E, fs[i].ftype, 0).value, StructUpTo(E, fs, n, 0).value;
            o % m.align == 0 && o + m.size <= b.size && m.align <= b.align
    ensures n < |fs| && Offset(E, fs, n).Some? ==>
            Offset(E, fs, i).value + Measure(E, fs[i].ftype, 0).value.size <= Offset(E, fs, n).value
    decreases n
  {
    var m := Measure(E, fs[n - 1].ftype, 0).value;
    var b := StructUpTo(E, fs, n - 1, 0).value;
    RoundUpIs(b.size, m.align);
    hide RoundUp, Measure;
    if i < n - 1 { OffsetsAscend(E, fs, i, n - 1); }
  }

  /** No smaller offset past the members before would be aligned. */
  lemma OffsetLeast(E: Env, fs: seq<Field>, i: nat, o: nat)
    requires i < |fs| && Offset(E, fs, i).Some? && StructUpTo(E, fs, i, 0).value.size <= o
    requires o % Measure(E, fs[i].ftype, 0).value.align == 0
    ensures Offset(E, fs, i).value <= o
  {
    var s, a := StructUpTo(E, fs, i, 0).value.size, Measure(E, fs[i].ftype, 0).value.align;
    assert AlignOk(a);
    hide Measure, StructUpTo;
    RoundUpLeast(s, a, o);
  }

  lemma RoundUpLeast(s: nat, a: nat, o: nat)
    requires AlignOk(a) && s <= o && o % a == 0
    ensures RoundUp(s, a) <= o
  {}

  /** Every member of a measurable structure is inside it, aligned, and clear of the others. */
  lemma MembersInside(E: Env, t: Type, lvl: nat, i: nat)
    requires t.Struct? && Measure(E, t, lvl).Some?
    ensures Members(E.structs, t.tag, t.fields).Some?
    ensures var fs := Members(E.structs, t.tag, t.fields).value; i < |fs| ==>
            && Offset(E, fs, i).Some? && Measure(E, fs[i].ftype, 0).Some?
            && var o, m, b := Offset(E, fs, i).value, Measure(E, fs[i].ftype, 0).value, Measure(E, t, lvl).value;
               && o % m.align == 0 && o + m.size <= b.size && b.align % m.align == 0
               && forall j :: i < j < |fs| ==> Offset(E, fs, j).Some? && o + m.size <= Offset(E, fs, j).value
  {
    var fs := Members(E.structs, t.tag, t.fields).value;
    var b := StructUpTo(E, fs, |fs|, lvl + 1).value;
    StructLower(E, fs, |fs|, lvl + 1, 0);
    if i < |fs| {
      OffsetsAscend(E, fs, i, |fs|);
      assert b.size <= Measure(E, t, lvl).value.size && b.align == Measure(E, t, lvl).value.align;
      AlignDivides(Measure(E, fs[i].ftype, 0).value.align, b.align);
      hide Measure, StructUpTo, Offset, RoundUp;
      forall j | i < j < |fs|
        ensures Offset(E, fs, j).Some? && Offset(E, fs, i).value + Measure(E, fs[i].ftype, 0).value.size <= Offset(E, fs, j).value
      {
        OffsetsAscend(E, fs, j, |fs|);
        StructPrefix(E, fs, j, |fs|);
        OffsetsAscend(E, fs, i, j);
      }
    }
  }

  lemma AlignDivides(a: nat, b: nat)
    requires AlignOk(a) && AlignOk(b) && a <= b
    ensures b % a == 0
  {}

  lemma {:induction false} StructPrefix(E: Env, fs: seq<Field>, i: nat, n: nat)
    requires i <= n <= |fs| && StructUpTo(E, fs, n, 0).Some?
    ensures StructUpTo(E, fs, i, 0).Some?
    decreases n
  {
    hide Measure, RoundUp;
    if i < n { StructPrefix(E, fs, i, n - 1); }
  }

  // ---------- finding a member ----------

  /** The search for member `name` from index `i` on, `size` bytes into the structure. */
  function FindMember(E: Env, fs: seq<Field>, name: nat, i: nat, size: nat): Option<(nat, Type)>
    requires i <= |fs|
    decreases |fs| - i
  {
    if i == |fs| then None
    else
      var f := Measure(E, fs[i].ftype, 0);
      if f.None? then None
      else
        var o := RoundUp(size, f.value.align);
        if fs[i].name == name then Some((o, fs[i].ftype)) else FindMember(E, fs, name, i + 1, o + f.value.size)
  }

  function FindUnion(fs: seq<Field>, name: nat, i: nat): Option<(nat, Type)>
    requires i <= |fs|
    decreases |fs| - i
  {
    if i == |fs| then None else if fs[i].name == name then Some((0, fs[i].ftype)) else FindUnion(fs, name, i + 1)
  }

  /** The offset and type of a member; no result is an error exit. */
  function OffsetOf(E: Env, t: Type, name: nat): Option<(nat, Type)> {
    if t.Union? then
      var fs := Members(E.unions, t.tag, t.fields);
      if fs.None? then None else FindUnion(fs.value, name, 0)
    else if t.Struct? then
      var fs := Members(E.structs, t.tag, t.fields);
      if fs.None? then None else FindMember(E, fs.value, name, 0, 0)
    else None
  }

  ghost predicate FirstNamed(fs: seq<Field>, name: nat, k: nat) {
    k < |fs| && fs[k].name == name && forall j :: 0 <= j < k ==> fs[j].name != name
  }

  lemma {:induction false} FindsFirst(E: Env, fs: seq<Field>, name: nat, i: nat, size: nat, k: nat)
    requires i <= k && FirstNamed(fs, name, k) && StructUpTo(E, fs, |fs|, 0).Some?
    requires StructUpTo(E, fs, i, 0).Some? && size == StructUpTo(E, fs, i, 0).value.size
    ensures Offset(E, fs, k).Some? && FindMember(E, fs, name, i, size) == Some((Offset(E, fs, k).value, fs[k].ftype))
    decreases k - i
  {
    hide Measure, RoundUp, StructUpTo, Offset;
    StructPrefix(E, fs, i + 1, |fs|);
    StructStep(E, fs, i);
    if i < k { FindsFirst(E, fs, name, i + 1, StructUpTo(E, fs, i + 1, 0).value.size, k); }
  }

  lemma StructStep(E: Env, fs: seq<Field>, i: nat)
    requires i < |fs| && StructUpTo(E, fs, i + 1, 0).Some?
    ensures StructUpTo(E, fs, i, 0).Some? && Offset(E, fs, i).Some? && Measure(E, fs[i].ftype, 0).Some?
    ensures var o, m := Offset(E, fs, i).value, Measure(E, fs[i].ftype, 0).value;
            o == RoundUp(StructUpTo(E, fs, i, 0).value.size, m.align) && StructUpTo(E, fs, i + 1, 0).value.size == o + m.size
  {
    hide Measure, RoundUp;
  }

  lemma {:induction false} FindsNone(E: Env, fs: seq<Field>, name: nat, i: nat, size: nat)
    requires i <= |fs| && forall j :: i <= j < |fs| ==> fs[j].name != name
    ensures FindMember(E, fs, name, i, size).None?
    decreases |fs| - i
  {
    hide Measure, RoundUp;
    if i < |fs| && Measure(E, fs[i].ftype, 0).Some? {
      var f := Measure(E, fs[i].ftype, 0).value;
      FindsNone(E, fs, name, i + 1, RoundUp(size, f.align) + f.size);
    }
  }

  /** The two layout functions agree: `measure_offset` gives a member the place `measure_type` left for it, and
      fails exactly on names that no member has. */
  lemma OffsetAgrees(E: Env, t: Type, lvl: nat, name: nat)
    requires t.Struct? && Measure(E, t, lvl).Some?
    ensures Members(E.structs, t.tag, t.fields).Some?
    ensures var fs := Members(E.structs, t.tag, t.fields).value;
            && (forall k: nat :: FirstNamed(fs, name, k) ==>
                  Offset(E, fs, k).Some? && OffsetOf(E, t, name) == Some((Offset(E, fs, k).value, fs[k].ftype)))
            && (OffsetOf(E, t, name).None? <==> forall j :: 0 <= j < |fs| ==> fs[j].name != name)
  {
    var fs := Members(E.structs, t.tag, t.fields).value;
    StructLower(E, fs, |fs|, lvl + 1, 0);
    assert StructUpTo(E, fs, 0, 0) == Some(Box(0, 0));
    hide Measure, StructUpTo, Offset, FindMember;
    forall k: nat | FirstNamed(fs, name, k)
      ensures Offset(E, fs, k).Some? && OffsetOf(E, t, name) == Some((Offset(E, fs, k).value, fs[k].ftype))
    {
      FindsFirst(E, fs, name, 0, 0, k);
    }
    if j :| 0 <= j < |fs| && fs[j].name == name {
      var k := FirstIndex(fs, name, j);
    } else {
      FindsNone(E, fs, name, 0, 0);
    }
  }

  ghost function FirstIndex(fs: seq<Field>, name: nat, j: nat): (k: nat)
    requires j < |fs| && fs[j].name == name
    ensures FirstNamed(fs, name, k)
  {
    if i :| 0 <= i < j && fs[i].name == name then FirstIndex(fs, name, i) else j
  }

  // ---------- unions ----------

  lemma {:induction false} UnionHolds(E: Env, fs: seq<Field>, i: nat, n: nat, lvl: nat)
    requires i < n <= |fs| && UnionUpTo(E, fs, n, lvl).Some?
    ensures Measure(E, fs[i].ftype, lvl).Some?
    ensures var m, b := Measure(E, fs[i].ftype, lvl).value, UnionUpTo(E, fs, n, lvl).value; m.size <= b.size && m.align <= b.align
    decreases n
  {
    hide Measure;
    if i < n - 1 { UnionHolds(E, fs, i, n - 1, lvl); }
  }

  /** A union is large enough and aligned enough for every member; all of them start at 0. */
  lemma UnionInside(E: Env, t: Type, lvl: nat, i: nat)
    requires t.Union? && Measure(E, t, lvl).Some?
    ensures Members(E.unions, t.tag, t.fields).Some?
    ensures var fs := Members(E.unions, t.tag, t.fields).value; i < |fs| ==>
            && Measure(E, fs[i].ftype, 0).Some?
            && var m, b := Measure(E, fs[i].ftype, 0).value, Measure(E, t, lvl).value; m.size <= b.size && b.align % m.align == 0
  {
    var fs := Members(E.unions, t.tag, t.fields).value;
    var b := UnionUpTo(E, fs, |fs|, lvl + 1).value;
    if i < |fs| {
      UnionHolds(E, fs, i, |fs|, lvl + 1);
      LevelLower(E, fs[i].ftype, lvl + 1, 0);
      AlignDivides(Measure(E, fs[i].ftype, 0).value.align, b.align);
    }
  }

  // ---------- sizes ----------

  /** `s` is the first multiple of `a` at or past `end`. */
  ghost predicate FirstMultiple(s: nat, a: nat, end: nat) {
    a > 0 && s >= end && s % a == 0 && forall n: nat {:trigger n % a} :: n >= end && n % a == 0 ==> s <= n
  }

  lemma RoundUpFirst(s: nat, a: nat)
    requires AlignOk(a)
    ensures FirstMultiple(RoundUp(s, a), a, s)
  {
    RoundUpIs(s, a);
    hide RoundUp;
    forall n: nat | n >= s && n % a == 0
      ensures RoundUp(s, a) <= n
    {
      RoundUpLeast(s, a, n);
    }
  }

  /** Types that have no members. */
  lemma ScalarSizes(E: Env, lvl: nat)
    requires lvl <= 100
    ensures forall ts :: ts in {Bool, Char, UChar} ==> Measure(E, Num(ts), lvl) == Some(Box(1, 1))
    ensures forall ts :: ts in {Short, UShort} ==> Measure(E, Num(ts), lvl) == Some(Box(2, 2))
    ensures forall ts :: ts in {Int, UInt, Long, ULong} ==> Measure(E, Num(ts), lvl) == Some(Box(4, 4))
    ensures forall ts :: ts in {LLong, ULLong} ==> Measure(E, Num(ts), lvl) == Some(Box(8, 8))
    ensures Measure(E, Float, lvl) == Measure(E, Ptr, lvl) == Measure(E, Text, lvl) == Measure(E, WText, lvl) == Some(Box(4, 4))
    ensures Measure(E, Double, lvl) == Some(Box(8, 8)) && Measure(E, V128, lvl) == Some(Box(16, 16))
    ensures Measure(E, Void, lvl).None? && Measure(E, Etc, lvl).None? && Measure(E, Function, lvl).None?
  {}

  /** A structure or union given by its tag alone is laid out as it was declared, one with members as if it had no tag. */
  lemma ByTag(E: Env, tag: nat, fields: seq<Field>, lvl: nat, name: nat)
    ensures var s, u := Struct(tag, fields), Union(tag, fields);
            if tag == 0 || fields != [] then
              && Measure(E, s, lvl) == Measure(E, Struct(0, fields), lvl) && OffsetOf(E, s, name) == OffsetOf(E, Struct(0, fields), name)
              && Measure(E, u, lvl) == Measure(E, Union(0, fields), lvl) && OffsetOf(E, u, name) == OffsetOf(E, Union(0, fields), name)
            else
              && (tag !in E.structs ==> Measure(E, s, lvl).None? && OffsetOf(E, s, name).None?)
              && (tag in E.structs ==> Measure(E, s, lvl) == Measure(E, Struct(0, E.structs[tag]), lvl)
                                       && OffsetOf(E, s, name) == OffsetOf(E, Struct(0, E.structs[tag]), name))
              && (tag !in E.unions ==> Measure(E, u, lvl).None? && OffsetOf(E, u, name).None?)
              && (tag in E.unions ==> Measure(E, u, lvl) == Measure(E, Union(0, E.unions[tag]), lvl)
                                      && OffsetOf(E, u, name) == OffsetOf(E, Union(0, E.unions[tag]), name))
  {
    hide Finished, FindMember, FindUnion, StructUpTo, UnionUpTo;
  }

  /** An array can be measured when its length is positive and its elements can be; it is as large as all of them. */
  lemma ArraySize(E: Env, elem: Type, count: Option<int>, lvl: nat)
    ensures var r, e := Measure(E, Array(elem, count), lvl), Measure(E, elem, lvl + 1);
            && (r.Some? <==> count.Some? && count.value > 0 && e.Some?)
            && (r.Some? ==> r.value == Box(count.value * e.value.size, e.value.align))
  {
    hide Finished;
    TooDeep(E, elem, lvl + 1);
  }

  lemma TooDeep(E: Env, t: Type, lvl: nat)
    ensures lvl > 100 ==> Measure(E, t, lvl).None?
  {}

  /** Members that can all be measured. */
  ghost predicate AllMeasured(E: Env, fs: seq<Field>, n: nat, lvl: nat)
    requires n <= |fs|
  {
    forall i :: 0 <= i < n ==> Measure(E, fs[i].ftype, lvl).Some?
  }

  /** The alignment of one of the members, which is a multiple of every member's. */
  ghost predicate CommonAlign(E: Env, fs: seq<Field>, n: nat, lvl: nat, a: nat)
    requires n <= |fs| && AllMeasured(E, fs, n, lvl)
  {
    && (exists i :: 0 <= i < n && Measure(E, fs[i].ftype, lvl).value.align == a)
    && forall i :: 0 <= i < n ==> a % Measure(E, fs[i].ftype, lvl).value.align == 0
  }

  lemma OneMoreAlign(E: Env, fs: seq<Field>, n: nat, lvl: nat, a: nat)
    requires n < |fs| && AllMeasured(E, fs, n + 1, lvl)
    requires n > 0 ==> AlignOk(a) && CommonAlign(E, fs, n, lvl, a)
    ensures CommonAlign(E, fs, n + 1, lvl, if n == 0 then Measure(E, fs[0].ftype, lvl).value.align
                                           else Max(a, Measure(E, fs[n].ftype, lvl).value.align))
  {
    hide Measure, AlignOk;
    var m := Measure(E, fs[n].ftype, lvl).value.align;
    SelfDivides(m);
    if n > 0 {
      var b := Max(a, m);
      LargerAlign(a, m);
      forall i | 0 <= i < n
        ensures Measure(E, fs[i].ftype, lvl).value.align > 0 && b % Measure(E, fs[i].ftype, lvl).value.align == 0
      {
        var c := Measure(E, fs[i].ftype, lvl).value.align;
        assert c > 0 by { Positive(c); }
        DividesThrough(c, a, b);
      }
      assert b == m ==> Measure(E, fs[n].ftype, lvl).value.align == b;
    }
  }

  lemma Positive(a: nat)
    requires AlignOk(a)
    ensures a > 0
  {}

  lemma SelfDivides(a: nat)
    requires AlignOk(a)
    ensures a % a == 0
  {}

  lemma LargerAlign(a: nat, m: nat)
    requires AlignOk(a) && AlignOk(m)
    ensures AlignOk(Max(a, m)) && Max(a, m) % a == 0 && Max(a, m) % m == 0 && (Max(a, m) == a || Max(a, m) == m)
  {}

  lemma DividesThrough(c: nat, a: nat, b: nat)
    requires AlignOk(c) && AlignOk(a) && AlignOk(b) && a % c == 0 && b % a == 0
    ensures b % c == 0
  {}

  lemma {:induction false} StructAlign(E: Env, fs: seq<Field>, n: nat, lvl: nat)
    requires n <= |fs|
    ensures StructUpTo(E, fs, n, lvl).Some? <==> AllMeasured(E, fs, n, lvl)
    ensures AllMeasured(E, fs, n, lvl) && n > 0 ==>
              var b := StructUpTo(E, fs, n, lvl).value; b.size > 0 && AlignOk(b.align) && CommonAlign(E, fs, n, lvl, b.align)
    decreases n
  {
    if n > 0 {
      hide Measure, RoundUp, CommonAlign, AlignOk;
      StructAlign(E, fs, n - 1, lvl);
      if AllMeasured(E, fs, n, lvl) {
        OneMoreAlign(E, fs, n - 1, lvl, StructUpTo(E, fs, n - 1, lvl).value.align);
        MaxAlign(StructUpTo(E, fs, n - 1, lvl).value.align, Measure(E, fs[n - 1].ftype, lvl).value.align);
      }
    }
  }

  lemma MaxAlign(a: nat, m: nat)
    requires (a == 0 || AlignOk(a)) && AlignOk(m)
    ensures AlignOk(Max(a, m)) && (a == 0 ==> Max(a, m) == m)
  {}

  lemma {:induction false} UnionAlign(E: Env, fs: seq<Field>, n: nat, lvl: nat)
    requires n <= |fs|
    ensures UnionUpTo(E, fs, n, lvl).Some? <==> AllMeasured(E, fs, n, lvl)
    ensures AllMeasured(E, fs, n, lvl) && n > 0 ==>
              var b := UnionUpTo(E, fs, n, lvl).value; b.size > 0 && AlignOk(b.align) && CommonAlign(E, fs, n, lvl, b.align)
    decreases n
  {
    if n > 0 {
      hide Measure, CommonAlign, AlignOk;
      UnionAlign(E, fs, n - 1, lvl);
      if AllMeasured(E, fs, n, lvl) {
        OneMoreAlign(E, fs, n - 1, lvl, UnionUpTo(E, fs, n - 1, lvl).value.align);
        MaxAlign(UnionUpTo(E, fs, n - 1, lvl).value.align, Measure(E, fs[n - 1].ftype, lvl).value.align);
      }
    }
  }

  lemma {:induction false} UnionFrom(E: Env, fs: seq<Field>, n: nat, lvl: nat)
    requires 0 < n <= |fs| && AllMeasured(E, fs, n, lvl) && UnionUpTo(E, fs, n, lvl).Some?
    ensures exists i :: 0 <= i < n && Measure(E, fs[i].ftype, lvl).value.size == UnionUpTo(E, fs, n, lvl).value.size
    decreases n
  {
    hide Measure;
    if n > 1 { UnionFrom(E, fs, n - 1, lvl); }
  }

  lemma FinishedIs(b: Box)
    requires AlignOk(b.align) && b.size > 0
    ensures Finished(b).Some? && Finished(b).value.align == b.align && FirstMultiple(Finished(b).value.size, b.align, b.size)
  {
    RoundUpFirst(b.size, b.align);
    hide FirstMultiple, RoundUp;
  }

  lemma LastEnd(E: Env, fs: seq<Field>, n: nat, lvl: nat)
    requires 0 < n <= |fs| && StructUpTo(E, fs, n, lvl).Some?
    ensures Offset(E, fs, n - 1).Some? && Measure(E, fs[n - 1].ftype, 0).Some?
    ensures StructUpTo(E, fs, n, lvl).value.size == Offset(E, fs, n - 1).value + Measure(E, fs[n - 1].ftype, 0).value.size
  {
    hide Measure, StructUpTo, Offset;
    StructLower(E, fs, n, lvl, 0);
    StructStep(E, fs, n - 1);
  }

  /** A structure can be measured when it has members and all of them can be. Its alignment is the largest of theirs, and
      its size the first multiple of it past the last member. */
  lemma StructSize(E: Env, t: Type, lvl: nat)
    requires t.Struct? && lvl <= 100
    ensures var r, fs := Measure(E, t, lvl), Members(E.structs, t.tag, t.fields);
            && (r.Some? <==> fs.Some? && fs.value != [] && AllMeasured(E, fs.value, |fs.value|, lvl + 1))
            && (r.Some? ==>
                  var last := |fs.value| - 1;
                  && CommonAlign(E, fs.value, |fs.value|, lvl + 1, r.value.align)
                  && Offset(E, fs.value, last).Some? && Measure(E, fs.value[last].ftype, 0).Some?
                  && FirstMultiple(r.value.size, r.value.align,
                                   Offset(E, fs.value, last).value + Measure(E, fs.value[last].ftype, 0).value.size))
  {
    var m := Members(E.structs, t.tag, t.fields);
    if m.Some? {
      var fs, n := m.value, |m.value|;
      StructAlign(E, fs, n, lvl + 1);
      assert n == 0 ==> Finished(Box(0, 0)).None?;
      hide FirstMultiple, Offset, StructUpTo, CommonAlign, AlignOk, Finished;
      if n > 0 && AllMeasured(E, fs, n, lvl + 1) {
        FinishedIs(StructUpTo(E, fs, n, lvl + 1).value);
        LastEnd(E, fs, n, lvl + 1);
      }
    }
  }

  ghost predicate LargestSize(E: Env, fs: seq<Field>, lvl: nat, s: nat)
    requires AllMeasured(E, fs, |fs|, lvl)
  {
    && (exists i :: 0 <= i < |fs| && Measure(E, fs[i].ftype, lvl).value.size == s)
    && forall i :: 0 <= i < |fs| ==> Measure(E, fs[i].ftype, lvl).value.size <= s
  }

  /** Of a union the size is the first multiple of the alignment past the largest member. */
  lemma UnionSize(E: Env, t: Type, lvl: nat)
    requires t.Union? && lvl <= 100
    ensures var r, fs := Measure(E, t, lvl), Members(E.unions, t.tag, t.fields);
            && (r.Some? <==> fs.Some? && fs.value != [] && AllMeasured(E, fs.value, |fs.value|, lvl + 1))
            && (r.Some? ==>
                  && CommonAlign(E, fs.value, |fs.value|, lvl + 1, r.value.align)
                  && exists s :: LargestSize(E, fs.value, lvl + 1, s) && FirstMultiple(r.value.size, r.value.align, s))
  {
    hide AllMeasured, CommonAlign, LargestSize, FirstMultiple, Finished, UnionUpTo;
    var m := Members(E.unions, t.tag, t.fields);
    if m.Some? {
      var fs, n := m.value, |m.value|;
      UnionIs(E, t, lvl, fs);
      UnionAlign(E, fs, n, lvl + 1);
      NothingFinished(E, fs, lvl + 1);
      if n > 0 && AllMeasured(E, fs, n, lvl + 1) {
        FinishedIs(UnionUpTo(E, fs, n, lvl + 1).value);
        LargestIs(E, fs, lvl + 1);
      }
    }
  }

  lemma UnionIs(E: Env, t: Type, lvl: nat, fs: seq<Field>)
    requires t.Union? && lvl <= 100 && Members(E.unions, t.tag, t.fields) == Some(fs)
    ensures var b := UnionUpTo(E, fs, |fs|, lvl + 1); Measure(E, t, lvl) == if b.None? then None else Finished(b.value)
  {
    hide UnionUpTo, Finished, Members;
  }

  lemma NothingFinished(E: Env, fs: seq<Field>, lvl: nat)
    ensures fs == [] ==> UnionUpTo(E, fs, 0, lvl) == Some(Box(0, 0)) && Finished(Box(0, 0)).None?
  {}

  lemma LargestIs(E: Env, fs: seq<Field>, lvl: nat)
    requires fs != [] && AllMeasured(E, fs, |fs|, lvl)
    ensures UnionUpTo(E, fs, |fs|, lvl).Some? && LargestSize(E, fs, lvl, UnionUpTo(E, fs, |fs|, lvl).value.size)
  {
    hide Measure, UnionUpTo;
    UnionAlign(E, fs, |fs|, lvl);
    UnionFrom(E, fs, |fs|, lvl);
    var b := UnionUpTo(E, fs, |fs|, lvl).value;
    forall i | 0 <= i < |fs|
      ensures Measure(E, fs[i].ftype, lvl).value.size <= b.size
    {
      UnionHolds(E, fs, i, |fs|, lvl);
    }
  }

  /** The first member is at the start, every other at the first aligned place past the one before. */
  lemma OffsetFirst(E: Env, fs: seq<Field>, i: nat)
    requires i < |fs| && StructUpTo(E, fs, i + 1, 0).Some?
    ensures Offset(E, fs, i).Some? && Measure(E, fs[i].ftype, 0).Some?
    ensures i == 0 ==> Offset(E, fs, i) == Some(0)
    ensures i > 0 ==>
              && Offset(E, fs, i - 1).Some? && Measure(E, fs[i - 1].ftype, 0).Some?
              && FirstMultiple(Offset(E, fs, i).value, Measure(E, fs[i].ftype, 0).value.align,
                               Offset(E, fs, i - 1).value + Measure(E, fs[i - 1].ftype, 0).value.size)
  {
    hide Measure, StructUpTo, Offset, RoundUp, FirstMultiple;
    StructStep(E, fs, i);
    if i > 0 {
      StructStep(E, fs, i - 1);
      RoundUpFirst(StructUpTo(E, fs, i, 0).value.size, Measure(E, fs[i].ftype, 0).value.align);
    } else {
      AtStart(E, fs);
    }
  }

  lemma AtStart(E: Env, fs: seq<Field>)
    requires fs != [] && Measure(E, fs[0].ftype, 0).Some?
    ensures Offset(E, fs, 0) == Some(0)
  {
    hide Measure;
    assert StructUpTo(E, fs, 0, 0) == Some(Box(0, 0));
  }

  // ---------- the accumulating loops ----------

  /** `measure_type`. */
  method MeasureType(E: Env, t: Type, lvl: nat) returns (r: Option<Box>)
    ensures r == Measure(E, t, lvl)
    decreases 101 - lvl, 0
  {
    hide Finished, RoundUp, StructUpTo, UnionUpTo;
    if lvl > 100 { return None; }
    match t {
      case Union(tag, fields) =>
        var fs := Members(E.unions, tag, fields);
        if fs.None? { return None; }
        r := MeasureUnion(E, fs.value, lvl + 1);
      case Struct(tag, fields) =>
        var fs := Members(E.structs, tag, fields);
        if fs.None? { return None; }
        r := MeasureStruct(E, fs.value, lvl + 1);
      case Array(elem, count) =>
        if count.None? || count.value <= 0 { return None; }
        r := MeasureType(E, elem, lvl + 1);
        if r.Some? { r := Some(Box(r.value.size * count.value, r.value.align)); }
      case V128 => r := Some(Box(16, 16));
      case Num(ts) => r := Some(Box(NumSize(ts), NumSize(ts)));
      case Double => r := Some(Box(8, 8));
      case Float => r := Some(Box(4, 4));
      case Ptr => r := Some(Box(4, 4));
      case Text => r := Some(Box(4, 4));
      case WText => r := Some(Box(4, 4));
      case _ => r := None;
    }
  }

  method MeasureStruct(E: Env, fs: seq<Field>, lvl: nat) returns (r: Option<Box>)
    requires lvl <= 101
    ensures r == var b := StructUpTo(E, fs, |fs|, lvl); if b.None? then None else Finished(b.value)
    decreases 101 - lvl, 1
  {
    hide Measure, Finished, RoundUp;
    var size: nat, align: nat, i := 0, 0, 0;
    while i < |fs|
      invariant 0 <= i <= |fs| && StructUpTo(E, fs, i, lvl) == Some(Box(size, align))
    {
      var f := MeasureType(E, fs[i].ftype, lvl);
      if f.None? {
        StructFails(E, fs, i + 1, |fs|, lvl);
        return None;
      }
      size := RoundUp(size, f.value.align) + f.value.size;
      align := Max(align, f.value.align);
      i := i + 1;
    }
    r := Finished(Box(size, align));
  }

  method MeasureUnion(E: Env, fs: seq<Field>, lvl: nat) returns (r: Option<Box>)
    requires lvl <= 101
    ensures r == var b := UnionUpTo(E, fs, |fs|, lvl); if b.None? then None else Finished(b.value)
    decreases 101 - lvl, 1
  {
    hide Measure, Finished, RoundUp;
    var size: nat, align: nat, i := 0, 0, 0;
    while i < |fs|
      invariant 0 <= i <= |fs| && UnionUpTo(E, fs, i, lvl) == Some(Box(size, align))
    {
      var f := MeasureType(E, fs[i].ftype, lvl);
      if f.None? {
        UnionFails(E, fs, i + 1, |fs|, lvl);
        return None;
      }
      size := Max(size, f.value.size);
      align := Max(align, f.value.align);
      i := i + 1;
    }
    r := Finished(Box(size, align));
  }

  lemma {:induction false} StructFails(E: Env, fs: seq<Field>, i: nat, n: nat, lvl: nat)
    requires i <= n <= |fs| && StructUpTo(E, fs, i, lvl).None?
    ensures StructUpTo(E, fs, n, lvl).None?
    decreases n
  {
    hide Measure;
    if i < n { StructFails(E, fs, i, n - 1, lvl); }
  }

  lemma {:induction false} UnionFails(E: Env, fs: seq<Field>, i: nat, n: nat, lvl: nat)
    requires i <= n <= |fs| && UnionUpTo(E, fs, i, lvl).None?
    ensures UnionUpTo(E, fs, n, lvl).None?
    decreases n
  {
    hide Measure;
    if i < n { UnionFails(E, fs, i, n - 1, lvl); }
  }

  /** `measure_offset`. */
  method MeasureOffset(E: Env, t: Type, name: nat) returns (r: Option<(nat, Type)>)
    ensures r == OffsetOf(E, t, name)
  {
    hide Measure, RoundUp;
    match t {
      case Union(tag, fields) =>
        var fs := Members(E.unions, tag, fields);
        if fs.None? { return None; }
        var i := 0;
        while i < |fs.value|
          invariant 0 <= i <= |fs.value| && FindUnion(fs.value, name, i) == FindUnion(fs.value, name, 0)
        {
          if fs.value[i].name == name { return Some((0, fs.value[i].ftype)); }
          i := i + 1;
        }
        r := None;
      case Struct(tag, fields) =>
        var fs := Members(E.structs, tag, fields);
        if fs.None? { return None; }
        var i, cursize: nat := 0, 0;
        while i < |fs.value|
          invariant 0 <= i <= |fs.value| && FindMember(E, fs.value, name, i, cursize) == FindMember(E, fs.value, name, 0, 0)
        {
          var f := MeasureType(E, fs.value[i].ftype, 0);
          if f.None? { return None; }
          cursize := RoundUp(cursize, f.value.align);
          if fs.value[i].name == name { return Some((cursize, fs.value[i].ftype)); }
          cursize := cursize + f.value.size;
          i := i + 1;
        }
        r := None;
      case _ => r := None;
    }
  }
}
