/** The interning table: open addressing with backward probing over an append-only array of names. */
module SymbolTable {
  datatype Name = NoName | Named(text: string)

  // ---------- what interning means: a list of distinct names ----------

  ghost predicate Distinct(names: seq<string>) {
    forall j, k :: 0 <= j < k < |names| ==> names[j] != names[k]
  }

  /** The list after interning `s`. */
  function Grown(names: seq<string>, s: string): (more: seq<string>)
    ensures s in more && names <= more
  {
    if s in names then names else names + [s]
  }

  /** `id` is the symbol of `s` in the list. */
  ghost predicate IsId(names: seq<string>, s: string, id: nat) {
    0 < id <= |names| && names[id - 1] == s
  }

  function GrownAll(names: seq<string>, calls: seq<string>): (more: seq<string>)
    ensures names <= more
    decreases |calls|
  {
    if calls == [] then names else GrownAll(Grown(names, calls[0]), calls[1..])
  }

  lemma {:induction false} StaysDistinct(names: seq<string>, calls: seq<string>)
    requires Distinct(names)
    ensures Distinct(GrownAll(names, calls))
    decreases |calls|
  {
    if calls != [] { StaysDistinct(Grown(names, calls[0]), calls[1..]); }
  }

  /** Two calls, with any calls before and between them, return the same symbol exactly when they give the same
      name; and the symbol keeps naming it after any further calls. */
  lemma SameSymbolIffSameName(names: seq<string>, s: string, between: seq<string>, t: string, after: seq<string>, i: nat, j: nat)
    requires Distinct(names)
    requires var one := Grown(names, s); IsId(one, s, i) && IsId(Grown(GrownAll(one, between), t), t, j)
    ensures i == j <==> s == t
    ensures IsId(GrownAll(Grown(GrownAll(Grown(names, s), between), t), after), s, i)
  {
    var one := Grown(names, s);
    StaysDistinct(one, between + [t]);
    var two := GrownAll(one, between);
    StaysDistinct(names, [s]);
    StaysDistinct(one, between);
    StaysDistinct(two, [t]);
    assert Distinct(Grown(two, t));
    assert one <= Grown(two, t) <= GrownAll(Grown(two, t), after);
  }

  // ---------- probing ----------

  /** Interpretation of a `char` as a signed byte widened to 64 bits. */
  function Widened(ch: char): bv64 {
    var b := ch as int % 256;
    if b < 128 then b as bv64 else 0xFFFF_FFFF_FFFF_FF00 | (b as bv64)
  }

  function HashFrom(s: string, i: nat, h: bv64): bv64
    requires i <= |s|
    decreases |s| - i
  {
    if i == |s| then h else HashFrom(s, i + 1, (h << 4) ^ (h >> 28) ^ Widened(s[i]))
  }

  function Hash(s: string): nat {
    var h := HashFrom(s, 0, (|s| % 0x1_0000_0000_0000_0000) as bv64);
    (h ^ (h >> 10) ^ (h >> 20)) as nat
  }

  /** The first slot probed for `s`; the table size is a power of two, so masking is a remainder. */
  function Home(s: string, sz: nat): (i: nat)
    requires sz > 0
    ensures i < sz
  {
    Hash(s) % sz
  }

  /** For such sizes masking with the size less one is taking the remainder. */
  ghost predicate PowerOfTwo(n: nat) {
    n == 1 || (n > 1 && n % 2 == 0 && PowerOfTwo(n / 2))
  }

  function Prev(i: nat, sz: nat): (j: nat)
    requires i < sz
    ensures j < sz
  {
    if i == 0 then sz - 1 else i - 1
  }

  /** The slot reached from `h` after `e` steps. */
  function SlotAt(h: nat, e: nat, sz: nat): (i: nat)
    requires h < sz && e < sz
    ensures i < sz
  {
    if e <= h then h - e else h - e + sz
  }

  /** The number of steps from `h` to `i`. */
  function Steps(h: nat, i: nat, sz: nat): (e: nat)
    requires h < sz && i < sz
    ensures e < sz && SlotAt(h, e, sz) == i
  {
    if i <= h then h - i else h - i + sz
  }

  /** The slots from `h` on, as far as `e` steps, are taken. */
  ghost predicate Taken(v: seq<nat>, h: nat, e: nat)
    requires h < |v| && e <= |v|
  {
    forall d :: 0 <= d < e ==> v[SlotAt(h, d, |v|)] != 0
  }

  /** Slots hold 0 or one more than an index of `names`, no index twice, each reachable from its name's home
      slot without crossing a free slot. */
  ghost predicate Table(v: seq<nat>, names: seq<string>) {
    && |v| > 0
    && (forall i :: 0 <= i < |v| ==> v[i] <= |names|)
    && (forall i, j :: 0 <= i < j < |v| && v[i] != 0 ==> v[i] != v[j])
    && forall i :: 0 <= i < |v| && v[i] != 0 ==> Reachable(v, names, i)
  }

  ghost predicate Reachable(v: seq<nat>, names: seq<string>, i: nat)
    requires i < |v| && 0 < v[i] <= |names|
  {
    var h := Home(names[v[i] - 1], |v|);
    Taken(v, h, Steps(h, i, |v|))
  }

  ghost predicate Indexed(v: seq<nat>, names: seq<string>) {
    forall k :: 0 < k <= |names| ==> k in v
  }

  lemma TableEntry(v: seq<nat>, names: seq<string>, i: nat)
    requires Table(v, names) && i < |v|
    ensures v[i] <= |names| && (v[i] != 0 ==> Reachable(v, names, i))
  {
    hide Reachable;
  }

  // ---------- a free slot exists ----------

  ghost function Entries(v: seq<nat>, n: nat): (E: set<nat>)
    requires n <= |v|
    ensures forall k :: k in E <==> exists i :: 0 <= i < n && v[i] == k
  {
    if n == 0 then {} else Entries(v, n - 1) + {v[n - 1]}
  }

  lemma OneMore(s: set<nat>, k: nat)
    requires k !in s
    ensures |s + {k}| == |s| + 1
  {}

  lemma NewEntry(v: seq<nat>, n: nat)
    requires n < |v| && forall i :: 0 <= i < n ==> v[i] != v[n]
    ensures v[n] !in Entries(v, n) && Entries(v, n + 1) == Entries(v, n) + {v[n]}
  {}

  lemma {:induction false} EntriesCount(v: seq<nat>, n: nat)
    requires n <= |v| && (forall i :: 0 <= i < n ==> v[i] != 0) && forall i, j :: 0 <= i < j < n ==> v[i] != v[j]
    ensures |Entries(v, n)| == n
  {
    if n == 0 {
      assert Entries(v, n) == {};
    } else {
      hide Entries;
      EntriesCount(v, n - 1);
      NewEntry(v, n - 1);
      OneMore(Entries(v, n - 1), v[n - 1]);
    }
  }

  ghost function UpTo(n: nat): (s: set<nat>)
    ensures |s| == n && forall k: nat :: k in s <==> 0 < k <= n
  {
    if n == 0 then {} else UpTo(n - 1) + {n}
  }

  lemma SubsetSize(s: set<nat>, t: set<nat>)
    requires s <= t
    ensures |s| <= |t|
  {
    assert t == s + (t - s);
  }

  /** A table with more slots than names has a free slot. */
  lemma NotFull(v: seq<nat>, names: seq<string>)
    requires Table(v, names) && |names| < |v|
    ensures exists i :: 0 <= i < |v| && v[i] == 0
  {
    hide Reachable, Entries, UpTo;
    if forall i :: 0 <= i < |v| ==> v[i] != 0 {
      EntriesCount(v, |v|);
      assert Entries(v, |v|) <= UpTo(|names|);
      SubsetSize(Entries(v, |v|), UpTo(|names|));
    }
  }

  lemma TakenAt(v: seq<nat>, h: nat, e: nat, d: nat)
    requires h < |v| && e <= |v| && Taken(v, h, e) && d < e
    ensures v[SlotAt(h, d, |v|)] != 0
  {}

  /** So probing meets a free slot in fewer than `|v|` steps. */
  lemma ProbeEnds(v: seq<nat>, names: seq<string>, h: nat, e: nat)
    requires Table(v, names) && |names| < |v| && h < |v| && e <= |v| && Taken(v, h, e)
    ensures e < |v|
  {
    hide Reachable, Taken;
    NotFull(v, names);
    var i :| 0 <= i < |v| && v[i] == 0;
    var d := Steps(h, i, |v|);
    if d < e { TakenAt(v, h, e, d); }
  }

  // ---------- finding and entering a name ----------

  /** The first `e` slots of the probe path of `s` hold other names. */
  ghost predicate Others(v: seq<nat>, names: seq<string>, s: string, e: nat)
    requires e <= |v| && |v| > 0
  {
    forall d :: 0 <= d < e ==> var k := v[SlotAt(Home(s, |v|), d, |v|)]; 0 < k <= |names| && names[k - 1] != s
  }

  lemma OthersTaken(v: seq<nat>, names: seq<string>, s: string, e: nat)
    requires e <= |v| && |v| > 0 && Others(v, names, s, e)
    ensures Taken(v, Home(s, |v|), e)
  {
    hide Home;
  }

  lemma OthersMore(v: seq<nat>, names: seq<string>, s: string, e: nat)
    requires e < |v| && Others(v, names, s, e)
    requires var k := v[SlotAt(Home(s, |v|), e, |v|)]; 0 < k <= |names| && names[k - 1] != s
    ensures Others(v, names, s, e + 1)
  {
    hide Home;
  }

  lemma StepBack(h: nat, e: nat, sz: nat)
    requires h < sz && e + 1 < sz
    ensures Prev(SlotAt(h, e, sz), sz) == SlotAt(h, e + 1, sz)
  {}

  /** A free slot on the probe path, with no match before it, means the name is new. */
  lemma NotListed(v: seq<nat>, names: seq<string>, s: string, e: nat)
    requires Table(v, names) && Indexed(v, names) && e < |v|
    requires v[SlotAt(Home(s, |v|), e, |v|)] == 0
    requires Others(v, names, s, e)
    ensures s !in names
  {
    hide Home, Taken;
    if k :| 0 <= k < |names| && names[k] == s {
      assert k + 1 in v;
      var i :| 0 <= i < |v| && v[i] == k + 1;
      assert Reachable(v, names, i);
      var h := Home(s, |v|);
      var d := Steps(h, i, |v|);
      assert SlotAt(h, d, |v|) == i;
      if d > e { TakenAt(v, h, d, e); }
    }
  }

  /** Entering a new index in the free slot at the end of its probe path. */
  lemma Enter(v: seq<nat>, names: seq<string>, k: nat, e: nat)
    requires Table(v, names) && 0 < k <= |names| && k !in v && e < |v|
    requires var h := Home(names[k - 1], |v|); v[SlotAt(h, e, |v|)] == 0 && Taken(v, h, e)
    ensures var h := Home(names[k - 1], |v|); Table(v[SlotAt(h, e, |v|) := k], names)
  {
    hide Home;
    var h := Home(names[k - 1], |v|);
    var i := SlotAt(h, e, |v|);
    var w := v[i := k];
    assert Steps(h, i, |v|) == e;
    forall j | 0 <= j < |w| && w[j] != 0
      ensures w[j] <= |names| && Reachable(w, names, j)
    {
      if j != i { TableEntry(v, names, j); }
    }
  }

  lemma MoreNames(v: seq<nat>, names: seq<string>, s: string)
    requires Table(v, names)
    ensures Table(v, names + [s])
  {
    hide Home;
    forall i | 0 <= i < |v| && v[i] != 0
      ensures Reachable(v, names + [s], i)
    {
      assert Reachable(v, names, i);
    }
  }

  // ---------- the table itself ----------

  /** Walks back from the home slot of `s` to the first free slot. */
  method FreeSlot(v: array<nat>, s: string, ghost names: seq<string>) returns (i: nat, ghost e: nat)
    requires Table(v[..], names) && |names| < v.Length
    ensures e < v.Length && i == SlotAt(Home(s, v.Length), e, v.Length) && v[i] == 0
    ensures Taken(v[..], Home(s, v.Length), e)
  {
    hide Table, Hash;
    var sz := v.Length;
    i, e := Home(s, sz), 0;
    ghost var h := i;
    ProbeEnds(v[..], names, h, e);
    while v[i] != 0
      invariant e < sz && i == SlotAt(h, e, sz) && Taken(v[..], h, e)
      decreases sz - e
    {
      ProbeEnds(v[..], names, h, e + 1);
      i := Prev(i, sz);
      e := e + 1;
    }
  }

  lemma FirstSlot(v: seq<nat>, names: seq<string>, s: string, h: nat)
    requires h < |v|
    ensures SlotAt(h, 0, |v|) == h && Others(v, names, s, 0) && Taken(v, h, 0)
  {}

  /** Walks back from the home slot of `s` to its entry, or to the first free slot when it has none. */
  method Lookup(v: array<nat>, a: array<string>, u: nat, s: string) returns (i: nat, ghost e: nat)
    requires u <= a.Length && Table(v[..], a[..u]) && Indexed(v[..], a[..u]) && u < v.Length
    ensures i < v.Length && v[i] <= u && (v[i] != 0 ==> a[v[i] - 1] == s)
    ensures v[i] == 0 ==> s !in a[..u] && e < v.Length && i == SlotAt(Home(s, v.Length), e, v.Length)
    ensures v[i] == 0 ==> Taken(v[..], Home(s, v.Length), e)
  {
    hide Table, Home, Indexed, Others, Taken, Reachable, SlotAt, Prev;
    var sz := v.Length;
    ghost var names, w := a[..u], v[..];
    i, e := Home(s, sz), 0;
    ghost var h := i;
    FirstSlot(w, names, s, h);
    while v[i] != 0
      invariant e < sz && i == SlotAt(h, e, sz) && Others(w, names, s, e)
      decreases sz - e
    {
      TableEntry(w, names, i);
      if a[v[i] - 1] == s { return; }
      OthersMore(w, names, s, e);
      OthersTaken(w, names, s, e + 1);
      ProbeEnds(w, names, h, e + 1);
      StepBack(h, e, sz);
      i := Prev(i, sz);
      e := e + 1;
    }
    OthersTaken(w, names, s, e);
    NotListed(w, names, s, e);
  }

  /** The same entries in a table of another size. */
  method Rehash(v: array<nat>, a: array<string>, u: nat, nsz: nat) returns (nv: array<nat>)
    requires u <= a.Length && Table(v[..], a[..u]) && Indexed(v[..], a[..u]) && u < nsz
    ensures fresh(nv) && nv.Length == nsz && Table(nv[..], a[..u]) && Indexed(nv[..], a[..u])
  {
    hide Table, Hash, Reachable;
    ghost var names := a[..u];
    nv := new nat[nsz](_ => 0);
    EmptyTable(nv[..], names);
    var i := 0;
    while i < v.Length
      invariant 0 <= i <= v.Length && Table(nv[..], names)
      invariant forall k :: k in nv[..] && k != 0 <==> k in v[..i] && k != 0
    {
      if v[i] != 0 {
        ghost var w := nv[..];
        TableEntry(v[..], names, i);
        EntryOnce(v[..], names, i);
        var j; ghost var e;
        j, e := FreeSlot(nv, a[v[i] - 1], names);
        Enter(nv[..], names, v[i], e);
        nv[j] := v[i];
        assert nv[..] == w[j := v[i]];
        EntriesGrow(w, j, v[i], v[..i]);
      }
      assert v[..i + 1] == v[..i] + [v[i]];
      i := i + 1;
    }
    assert v[..i] == v[..];
  }

  lemma EntriesGrow(w: seq<nat>, j: nat, k: nat, p: seq<nat>)
    requires j < |w| && w[j] == 0 && k != 0 && forall x :: x in w && x != 0 <==> x in p && x != 0
    ensures forall x :: x in w[j := k] && x != 0 <==> x in p + [k] && x != 0
  {
    var n := w[j := k];
    forall x | x != 0
      ensures x in n <==> x in w || x == k
    {
      if x in w {
        var i :| 0 <= i < |w| && w[i] == x;
        assert n[i] == x;
      }
      if x == k { assert n[j] == x; }
    }
  }

  lemma EmptyTable(v: seq<nat>, names: seq<string>)
    requires |v| > 0 && forall i :: 0 <= i < |v| ==> v[i] == 0
    ensures Table(v, names) && forall k :: k in v ==> k == 0
  {}

  lemma EntryOnce(v: seq<nat>, names: seq<string>, i: nat)
    requires Table(v, names) && i < |v| && v[i] != 0
    ensures v[i] !in v[..i]
  {
    hide Reachable;
  }

  class Symbols {
    var a: array<string>
    var v: array<nat>
    var sz: nat
    var u: nat
    var maxu: nat

    /** The names interned so far, in order. */
    ghost function Names(): (names: seq<string>)
      reads this, a
      requires u <= a.Length
    {
      a[..u]
    }

    ghost predicate Valid()
      reads this, a, v
    {
      && a.Length == sz && v.Length == sz && sz == 2 * maxu && u <= maxu
      && Distinct(a[..u])
      && (sz > 0 ==> PowerOfTwo(sz) && Table(v[..], a[..u]) && Indexed(v[..], a[..u]))
    }

    constructor ()
      ensures Valid() && Names() == []
    {
      a, v := new string[0], new nat[0];
      sz, u, maxu := 0, 0, 0;
    }

    /** The name of a symbol, none for symbol 0. */
    method SymName(sym: nat) returns (name: Name)
      requires Valid() && sym <= u
      ensures sym == 0 ==> name == NoName
      ensures sym > 0 ==> name.Named? && IsId(Names(), name.text, sym)
    {
      name := NoName;
      if sym > 0 { name := Named(a[sym - 1]); }
    }

    /** The symbol of a name: the list of names grows by it if it is new, and keeps every earlier symbol. */
    method Intern(name: Name) returns (sym: nat)
      requires Valid()
      modifies this, a, v
      ensures Valid() && (a == old(a) || fresh(a)) && (v == old(v) || fresh(v))
      ensures name == NoName ==> sym == 0 && Names() == old(Names())
      ensures name.Named? ==> Names() == Grown(old(Names()), name.text) && IsId(Names(), name.text, sym)
    {
      hide Table, Hash, Indexed, Reachable, Taken, Distinct, PowerOfTwo;
      if name == NoName { return 0; }
      var s := name.text;
      var i: nat; ghost var e: nat;
      if sz == 0 {
        a, v := new string[64](_ => ""), new nat[64](_ => 0);
        sz, maxu := 64, 32;
        i, e := Home(s, sz), 0;
        FirstEntry(v[..], s);
      } else {
        i, e := Lookup(v, a, u, s);
        if v[i] != 0 { return v[i]; }
        if u == maxu {
          Double();
          i, e := FreeSlot(v, s, a[..u]);
        }
      }
      sym := Append(s, i, e);
    }

    /** Twice the slots, the same names. */
    method Double()
      requires Valid() && sz > 0
      modifies this
      ensures Valid() && fresh(a) && fresh(v) && u == old(u) && sz == 2 * old(sz) && Names() == old(Names())
    {
      hide Table, Hash, Indexed, Reachable, Distinct, PowerOfTwo;
      var nsz := sz * 2;
      ghost var names := a[..u];
      var nv := Rehash(v, a, u, nsz);
      ghost var w := nv[..];
      var na := Moved(a, u, nsz);
      DoublePower(sz);
      v, a, sz, maxu := nv, na, nsz, nsz / 2;
      assert a[..u] == names && v[..] == w;
    }

    /** A new name at the end of the list, entered in free slot `i`. */
    method Append(s: string, i: nat, ghost e: nat) returns (sym: nat)
      requires Valid() && u < maxu && s !in a[..u] && e < v.Length && i == SlotAt(Home(s, v.Length), e, v.Length)
      requires v[i] == 0 && Taken(v[..], Home(s, v.Length), e)
      modifies this`u, a, v
      ensures Valid() && Names() == old(Names()) + [s] && sym == old(u) + 1
    {
      hide Table, Hash, Indexed, Reachable, Taken, PowerOfTwo;
      ghost var names, w := a[..u], v[..];
      MoreNames(w, names, s);
      NewIndex(w, names);
      Enter(w, names + [s], u + 1, e);
      a[u] := s;
      v[i] := u + 1;
      u := u + 1;
      assert a[..u] == names + [s];
      assert v[..] == w[i := u];
      IndexedMore(w, names, s, i);
      sym := u;
    }
  }

  /** The first `u` names in a larger array. */
  method Moved(a: array<string>, u: nat, nsz: nat) returns (na: array<string>)
    requires u <= a.Length && u <= nsz
    ensures fresh(na) && na.Length == nsz && na[..u] == a[..u]
  {
    na := new string[nsz](_ => "");
    var k := 0;
    while k < u
      invariant 0 <= k <= u && na[..k] == a[..k]
    {
      na[k] := a[k];
      k := k + 1;
    }
  }

  lemma DoublePower(n: nat)
    requires PowerOfTwo(n)
    ensures PowerOfTwo(2 * n)
  {}

  lemma FirstEntry(v: seq<nat>, s: string)
    requires |v| > 0 && forall i :: 0 <= i < |v| ==> v[i] == 0
    ensures PowerOfTwo(64) && Table(v, []) && Indexed(v, []) && SlotAt(Home(s, |v|), 0, |v|) == Home(s, |v|) && Taken(v, Home(s, |v|), 0)
  {
    assert PowerOfTwo(2) && PowerOfTwo(4) && PowerOfTwo(8) && PowerOfTwo(16) && PowerOfTwo(32);
  }

  lemma NewIndex(v: seq<nat>, names: seq<string>)
    requires Table(v, names)
    ensures |names| + 1 !in v
  {
    hide Reachable;
  }

  lemma IndexedMore(v: seq<nat>, names: seq<string>, s: string, i: nat)
    requires Indexed(v, names) && i < |v| && v[i] == 0
    ensures Indexed(v[i := |names| + 1], names + [s])
  {
    var w := v[i := |names| + 1];
    forall k | 0 < k <= |names| + 1
      ensures k in w
    {
      if k == |names| + 1 {
        assert w[i] == k;
      } else {
        assert k in v;
        var j :| 0 <= j < |v| && v[j] == k;
        assert w[j] == k;
      }
    }
  }
}
