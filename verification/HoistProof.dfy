/** Hoisting keeps every use bound to its declaration, and marks exactly the variables whose address is taken. */
module HoistProof {
  import opened Hoist

  // ---------- the list of locals ----------

  lemma ExtendsTrans(a: State, b: State, c: State)
    requires Extends(a, b) && Extends(b, c)
    ensures Extends(a, c)
  {}

  lemma ExtendsListed(F: State, st: State, x: nat)
    requires Extends(F, st)
    ensures ParamListed(F.params, x) <==> ParamListed(st.params, x)
  {}

  lemma CoversExtends(env: Env<Sym>, F: State, st: State)
    requires Covers(env, st) && Extends(F, st)
    ensures Covers(env, F)
  {}

  lemma CoversInner(ids: seq<(nat, Sym)>, up: Env<Sym>, st: State)
    requires Covers(up, st)
    ensures Covers(Scope(ids, up), st)
  {}

  /** A new name is no parameter's and no other local's. */
  lemma NewNameFits(x: nat, ids: seq<(nat, Sym)>, up: Env<Sym>, st: State, sc: Storage)
    requires Inv(st) && Covers(up, st) && NewName(x, ids, up, st.locals).Some?
    ensures var more := st.(locals := st.locals + [Var(NewName(x, ids, up, st.locals).value, sc)]);
            Inv(more) && Extends(more, st)
  {
    hide Find, Lookup;
    var s := NewName(x, ids, up, st.locals).value;
    if s.Orig? {
      forall k | 0 <= k < |st.locals|
        ensures st.locals[k].name != s
      {}
    }
  }

  lemma MarkKeeps(st: State, s: Sym)
    requires Inv(st) && Mark(st, s).Some?
    ensures var m := Mark(st, s).value; Inv(m) && Extends(m, st) && Extends(st, m) && |m.locals| == |st.locals|
  {
    hide IndexOf, ParamIndex, Listed;
    var m := Mark(st, s).value;
    assert forall k :: 0 <= k < |st.params| ==> m.params[k].id == st.params[k].id;
    assert forall k :: 0 <= k < |st.locals| ==> m.locals[k].name == st.locals[k].name;
    forall x
      ensures ParamListed(m.params, x) <==> ParamListed(st.params, x)
    {}
  }

  /** Hoisting keeps the list sound and adds one local for each declaration. */
  lemma {:induction false} TreeState(t: Tree, env: Env<Sym>, st: State)
    requires Inv(st) && Covers(env, st) && HoistTree(t, env, st).Some?
    ensures var m := HoistTree(t, env, st).value.1; Inv(m) && Extends(m, st) && |m.locals| == |st.locals| + Count(t)
    decreases t, 0
  {
    hide Inv, Extends, Covers, Mark;
    match t
    case Ident(_) => SameState(st);
    case Block(items) => BlockState(items, [], env, st);
    case Addr(a) =>
      TreeState(a, env, st);
      if a.Ident? {
        var r := HoistTree(a, env, st).value;
        MarkKeeps(r.1, r.0.name);
        ExtendsTrans(Mark(r.1, r.0.name).value, r.1, st);
      }
    case Node(items) => AllState(items, env, st);
  }

  lemma SameState(st: State)
    ensures Extends(st, st)
  {}

  lemma {:induction false} AllState(ts: Trees, env: Env<Sym>, st: State)
    requires Inv(st) && Covers(env, st) && HoistAll(ts, env, st).Some?
    ensures var m := HoistAll(ts, env, st).value.1; Inv(m) && Extends(m, st) && |m.locals| == |st.locals| + CountAll(ts)
    decreases ts, 0
  {
    hide Inv, Extends, Covers, Count;
    match ts
    case Nil => SameState(st);
    case Cons(h, tl) =>
      TreeState(h, env, st);
      var m := HoistTree(h, env, st).value.1;
      CoversExtends(env, m, st);
      AllState(tl, env, m);
      ExtendsTrans(HoistAll(tl, env, m).value.1, m, st);
  }

  lemma {:induction false} BlockState(ts: Trees, ids: seq<(nat, Sym)>, up: Env<Sym>, st: State)
    requires Inv(st) && Covers(up, st) && HoistBlock(ts, ids, up, st).Some?
    ensures var m := HoistBlock(ts, ids, up, st).value.1; Inv(m) && Extends(m, st) && |m.locals| == |st.locals| + CountAll(ts)
    decreases ts, 1
  {
    hide Inv, Extends, Covers, NewName;
    match ts
    case Nil => SameState(st);
    case Cons(h, tl) =>
      if h.Decl? {
        NewNameFits(h.name.id, ids, up, st, h.sc);
        var n := NewName(h.name.id, ids, up, st.locals).value;
        var m := st.(locals := st.locals + [Var(n, h.sc)]);
        CoversExtends(up, m, st);
        BlockState(tl, ids + [(h.name.id, n)], up, m);
        ExtendsTrans(HoistBlock(ts, ids, up, st).value.1, m, st);
      } else {
        CoversInner(ids, up, st);
        TreeState(h, Scope(ids, up), st);
        var m := HoistTree(h, Scope(ids, up), st).value.1;
        CoversExtends(up, m, st);
        BlockState(tl, ids, up, m);
        ExtendsTrans(HoistBlock(ts, ids, up, st).value.1, m, st);
      }
  }

  // ---------- scopes and names ----------

  lemma {:induction false} FindAgrees(ids: seq<(nat, Sym)>, refs: seq<(nat, Ref)>, st: State, x: nat)
    requires AgreeIds(ids, refs, st)
    ensures Find(ids, x).Some? <==> Find(refs, x).Some?
    ensures Find(ids, x).Some? ==> Names(st, Find(refs, x).value, Find(ids, x).value)
    decreases |ids|
  {
    hide Names;
    if ids != [] && ids[0].0 != x { FindAgrees(ids[1..], refs[1..], st, x); }
  }

  lemma {:induction false} LookupAgrees(env: Env<Sym>, refs: Env<Ref>, st: State, x: nat)
    requires Agree(env, refs, st)
    ensures Lookup(env, x).Some? <==> Lookup(refs, x).Some?
    ensures Lookup(env, x).Some? ==> Names(st, Lookup(refs, x).value, Lookup(env, x).value)
  {
    hide Names, AgreeIds, Find;
    match env
    case Top =>
    case Scope(ids, up) =>
      FindAgrees(ids, refs.ids, st, x);
      LookupAgrees(up, refs.up, st, x);
  }

  lemma NamesExtends(F: State, st: State, r: Ref, s: Sym)
    requires Extends(F, st) && Names(st, r, s)
    ensures Names(F, r, s)
  {}

  lemma {:induction false} AgreeExtends(env: Env<Sym>, refs: Env<Ref>, st: State, F: State)
    requires Agree(env, refs, st) && Extends(F, st)
    ensures Agree(env, refs, F)
  {
    hide Names, Extends;
    match env
    case Top =>
    case Scope(ids, up) =>
      forall i | 0 <= i < |ids|
        ensures Names(F, refs.ids[i].1, ids[i].1)
      {
        NamesExtends(F, st, refs.ids[i].1, ids[i].1);
      }
      AgreeExtends(up, refs.up, st, F);
  }

  /** A sound list of locals makes names unambiguous: the name of a declaration leads back to it. */
  lemma NameLeadsBack(F: State, r: Ref, s: Sym)
    requires Inv(F) && Names(F, r, s)
    ensures RefOf(s, F) == r
  {
    if r.Local? { assert Listed(F.locals, s); }
  }

  /** One use: renamed, it refers to the declaration scoping gave it; only outside names can be captured. */
  lemma UseAgrees(x: nat, addr: bool, env: Env<Sym>, refs: Env<Ref>, st: State, F: State)
    requires Agree(env, refs, st) && Inv(F) && Extends(F, st)
    ensures Captured(Use(Bound(x, refs), addr), F) == Use(RefOf(Renamed(Orig(x), env), F), addr)
  {
    hide Lookup, RefOf, Inv, Extends;
    LookupAgrees(env, refs, st, x);
    if Lookup(env, x).Some? {
      NamesExtends(F, st, Lookup(refs, x).value, Lookup(env, x).value);
      NameLeadsBack(F, Lookup(refs, x).value, Lookup(env, x).value);
    }
  }

  lemma CapturedConcat(a: seq<Use>, b: seq<Use>, F: State)
    ensures CapturedAll(a + b, F) == CapturedAll(a, F) + CapturedAll(b, F)
  {
    hide Captured;
  }

  lemma CapturedOne(u: Use, F: State)
    ensures CapturedAll([u], F) == [Captured(u, F)] && CapturedAll([], F) == []
  {
    hide Captured;
  }

  /** After hoisting, the uses of a tree are those C's scoping gave, up to capture of outside names. */
  lemma {:induction false} TreeMeans(t: Tree, env: Env<Sym>, refs: Env<Ref>, st: State, F: State)
    requires Source(t) && Inv(st) && Covers(env, st) && Agree(env, refs, st) && HoistTree(t, env, st).Some?
    requires Inv(F) && Extends(F, HoistTree(t, env, st).value.1)
    ensures FlatUses(HoistTree(t, env, st).value.0, F) == CapturedAll(Uses(t, refs, |st.locals|), F)
    decreases t, 0
  {
    hide Inv, Extends, Covers, Agree, Mark, CapturedAll, Renamed, RefOf, Bound;
    TreeState(t, env, st);
    ExtendsTrans(F, HoistTree(t, env, st).value.1, st);
    match t
    case Ident(s) =>
      UseAgrees(s.id, false, env, refs, st, F);
      CapturedOne(Use(Bound(s.id, refs), false), F);
    case Block(items) =>
      AgreeNone(st);
      BlockMeans(items, [], [], env, refs, st, F);
    case Addr(a) =>
      if a.Ident? {
        UseAgrees(a.name.id, true, env, refs, st, F);
        CapturedOne(Use(Bound(a.name.id, refs), true), F);
      } else {
        TreeMeans(a, env, refs, st, F);
        NotIdent(a, env, st);
      }
    case Node(items) => AllMeans(items, env, refs, st, F);
  }

  lemma AgreeNone(st: State)
    ensures AgreeIds([], [], st)
  {}

  lemma NotIdent(a: Tree, env: Env<Sym>, st: State)
    requires HoistTree(a, env, st).Some?
    ensures a.Ident? <==> HoistTree(a, env, st).value.0.Ident?
  {
    hide Mark;
  }

  lemma {:induction false} AllMeans(ts: Trees, env: Env<Sym>, refs: Env<Ref>, st: State, F: State)
    requires SourceAll(ts) && Inv(st) && Covers(env, st) && Agree(env, refs, st) && HoistAll(ts, env, st).Some?
    requires Inv(F) && Extends(F, HoistAll(ts, env, st).value.1)
    ensures FlatAll(HoistAll(ts, env, st).value.0, F) == CapturedAll(UsesAll(ts, refs, |st.locals|), F)
    decreases ts, 0
  {
    hide Inv, Extends, Covers, Agree, CapturedAll, Uses, Count, HoistTree, FlatUses;
    match ts
    case Nil => CapturedOne(Use(Global(0), false), F);
    case Cons(h, tl) =>
      TreeState(h, env, st);
      var m := HoistTree(h, env, st).value.1;
      CoversExtends(env, m, st);
      AllState(tl, env, m);
      ExtendsTrans(F, HoistAll(tl, env, m).value.1, m);
      TreeMeans(h, env, refs, st, F);
      AgreeExtends(env, refs, st, m);
      AllMeans(tl, env, refs, m, F);
      CapturedConcat(Uses(h, refs, |st.locals|), UsesAll(tl, refs, |m.locals|), F);
  }

  lemma AgreeMore(ids: seq<(nat, Sym)>, refs: seq<(nat, Ref)>, st: State, x: nat, s: Sym, sc: Storage)
    requires AgreeIds(ids, refs, st)
    ensures AgreeIds(ids + [(x, s)], refs + [(x, Local(|st.locals|))], st.(locals := st.locals + [Var(s, sc)]))
  {}

  lemma AgreeScope(ids: seq<(nat, Sym)>, irefs: seq<(nat, Ref)>, up: Env<Sym>, refs: Env<Ref>, st: State)
    requires AgreeIds(ids, irefs, st) && Agree(up, refs, st)
    ensures Agree(Scope(ids, up), Scope(irefs, refs), st)
  {
    hide AgreeIds;
  }

  lemma AgreeUnscope(ids: seq<(nat, Sym)>, irefs: seq<(nat, Ref)>, up: Env<Sym>, refs: Env<Ref>, st: State)
    requires Agree(Scope(ids, up), Scope(irefs, refs), st)
    ensures AgreeIds(ids, irefs, st) && Agree(up, refs, st)
  {
    hide AgreeIds;
  }

  lemma {:induction false} BlockMeans(ts: Trees, ids: seq<(nat, Sym)>, irefs: seq<(nat, Ref)>, up: Env<Sym>, refs: Env<Ref>, st: State, F: State)
    requires SourceAll(ts) && Inv(st) && Covers(up, st) && AgreeIds(ids, irefs, st) && Agree(up, refs, st)
    requires HoistBlock(ts, ids, up, st).Some? && Inv(F) && Extends(F, HoistBlock(ts, ids, up, st).value.1)
    ensures FlatAll(HoistBlock(ts, ids, up, st).value.0, F) == CapturedAll(UsesBlock(ts, irefs, refs, |st.locals|), F)
    decreases ts, 1
  {
    hide Inv, Extends, Covers, Agree, AgreeIds, CapturedAll, Uses, Count, HoistTree, FlatUses, NewName;
    match ts
    case Nil => CapturedOne(Use(Global(0), false), F);
    case Cons(h, tl) =>
      if h.Decl? {
        NewNameFits(h.name.id, ids, up, st, h.sc);
        var n := NewName(h.name.id, ids, up, st.locals).value;
        var m := st.(locals := st.locals + [Var(n, h.sc)]);
        CoversExtends(up, m, st);
        AgreeMore(ids, irefs, st, h.name.id, n, h.sc);
        AgreeExtends(up, refs, st, m);
        BlockMeans(tl, ids + [(h.name.id, n)], irefs + [(h.name.id, Local(|st.locals|))], up, refs, m, F);
      } else {
        BlockHead(h, tl, ids, irefs, up, refs, st, F);
        var m := HoistTree(h, Scope(ids, up), st).value.1;
        BlockMeans(tl, ids, irefs, up, refs, m, F);
        CapturedConcat(Uses(h, Scope(irefs, refs), |st.locals|), UsesBlock(tl, irefs, refs, |m.locals|), F);
      }
  }

  /** The first node of a block, and what holds for the rest. */
  lemma {:induction false} BlockHead(h: Tree, tl: Trees, ids: seq<(nat, Sym)>, irefs: seq<(nat, Ref)>, up: Env<Sym>, refs: Env<Ref>, st: State, F: State)
    requires !h.Decl? && Source(h) && Inv(st) && Covers(up, st) && AgreeIds(ids, irefs, st) && Agree(up, refs, st)
    requires HoistTree(h, Scope(ids, up), st).Some? && HoistBlock(tl, ids, up, HoistTree(h, Scope(ids, up), st).value.1).Some?
    requires Inv(F) && Extends(F, HoistBlock(tl, ids, up, HoistTree(h, Scope(ids, up), st).value.1).value.1)
    ensures var r := HoistTree(h, Scope(ids, up), st).value;
            && FlatUses(r.0, F) == CapturedAll(Uses(h, Scope(irefs, refs), |st.locals|), F)
            && Inv(r.1) && Covers(up, r.1) && AgreeIds(ids, irefs, r.1) && Agree(up, refs, r.1)
            && |r.1.locals| == |st.locals| + Count(h)
    decreases h, 2
  {
    hide Inv, Extends, Covers, Agree, AgreeIds, CapturedAll, Uses, Count, HoistTree, FlatUses, HoistBlock;
    CoversInner(ids, up, st);
    TreeState(h, Scope(ids, up), st);
    var m := HoistTree(h, Scope(ids, up), st).value.1;
    CoversExtends(up, m, st);
    BlockState(tl, ids, up, m);
    ExtendsTrans(F, HoistBlock(tl, ids, up, m).value.1, m);
    AgreeScope(ids, irefs, up, refs, st);
    TreeMeans(h, Scope(ids, up), Scope(irefs, refs), st, F);
    AgreeExtends(Scope(ids, up), Scope(irefs, refs), st, m);
    AgreeUnscope(ids, irefs, up, refs, m);
  }

  // ---------- which names are kept ----------

  /** The names a tree declares, in order. */
  function Declares(t: Tree): (d: seq<nat>)
    ensures |d| == Count(t)
    decreases t
  {
    match t
    case Ident(_) => []
    case Decl(s, _) => [s.id]
    case Block(items) => DeclaresAll(items)
    case Addr(a) => Declares(a)
    case Node(items) => DeclaresAll(items)
  }

  function DeclaresAll(ts: Trees): (d: seq<nat>)
    ensures |d| == CountAll(ts)
    decreases ts
  {
    match ts
    case Nil => []
    case Cons(h, tl) => Declares(h) + DeclaresAll(tl)
  }

  function First(seen: seq<nat>, x: nat): (i: nat)
    requires x in seen
    ensures i < |seen| && seen[i] == x && forall j :: 0 <= j < i ==> seen[j] != x
    decreases |seen|
  {
    if seen[0] == x then 0
    else
      assert forall j :: 0 < j < |seen| ==> seen[1..][j - 1] == seen[j];
      1 + First(seen[1..], x)
  }

  /** The name of the `i`-th local, after the declarations of `seen`: the first declaration of a name keeps it, unless it
      is a parameter's. */
  function NameOf(params: seq<Param>, seen: seq<nat>, i: nat): Sym
    requires i < |seen|
  {
    if !ParamListed(params, seen[i]) && First(seen, seen[i]) == i then Orig(seen[i]) else Numbered(seen[i], i)
  }

  ghost predicate Named(st: State, seen: seq<nat>) {
    |st.locals| == |seen| && forall i :: 0 <= i < |seen| ==> st.locals[i].name == NameOf(st.params, seen, i)
  }

  /** A visible name is a parameter's or has been declared. */
  ghost predicate Visible(env: Env<Sym>, params: seq<Param>, seen: seq<nat>) {
    forall x :: Lookup(env, x).Some? ==> ParamListed(params, x) || x in seen
  }

  ghost predicate SameIds(a: seq<Param>, b: seq<Param>) { forall x :: ParamListed(a, x) <==> ParamListed(b, x) }

  lemma SameIdsSame(a: seq<Param>, b: seq<Param>)
    requires |a| == |b| && forall i :: 0 <= i < |a| ==> a[i].id == b[i].id
    ensures SameIds(a, b)
  {}

  lemma NamedListed(st: State, seen: seq<nat>, x: nat)
    requires Named(st, seen) && !ParamListed(st.params, x)
    ensures Listed(st.locals, Orig(x)) <==> x in seen
    ensures x in seen ==> IndexOf(st.locals, Orig(x)) == First(seen, x)
  {
    if x in seen { assert st.locals[First(seen, x)].name == Orig(x); }
  }

  lemma FirstMore(seen: seq<nat>, more: seq<nat>, x: nat)
    requires x in seen
    ensures x in seen + more && First(seen + more, x) == First(seen, x)
  {
    var i := First(seen, x);
    assert (seen + more)[i] == x;
    assert forall j :: 0 <= j < i ==> (seen + more)[j] == seen[j];
  }

  lemma NamedMore(st: State, seen: seq<nat>, x: nat, s: Sym, sc: Storage)
    requires Named(st, seen) && s == NameOf(st.params, seen + [x], |seen|)
    ensures Named(st.(locals := st.locals + [Var(s, sc)]), seen + [x])
  {
    var m, more := st.(locals := st.locals + [Var(s, sc)]), seen + [x];
    hide ParamListed, First;
    forall i | 0 <= i < |more|
      ensures m.locals[i].name == NameOf(st.params, more, i)
    {
      if i < |seen| { FirstMore(seen, [x], seen[i]); }
    }
  }

  /** The name a new declaration gets is the one told from the declarations so far. */
  lemma NewNameIs(x: nat, ids: seq<(nat, Sym)>, up: Env<Sym>, st: State, seen: seq<nat>)
    requires Named(st, seen) && Visible(up, st.params, seen) && Covers(up, st) && NewName(x, ids, up, st.locals).Some?
    ensures NewName(x, ids, up, st.locals).value == NameOf(st.params, seen + [x], |seen|)
  {
    hide Find;
    var more := seen + [x];
    assert more[|seen|] == x;
    if ParamListed(st.params, x) {
      var i :| 0 <= i < |st.params| && st.params[i].id == x;
      hide Lookup;
    } else {
      NamedListed(st, seen, x);
      hide Lookup, Named;
      if x in seen { FirstMore(seen, [x], x); } else { NotBefore(seen, x); }
    }
  }

  lemma NotBefore(seen: seq<nat>, x: nat)
    requires x !in seen
    ensures x in seen + [x] && First(seen + [x], x) == |seen|
  {
    var more := seen + [x];
    assert more[|seen|] == x;
    assert forall j :: 0 <= j < |seen| ==> more[j] == seen[j] && seen[j] in seen;
  }

  lemma VisibleMore(env: Env<Sym>, params: seq<Param>, seen: seq<nat>, more: seq<nat>, qs: seq<Param>)
    requires Visible(env, params, seen) && SameIds(params, qs)
    ensures Visible(env, qs, seen + more)
  {
    hide Lookup, ParamListed;
  }

  lemma {:induction false} FindMore(ids: seq<(nat, Sym)>, x: nat, s: Sym, y: nat)
    ensures Find(ids + [(x, s)], y).Some? <==> Find(ids, y).Some? || y == x
    decreases |ids|
  {
    if ids != [] {
      assert (ids + [(x, s)])[1..] == ids[1..] + [(x, s)];
      FindMore(ids[1..], x, s, y);
    }
  }

  lemma VisibleInner(ids: seq<(nat, Sym)>, up: Env<Sym>, params: seq<Param>, seen: seq<nat>)
    ensures Visible(Scope(ids, up), params, seen) ==> Visible(up, params, seen)
    ensures Visible(up, params, seen) ==> Visible(Scope([], up), params, seen)
  {
    hide ParamListed, Find;
    if Visible(Scope(ids, up), params, seen) {
      forall x | Lookup(up, x).Some?
        ensures ParamListed(params, x) || x in seen
      {
        assert Lookup(Scope(ids, up), x).Some?;
      }
    }
    if Visible(up, params, seen) {
      forall x | Lookup(Scope([], up), x).Some?
        ensures ParamListed(params, x) || x in seen
      {
        assert Find<Sym>([], x).None? by { NothingFound(x); }
      }
    }
  }

  lemma NothingFound(x: nat)
    ensures Find<Sym>([], x).None?
  {}

  lemma VisibleDecl(ids: seq<(nat, Sym)>, up: Env<Sym>, params: seq<Param>, seen: seq<nat>, x: nat, s: Sym)
    requires Visible(Scope(ids, up), params, seen)
    ensures Visible(Scope(ids + [(x, s)], up), params, seen + [x])
  {
    hide ParamListed;
    forall y | Lookup(Scope(ids + [(x, s)], up), y).Some?
      ensures ParamListed(params, y) || y in seen + [x]
    {
      FindMore(ids, x, s, y);
      hide Find;
      assert Lookup(Scope(ids, up), y).Some? || y == x;
    }
  }

  lemma MarkNamed(st: State, s: Sym, seen: seq<nat>)
    requires Named(st, seen) && Mark(st, s).Some?
    ensures Named(Mark(st, s).value, seen) && SameIds(st.params, Mark(st, s).value.params)
  {
    hide IndexOf, ParamIndex, First;
    var m := Mark(st, s).value;
    assert forall k :: 0 <= k < |st.params| ==> m.params[k].id == st.params[k].id;
    SameIdsSame(st.params, m.params);
    assert forall k :: 0 <= k < |st.locals| ==> m.locals[k].name == st.locals[k].name;
    hide ParamListed;
  }

  // ---------- marking ----------

  /** The storage of the declarations of a tree, in order. */
  function Decls(t: Tree): (d: seq<Storage>)
    ensures |d| == Count(t)
    decreases t
  {
    match t
    case Ident(_) => []
    case Decl(_, sc) => [sc]
    case Block(items) => DeclsAll(items)
    case Addr(a) => Decls(a)
    case Node(items) => DeclsAll(items)
  }

  function DeclsAll(ts: Trees): (d: seq<Storage>)
    ensures |d| == CountAll(ts)
    decreases ts
  {
    match ts
    case Nil => []
    case Cons(h, tl) => Decls(h) + DeclsAll(tl)
  }

  /** The storage before marking. */
  function Declared(st: State, d: seq<Storage>, k: nat): Storage
    requires k < |st.locals| + |d|
  {
    if k < |st.locals| then st.locals[k].sc else d[k - |st.locals|]
  }

  /** From `st` to `m`: locals declared with `d` were added; exactly the locals and the plain parameters whose
      address is taken in `us` are now automatic, and none of those locals was a register variable. */
  ghost predicate Marks(st: State, m: State, d: seq<Storage>, us: seq<Use>) {
    && |m.locals| == |st.locals| + |d| && |m.params| == |st.params|
    && (forall k: nat :: k < |m.locals| ==>
         m.locals[k].sc == if Use(Local(k), true) in us then Auto else Declared(st, d, k))
    && (forall k: nat :: k < |m.locals| && Use(Local(k), true) in us ==> Declared(st, d, k) != Register)
    && forall i :: 0 <= i < |m.params| ==> m.params[i] == MarkedParam(st.params[i], us)
  }

  ghost function MarkedParam(p: Param, us: seq<Use>): Param {
    if Use(Par(p.id), true) in us && p.sc == Plain then Param(p.id, Auto) else p
  }

  ghost predicate Within(us: seq<Use>, n: nat) { forall u :: u in us && u.ref.Local? ==> u.ref.k < n }

  lemma MarksTrans(st: State, m: State, f: State, d: seq<Storage>, e: seq<Storage>, us: seq<Use>, vs: seq<Use>)
    requires Marks(st, m, d, us) && Marks(m, f, e, vs) && Within(us, |m.locals|)
    ensures Marks(st, f, d + e, us + vs)
  {
    forall k: nat | k < |f.locals|
      ensures f.locals[k].sc == if Use(Local(k), true) in us + vs then Auto else Declared(st, d + e, k)
      ensures Use(Local(k), true) in us + vs ==> Declared(st, d + e, k) != Register
    {
      if k >= |m.locals| { assert Use(Local(k), true) !in us; }
    }
  }

  lemma MarksNothing(st: State)
    ensures Marks(st, st, [], [])
  {}

  lemma MarksPlain(st: State, u: Use)
    requires !u.addr
    ensures Marks(st, st, [], [u])
  {}

  ghost predicate ParamsDistinct(st: State) {
    forall i, j :: 0 <= i < j < |st.params| ==> st.params[i].id != st.params[j].id
  }

  lemma MarkOne(st: State, s: Sym)
    requires Inv(st) && ParamsDistinct(st) && Mark(st, s).Some?
    ensures Marks(st, Mark(st, s).value, [], [Use(RefOf(s, st), true)])
  {
    hide IndexOf, ParamIndex;
    var us := [Use(RefOf(s, st), true)];
    if Listed(st.locals, s) {
      var i := IndexOf(st.locals, s);
      assert forall k: nat :: Use(Local(k), true) in us <==> k == i;
      assert forall x: nat :: Use(Par(x), true) !in us;
    } else {
      assert forall k: nat :: Use(Local(k), true) !in us;
    }
  }

  /** What a use refers to in the locals hoisted so far: a name from outside may already be some local's. */
  function Early(r: Ref, seen: seq<nat>): Ref {
    if r.Global? && r.id in seen then Local(First(seen, r.id)) else r
  }

  /** The uses of a tree as hoisting comes to them; `seen` was declared before. */
  function EarlyUses(t: Tree, env: Env<Ref>, seen: seq<nat>): seq<Use>
    decreases t, 0
  {
    match t
    case Ident(s) => [Use(Early(Bound(s.id, env), seen), false)]
    case Decl(_, _) => []
    case Block(items) => EarlyBlock(items, [], env, seen)
    case Addr(a) => if a.Ident? then [Use(Early(Bound(a.name.id, env), seen), true)] else EarlyUses(a, env, seen)
    case Node(items) => EarlyAll(items, env, seen)
  }

  function EarlyAll(ts: Trees, env: Env<Ref>, seen: seq<nat>): seq<Use>
    decreases ts, 0
  {
    match ts
    case Nil => []
    case Cons(h, tl) => EarlyUses(h, env, seen) + EarlyAll(tl, env, seen + Declares(h))
  }

  function EarlyBlock(ts: Trees, ids: seq<(nat, Ref)>, up: Env<Ref>, seen: seq<nat>): seq<Use>
    decreases ts, 1
  {
    match ts
    case Nil => []
    case Cons(h, tl) =>
      if h.Decl? then EarlyBlock(tl, ids + [(h.name.id, Local(|seen|))], up, seen + [h.name.id])
      else EarlyUses(h, Scope(ids, up), seen) + EarlyBlock(tl, ids, up, seen + Declares(h))
  }

  /** A use as hoisting comes to it: the renamed name leads to what it refers to so far. */
  lemma EarlyUse(x: nat, env: Env<Sym>, refs: Env<Ref>, st: State, seen: seq<nat>)
    requires Inv(st) && Covers(env, st) && Agree(env, refs, st) && Named(st, seen)
    ensures RefOf(Renamed(Orig(x), env), st) == Early(Bound(x, refs), seen)
    ensures Early(Bound(x, refs), seen).Local? ==> Early(Bound(x, refs), seen).k < |st.locals|
  {
    hide Inv, Agree, Lookup, Named, IndexOf, First;
    SameState(st);
    UseAgrees(x, true, env, refs, st, st);
    NamesNotGlobal(env, refs, st, x);
    if Bound(x, refs).Global? {
      NotParamName(env, st, x);
      NamedListed(st, seen, x);
    }
    NamedSize(st, seen);
  }

  lemma NamedSize(st: State, seen: seq<nat>)
    requires Named(st, seen)
    ensures |st.locals| == |seen|
  {
    hide NameOf;
  }

  lemma NotParamName(env: Env<Sym>, st: State, x: nat)
    requires Covers(env, st) && Lookup(env, x).None?
    ensures !ParamListed(st.params, x)
  {
    hide Lookup;
  }

  lemma NamesNotGlobal(env: Env<Sym>, refs: Env<Ref>, st: State, x: nat)
    requires Agree(env, refs, st)
    ensures Bound(x, refs).Global? <==> Lookup(env, x).None?
    ensures Bound(x, refs).Global? ==> Bound(x, refs).id == x
    ensures Lookup(env, x).Some? ==> Names(st, Bound(x, refs), Lookup(env, x).value)
  {
    hide Agree, Lookup, Names;
    LookupAgrees(env, refs, st, x);
    if Lookup(env, x).Some? { NeverGlobal(st, Lookup(refs, x).value, Lookup(env, x).value); }
  }

  lemma NeverGlobal(st: State, r: Ref, s: Sym)
    requires Names(st, r, s)
    ensures !r.Global?
  {}

  lemma DistinctExtends(F: State, st: State)
    requires ParamsDistinct(st) && Extends(F, st)
    ensures ParamsDistinct(F)
  {}

  lemma WithinMore(us: seq<Use>, n: nat, m: nat)
    requires Within(us, n) && n <= m
    ensures Within(us, m)
  {}

  lemma WithinBoth(us: seq<Use>, vs: seq<Use>, n: nat)
    requires Within(us, n) && Within(vs, n)
    ensures Within(us + vs, n)
  {}

  /** What hoisting does to the state: names, and marks for exactly the addresses taken. */
  ghost predicate Did(st: State, m: State, d: seq<Storage>, us: seq<Use>, seen: seq<nat>) {
    Marks(st, m, d, us) && Within(us, |m.locals|) && Named(m, seen) && SameIds(st.params, m.params)
  }

  lemma DidNothing(st: State, us: seq<Use>, seen: seq<nat>)
    requires Named(st, seen) && (us == [] || (|us| == 1 && !us[0].addr && Within(us, |st.locals|)))
    ensures Did(st, st, [], us, seen)
  {
    if us == [] { MarksNothing(st); } else { MarksPlain(st, us[0]); }
  }

  lemma DidBoth(st: State, m: State, f: State, d: seq<Storage>, e: seq<Storage>, us: seq<Use>, vs: seq<Use>, a: seq<nat>, b: seq<nat>)
    requires Did(st, m, d, us, a) && Did(m, f, e, vs, b)
    ensures Did(st, f, d + e, us + vs, b)
  {
    hide Named, ParamListed;
    MarksSize(m, f, e, vs);
    MarksTrans(st, m, f, d, e, us, vs);
    hide Marks;
    WithinMore(us, |m.locals|, |f.locals|);
    WithinBoth(us, vs, |f.locals|);
  }

  lemma MarksSize(st: State, m: State, d: seq<Storage>, us: seq<Use>)
    requires Marks(st, m, d, us)
    ensures |m.locals| == |st.locals| + |d|
  {}

  lemma {:induction false} TreeMarks(t: Tree, env: Env<Sym>, refs: Env<Ref>, st: State, seen: seq<nat>)
    requires Source(t) && Inv(st) && Covers(env, st) && Agree(env, refs, st) && ParamsDistinct(st)
    requires Named(st, seen) && Visible(env, st.params, seen) && HoistTree(t, env, st).Some?
    ensures Did(st, HoistTree(t, env, st).value.1, Decls(t), EarlyUses(t, refs, seen), seen + Declares(t))
    decreases t, 0
  {
    hide Inv, Extends, Covers, Agree, Mark, Renamed, RefOf, Bound, Did, ParamsDistinct, Named, Visible, Early;
    match t
    case Ident(s) =>
      EarlyUse(s.id, env, refs, st, seen);
      assert seen + [] == seen;
      DidNothing(st, [Use(Early(Bound(s.id, refs), seen), false)], seen);
    case Block(items) =>
      AgreeNone(st);
      VisibleInner([], env, st.params, seen);
      BlockMarks(items, [], [], env, refs, st, seen);
    case Addr(a) =>
      if a.Ident? {
        AddrMarks(a.name.id, env, refs, st, seen);
        assert seen + [] == seen;
      } else {
        TreeMarks(a, env, refs, st, seen);
      }
    case Node(items) => AllMarks(items, env, refs, st, seen);
  }

  lemma AddrMarks(x: nat, env: Env<Sym>, refs: Env<Ref>, st: State, seen: seq<nat>)
    requires Inv(st) && Covers(env, st) && Agree(env, refs, st) && ParamsDistinct(st)
    requires Named(st, seen) && Mark(st, Renamed(Orig(x), env)).Some?
    ensures Did(st, Mark(st, Renamed(Orig(x), env)).value, [], [Use(Early(Bound(x, refs), seen), true)], seen)
  {
    hide Inv, Covers, Agree, Mark, Renamed, RefOf, Bound, ParamsDistinct, Named, Early, Marks, SameIds;
    var s := Renamed(Orig(x), env);
    EarlyUse(x, env, refs, st, seen);
    MarkOne(st, s);
    MarkNamed(st, s, seen);
    MarksSize(st, Mark(st, s).value, [], [Use(RefOf(s, st), true)]);
  }

  lemma {:induction false} AllMarks(ts: Trees, env: Env<Sym>, refs: Env<Ref>, st: State, seen: seq<nat>)
    requires SourceAll(ts) && Inv(st) && Covers(env, st) && Agree(env, refs, st) && ParamsDistinct(st)
    requires Named(st, seen) && Visible(env, st.params, seen) && HoistAll(ts, env, st).Some?
    ensures Did(st, HoistAll(ts, env, st).value.1, DeclsAll(ts), EarlyAll(ts, refs, seen), seen + DeclaresAll(ts))
    decreases ts, 0
  {
    hide Inv, Extends, Covers, Agree, Did, ParamsDistinct, EarlyUses, Decls, Declares, Count, HoistTree, Named, Visible;
    match ts
    case Nil =>
      assert seen + [] == seen;
      DidNothing(st, [], seen);
    case Cons(h, tl) =>
      TreeState(h, env, st);
      var m := HoistTree(h, env, st).value.1;
      TreeMarks(h, env, refs, st, seen);
      AfterTree(st, m, env, refs, Decls(h), EarlyUses(h, refs, seen), seen, Declares(h));
      AllMarks(tl, env, refs, m, seen + Declares(h));
      assert seen + (Declares(h) + DeclaresAll(tl)) == (seen + Declares(h)) + DeclaresAll(tl);
      DidBoth(st, m, HoistAll(tl, env, m).value.1, Decls(h), DeclsAll(tl), EarlyUses(h, refs, seen),
              EarlyAll(tl, refs, seen + Declares(h)), seen + Declares(h), (seen + Declares(h)) + DeclaresAll(tl));
  }

  /** What still holds after a part has been hoisted. */
  lemma AfterTree(st: State, m: State, env: Env<Sym>, refs: Env<Ref>, d: seq<Storage>, us: seq<Use>, seen: seq<nat>, more: seq<nat>)
    requires Covers(env, st) && Agree(env, refs, st) && ParamsDistinct(st) && Visible(env, st.params, seen)
    requires Inv(m) && Extends(m, st) && Did(st, m, d, us, seen + more)
    ensures Covers(env, m) && Agree(env, refs, m) && ParamsDistinct(m) && Visible(env, m.params, seen + more) && Named(m, seen + more)
  {
    hide Inv, Extends, Covers, Agree, ParamsDistinct, Named, Visible, Marks, Within;
    CoversExtends(env, m, st);
    AgreeExtends(env, refs, st, m);
    DistinctExtends(m, st);
    VisibleMore(env, st.params, seen, more, m.params);
  }

  lemma MarksDeclared(st: State, v: Var, f: State, e: seq<Storage>, us: seq<Use>)
    requires Marks(st.(locals := st.locals + [v]), f, e, us)
    ensures Marks(st, f, [v.sc] + e, us)
  {
    var m := st.(locals := st.locals + [v]);
    assert forall k: nat :: k < |f.locals| ==> Declared(m, e, k) == Declared(st, [v.sc] + e, k);
  }

  lemma DidDeclared(st: State, v: Var, f: State, e: seq<Storage>, us: seq<Use>, seen: seq<nat>)
    requires Did(st.(locals := st.locals + [v]), f, e, us, seen)
    ensures Did(st, f, [v.sc] + e, us, seen)
  {
    MarksDeclared(st, v, f, e, us);
    hide Marks, Named, Within, ParamListed;
  }

  lemma {:induction false} BlockMarks(ts: Trees, ids: seq<(nat, Sym)>, irefs: seq<(nat, Ref)>, up: Env<Sym>, refs: Env<Ref>, st: State, seen: seq<nat>)
    requires SourceAll(ts) && Inv(st) && Covers(up, st) && AgreeIds(ids, irefs, st) && Agree(up, refs, st) && ParamsDistinct(st)
    requires Named(st, seen) && Visible(Scope(ids, up), st.params, seen) && HoistBlock(ts, ids, up, st).Some?
    ensures Did(st, HoistBlock(ts, ids, up, st).value.1, DeclsAll(ts), EarlyBlock(ts, irefs, refs, seen), seen + DeclaresAll(ts))
    decreases ts, 1
  {
    hide Inv, Extends, Covers, Agree, AgreeIds, Did, ParamsDistinct, EarlyUses, Count, HoistTree, NewName, Named, Visible;
    match ts
    case Nil =>
      assert seen + [] == seen;
      DidNothing(st, [], seen);
    case Cons(h, tl) =>
      if h.Decl? {
        var x := h.name.id;
        var n := NewName(x, ids, up, st.locals).value;
        var m := st.(locals := st.locals + [Var(n, h.sc)]);
        DeclareNext(x, n, h.sc, ids, irefs, up, refs, st, seen);
        BlockMarks(tl, ids + [(x, n)], irefs + [(x, Local(|seen|))], up, refs, m, seen + [x]);
        assert Declares(h) == [x] && Decls(h) == [h.sc];
        assert seen + ([x] + DeclaresAll(tl)) == (seen + [x]) + DeclaresAll(tl);
        var r := HoistBlock(tl, ids + [(x, n)], up, m);
        assert HoistBlock(ts, ids, up, st) == r;
        DidDeclared(st, Var(n, h.sc), r.value.1, DeclsAll(tl), EarlyBlock(tl, irefs + [(x, Local(|seen|))], refs, seen + [x]),
                    (seen + [x]) + DeclaresAll(tl));
      } else {
        BlockHeadMarks(h, tl, ids, irefs, up, refs, st, seen);
      }
  }

  lemma DeclareNext(x: nat, n: Sym, sc: Storage, ids: seq<(nat, Sym)>, irefs: seq<(nat, Ref)>, up: Env<Sym>, refs: Env<Ref>, st: State,
                    seen: seq<nat>)
    requires Inv(st) && Covers(up, st) && AgreeIds(ids, irefs, st) && Agree(up, refs, st) && ParamsDistinct(st)
    requires Named(st, seen) && Visible(Scope(ids, up), st.params, seen) && NewName(x, ids, up, st.locals) == Some(n)
    ensures var m := st.(locals := st.locals + [Var(n, sc)]);
            && Inv(m) && Covers(up, m) && AgreeIds(ids + [(x, n)], irefs + [(x, Local(|seen|))], m) && Agree(up, refs, m)
            && ParamsDistinct(m) && Named(m, seen + [x]) && Visible(Scope(ids + [(x, n)], up), m.params, seen + [x])
  {
    hide Inv, Extends, Covers, Agree, AgreeIds, ParamsDistinct, NewName, Named, Visible;
    var m := st.(locals := st.locals + [Var(n, sc)]);
    NamedSize(st, seen);
    NewNameFits(x, ids, up, st, sc);
    CoversExtends(up, m, st);
    AgreeMore(ids, irefs, st, x, n, sc);
    AgreeExtends(up, refs, st, m);
    DistinctExtends(m, st);
    VisibleInner(ids, up, st.params, seen);
    NewNameIs(x, ids, up, st, seen);
    NamedMore(st, seen, x, n, sc);
    VisibleDecl(ids, up, st.params, seen, x, n);
  }

  lemma {:induction false} BlockHeadMarks(h: Tree, tl: Trees, ids: seq<(nat, Sym)>, irefs: seq<(nat, Ref)>, up: Env<Sym>, refs: Env<Ref>, st: State, seen: seq<nat>)
    requires !h.Decl? && Source(h) && SourceAll(tl) && Inv(st) && Covers(up, st) && AgreeIds(ids, irefs, st)
    requires Agree(up, refs, st) && ParamsDistinct(st) && HoistBlock(Cons(h, tl), ids, up, st).Some?
    requires Named(st, seen) && Visible(Scope(ids, up), st.params, seen)
    ensures Did(st, HoistBlock(Cons(h, tl), ids, up, st).value.1, DeclsAll(Cons(h, tl)), EarlyBlock(Cons(h, tl), irefs, refs, seen),
                seen + DeclaresAll(Cons(h, tl)))
    decreases Cons(h, tl), 0
  {
    hide Inv, Extends, Covers, Agree, AgreeIds, Did, ParamsDistinct, EarlyUses, Decls, Declares, Count, HoistTree, Named, Visible;
    var env, srefs := Scope(ids, up), Scope(irefs, refs);
    var m := HoistTree(h, env, st).value.1;
    CoversInner(ids, up, st);
    TreeState(h, env, st);
    AgreeScope(ids, irefs, up, refs, st);
    TreeMarks(h, env, srefs, st, seen);
    AfterTree(st, m, env, srefs, Decls(h), EarlyUses(h, srefs, seen), seen, Declares(h));
    AgreeUnscope(ids, irefs, up, refs, m);
    CoversExtends(up, m, st);
    BlockMarks(tl, ids, irefs, up, refs, m, seen + Declares(h));
    assert seen + (Declares(h) + DeclaresAll(tl)) == (seen + Declares(h)) + DeclaresAll(tl);
    DidBoth(st, m, HoistBlock(tl, ids, up, m).value.1, Decls(h), DeclsAll(tl), EarlyUses(h, srefs, seen),
            EarlyBlock(tl, irefs, refs, seen + Declares(h)), seen + Declares(h), (seen + Declares(h)) + DeclaresAll(tl));
  }
}
