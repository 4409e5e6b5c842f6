/** Hoisting a whole function, in place, and what it guarantees. */
module HoistFunction {
  import opened Hoist
  import opened HoistProof

  /** Parameter names are mapped to themselves. */
  function ParamIds(params: seq<Param>): (ids: seq<(nat, Sym)>)
    ensures |ids| == |params| && forall i :: 0 <= i < |params| ==> ids[i] == (params[i].id, Orig(params[i].id))
  {
    seq(|params|, i requires 0 <= i < |params| => (params[i].id, Orig(params[i].id)))
  }

  function ParamRefs(params: seq<Param>): (refs: seq<(nat, Ref)>)
    ensures |refs| == |params| && forall i :: 0 <= i < |params| ==> refs[i] == (params[i].id, Par(params[i].id))
  {
    seq(|params|, i requires 0 <= i < |params| => (params[i].id, Par(params[i].id)))
  }

  lemma {:induction false} FindListed(ids: seq<(nat, Sym)>, i: nat)
    requires i < |ids|
    ensures Find(ids, ids[i].0).Some?
    decreases |ids|
  {
    if ids[0].0 != ids[i].0 { FindListed(ids[1..], i - 1); }
  }

  /** The start: no locals, the parameters in the outermost scope. */
  lemma StartState(params: seq<Param>)
    ensures var st := State([], params);
            Inv(st) && Covers(Scope(ParamIds(params), Top), st) && Agree(Scope(ParamIds(params), Top), Scope(ParamRefs(params), Top), st)
  {
    hide ParamIds, ParamRefs;
    var ids, st := ParamIds(params), State([], params);
    forall i | 0 <= i < |params|
      ensures Lookup(Scope(ids, Top), params[i].id).Some?
    {
      FindListed(ids, i);
    }
    forall i | 0 <= i < |ids|
      ensures Names(st, ParamRefs(params)[i].1, ids[i].1)
    {
      assert ParamListed(params, params[i].id);
    }
  }

  /** The parameters differ, and hoisting the body leaves `flat` and `F`. */
  ghost predicate HoistsTo(params: seq<Param>, body: Tree, flat: Tree, F: State) {
    && ParamsDistinct(State([], params))
    && HoistTree(body, Scope(ParamIds(params), Top), State([], params)) == Some((flat, F))
  }

  ghost function BodyUses(params: seq<Param>, body: Tree): seq<Use> {
    Uses(body, Scope(ParamRefs(params), Top), 0)
  }

  /** No name that the body uses from outside is declared anywhere in it. */
  ghost predicate NothingCaptured(params: seq<Param>, body: Tree) {
    forall u :: u in BodyUses(params, body) && u.ref.Global? ==> u.ref.id !in Declares(body)
  }

  lemma StartNames(params: seq<Param>)
    ensures Named(State([], params), []) && Visible(Scope(ParamIds(params), Top), params, [])
  {
    var ids := ParamIds(params);
    hide ParamIds;
    forall x | Lookup(Scope(ids, Top), x).Some?
      ensures ParamListed(params, x)
    {
      assert Lookup<Sym>(Top, x).None?;
      FoundListed(ids, x);
    }
  }

  lemma {:induction false} FoundListed(ids: seq<(nat, Sym)>, x: nat)
    requires Find(ids, x).Some?
    ensures exists i :: 0 <= i < |ids| && ids[i].0 == x
    decreases |ids|
  {
    if ids[0].0 != x {
      FoundListed(ids[1..], x);
      var i :| 0 <= i < |ids[1..]| && ids[1..][i].0 == x;
      assert ids[i + 1].0 == x;
    }
  }

  ghost function BodyEarlyUses(params: seq<Param>, body: Tree): seq<Use> {
    EarlyUses(body, Scope(ParamRefs(params), Top), [])
  }

  /** Every local's name, from the declarations alone: a name that is no parameter's stays with its first declaration, every
      other declaration gets the name with its number. */
  lemma HoistedNames(params: seq<Param>, body: Tree, flat: Tree, F: State)
    requires Source(body) && HoistsTo(params, body, flat, F)
    ensures |F.locals| == |Declares(body)| && SameIds(params, F.params)
    ensures forall i :: 0 <= i < |F.locals| ==> F.locals[i].name == NameOf(params, Declares(body), i)
    ensures forall x :: !ParamListed(params, x) ==> (Listed(F.locals, Orig(x)) <==> x in Declares(body))
  {
    hide Did, SameIds, Declares, Marks;
    HoistingMarks(params, body, flat, F);
    DidNamed(State([], params), F, Decls(body), BodyEarlyUses(params, body), Declares(body));
    NamesFromStart(params, F, Declares(body));
    forall x | !ParamListed(params, x)
      ensures Listed(F.locals, Orig(x)) <==> x in Declares(body)
    {
      SameIdsAt(params, F.params, x);
      NamedListed(F, Declares(body), x);
    }
  }

  lemma SameIdsAt(a: seq<Param>, b: seq<Param>, x: nat)
    requires SameIds(a, b)
    ensures ParamListed(a, x) <==> ParamListed(b, x)
  {
    hide ParamListed;
  }

  lemma DidNamed(st: State, m: State, d: seq<Storage>, us: seq<Use>, seen: seq<nat>)
    requires Did(st, m, d, us, seen)
    ensures Named(m, seen) && SameIds(st.params, m.params)
  {
    hide Named, SameIds, Marks, Within;
  }

  lemma NamesFromStart(params: seq<Param>, F: State, seen: seq<nat>)
    requires Named(F, seen) && SameIds(params, F.params)
    ensures |F.locals| == |seen| && forall i :: 0 <= i < |seen| ==> F.locals[i].name == NameOf(params, seen, i)
  {
    hide ParamListed, First;
  }

  lemma ClearIsNothingCaptured(params: seq<Param>, body: Tree, flat: Tree, F: State)
    requires Source(body) && HoistsTo(params, body, flat, F)
    ensures Clear(BodyUses(params, body), F.locals) <==> NothingCaptured(params, body)
  {
    var refs := Scope(ParamRefs(params), Top);
    StartState(params);
    HoistedNames(params, body, flat, F);
    hide HoistTree, Uses, Listed, Declares, ParamIds, ParamRefs, HoistsTo;
    forall u | u in BodyUses(params, body) && u.ref.Global?
      ensures Listed(F.locals, Orig(u.ref.id)) <==> u.ref.id in Declares(body)
    {
      ParamRefsNoGlobals(params);
      GlobalsOutside(body, refs, 0, u.ref.id, u.addr);
      NotParam(Scope(ParamIds(params), Top), refs, State([], params), State([], params), u.ref.id);
    }
  }

  /** No use of something outside has the name of a local. */
  ghost predicate Clear(us: seq<Use>, locals: seq<Var>) {
    forall u :: u in us && u.ref.Global? ==> !Listed(locals, Orig(u.ref.id))
  }

  /** Hoisted names are pairwise distinct and no parameter's, one for each declaration; and every use in the flat
      function refers to the declaration that C's scoping gave it exactly when no name used from outside is declared
      anywhere in the body. */
  lemma HoistingKeepsBindings(params: seq<Param>, body: Tree, flat: Tree, F: State)
    requires Source(body) && HoistsTo(params, body, flat, F)
    ensures |F.locals| == Count(body)
    ensures forall j, k :: 0 <= j < k < |F.locals| ==> F.locals[j].name != F.locals[k].name
    ensures forall k, i :: 0 <= k < |F.locals| && 0 <= i < |params| ==> F.locals[k].name != Orig(params[i].id)
    ensures FlatUses(flat, F) == BodyUses(params, body) <==> NothingCaptured(params, body)
  {
    ClearIsNothingCaptured(params, body, flat, F);
    var env, refs, st := Scope(ParamIds(params), Top), Scope(ParamRefs(params), Top), State([], params);
    StartState(params);
    TreeState(body, env, st);
    SameState(F);
    TreeMeans(body, env, refs, st, F);
    NamesApart(F, st);
    hide HoistTree, Uses, FlatUses, Inv, Extends, Covers, Agree, ParamIds, ParamRefs, NothingCaptured;
    ClearIff(params, BodyUses(params, body), F, st, body, env, refs);
  }

  lemma NamesApart(F: State, st: State)
    requires Inv(F) && Extends(F, st)
    ensures forall j, k :: 0 <= j < k < |F.locals| ==> F.locals[j].name != F.locals[k].name
    ensures forall k, i :: 0 <= k < |F.locals| && 0 <= i < |st.params| ==> F.locals[k].name != Orig(st.params[i].id)
  {
    forall k, i | 0 <= k < |F.locals| && 0 <= i < |st.params|
      ensures F.locals[k].name != Orig(st.params[i].id)
    {
      assert F.params[i].id == st.params[i].id;
      assert ParamListed(F.params, st.params[i].id);
    }
  }

  /** Outside names are never parameters. */
  lemma {:induction false} GlobalsOutside(t: Tree, refs: Env<Ref>, n: nat, x: nat, addr: bool)
    requires Use(Global(x), addr) in Uses(t, refs, n) && NoGlobals(refs)
    ensures Lookup(refs, x).None?
    decreases t, 0
  {
    hide Lookup, NoGlobals;
    match t
    case Ident(s) => BoundGlobal(s.id, refs, x);
    case Block(items) => BlockGlobals(items, [], refs, n, x, addr);
    case Addr(a) => if a.Ident? { BoundGlobal(a.name.id, refs, x); } else { GlobalsOutside(a, refs, n, x, addr); }
    case Node(items) => AllGlobals(items, refs, n, x, addr);
    case Decl(_, _) =>
  }

  lemma BoundGlobal(s: nat, refs: Env<Ref>, x: nat)
    requires Bound(s, refs) == Global(x) && NoGlobals(refs)
    ensures Lookup(refs, x).None?
  {
    hide Lookup;
    LookupNoGlobals(refs, s);
  }

  ghost predicate NoGlobals(refs: Env<Ref>) {
    match refs
    case Top => true
    case Scope(ids, up) => (forall i :: 0 <= i < |ids| ==> !ids[i].1.Global?) && NoGlobals(up)
  }

  lemma {:induction false} FindNoGlobals(ids: seq<(nat, Ref)>, x: nat)
    requires forall i :: 0 <= i < |ids| ==> !ids[i].1.Global?
    ensures Find(ids, x).Some? ==> !Find(ids, x).value.Global?
    decreases |ids|
  {
    if ids != [] && ids[0].0 != x { FindNoGlobals(ids[1..], x); }
  }

  lemma {:induction false} LookupNoGlobals(refs: Env<Ref>, x: nat)
    requires NoGlobals(refs)
    ensures Lookup(refs, x).Some? ==> !Lookup(refs, x).value.Global?
  {
    match refs
    case Top =>
    case Scope(ids, up) => FindNoGlobals(ids, x); LookupNoGlobals(up, x);
  }

  lemma {:induction false} AllGlobals(ts: Trees, refs: Env<Ref>, n: nat, x: nat, addr: bool)
    requires Use(Global(x), addr) in UsesAll(ts, refs, n) && NoGlobals(refs)
    ensures Lookup(refs, x).None?
    decreases ts, 0
  {
    hide Lookup, NoGlobals, Uses;
    match ts
    case Cons(h, tl) =>
      if Use(Global(x), addr) in Uses(h, refs, n) { GlobalsOutside(h, refs, n, x, addr); }
      else { AllGlobals(tl, refs, n + Count(h), x, addr); }
    case Nil =>
  }

  lemma {:induction false} BlockGlobals(ts: Trees, ids: seq<(nat, Ref)>, refs: Env<Ref>, n: nat, x: nat, addr: bool)
    requires Use(Global(x), addr) in UsesBlock(ts, ids, refs, n) && NoGlobals(refs)
    requires forall i :: 0 <= i < |ids| ==> !ids[i].1.Global?
    ensures Lookup(refs, x).None?
    decreases ts, 1
  {
    hide Lookup, NoGlobals, Uses, Find;
    match ts
    case Cons(h, tl) =>
      if h.Decl? {
        BlockGlobals(tl, ids + [(h.name.id, Local(n))], refs, n + 1, x, addr);
      } else if Use(Global(x), addr) in Uses(h, Scope(ids, refs), n) {
        ScopeNoGlobals(ids, refs);
        GlobalsOutside(h, Scope(ids, refs), n, x, addr);
        OuterNone(ids, refs, x);
      } else {
        BlockGlobals(tl, ids, refs, n + Count(h), x, addr);
      }
    case Nil =>
  }

  lemma ScopeNoGlobals(ids: seq<(nat, Ref)>, refs: Env<Ref>)
    requires NoGlobals(refs) && forall i :: 0 <= i < |ids| ==> !ids[i].1.Global?
    ensures NoGlobals(Scope(ids, refs))
  {}

  lemma OuterNone(ids: seq<(nat, Ref)>, refs: Env<Ref>, x: nat)
    requires Lookup(Scope(ids, refs), x).None?
    ensures Lookup(refs, x).None?
  {}

  /** Capture is the only change, and it happens exactly when an outside name is a local's. */
  lemma ClearIff(params: seq<Param>, us: seq<Use>, F: State, st: State, body: Tree, env: Env<Sym>, refs: Env<Ref>)
    requires st == State([], params) && env == Scope(ParamIds(params), Top) && refs == Scope(ParamRefs(params), Top)
    requires us == Uses(body, refs, 0) && Covers(env, st) && Agree(env, refs, st) && Extends(F, st)
    ensures CapturedAll(us, F) == us <==> Clear(us, F.locals)
  {
    ParamRefsNoGlobals(params);
    hide Uses, Covers, Agree, Listed, ParamIds, ParamRefs, NoGlobals;
    forall i | 0 <= i < |us|
      ensures Captured(us[i], F) == us[i] <==> (us[i].ref.Global? ==> !Listed(F.locals, Orig(us[i].ref.id)))
    {
      if us[i].ref.Global? {
        var x := us[i].ref.id;
        GlobalsOutside(body, refs, 0, x, us[i].addr);
        NotParam(env, refs, st, F, x);
      }
    }
    hide Captured, Extends;
    if CapturedAll(us, F) == us {
      forall u | u in us && u.ref.Global?
        ensures !Listed(F.locals, Orig(u.ref.id))
      {
        var i :| 0 <= i < |us| && us[i] == u;
        assert CapturedAll(us, F)[i] == Captured(u, F);
      }
    }
  }

  lemma ParamRefsNoGlobals(params: seq<Param>)
    ensures NoGlobals(Scope(ParamRefs(params), Top))
  {
    hide ParamRefs;
  }

  lemma NotParam(env: Env<Sym>, refs: Env<Ref>, st: State, F: State, x: nat)
    requires Covers(env, st) && Agree(env, refs, st) && Extends(F, st) && Lookup(refs, x).None?
    ensures !ParamListed(F.params, x)
  {
    hide Lookup, Agree;
    LookupAgrees(env, refs, st, x);
    ExtendsListed(F, st, x);
  }

  /** The variables marked automatic are exactly those declared so and those whose address is taken, and no register
      variable's address is. An outside name that an earlier declaration in the text has taken counts as that local. */
  lemma HoistingMarks(params: seq<Param>, body: Tree, flat: Tree, F: State)
    requires Source(body) && HoistsTo(params, body, flat, F)
    ensures Did(State([], params), F, Decls(body), BodyEarlyUses(params, body), Declares(body))
    ensures Marks(State([], params), F, Decls(body), BodyEarlyUses(params, body))
    ensures NothingCaptured(params, body) ==> BodyEarlyUses(params, body) == BodyUses(params, body)
  {
    StartState(params);
    StartNames(params);
    hide HoistTree, Uses, Inv, Covers, Agree, Marks, Named, Visible, ParamIds, ParamRefs, EarlyUses, SameIds, NothingCaptured, Within;
    TreeMarks(body, Scope(ParamIds(params), Top), Scope(ParamRefs(params), Top), State([], params), []);
    assert [] + Declares(body) == Declares(body);
    if NothingCaptured(params, body) { NothingEarly(params, body); }
  }

  lemma NothingEarly(params: seq<Param>, body: Tree)
    requires NothingCaptured(params, body)
    ensures BodyEarlyUses(params, body) == BodyUses(params, body)
  {
    hide Uses, EarlyUses, ParamRefs, Declares;
    EarlySame(body, Scope(ParamRefs(params), Top), [], Declares(body));
  }

  /** Without capture, uses are the same early or late. */
  lemma {:induction false} EarlySame(t: Tree, env: Env<Ref>, seen: seq<nat>, all: seq<nat>)
    requires forall u :: u in Uses(t, env, |seen|) && u.ref.Global? ==> u.ref.id !in all
    requires (forall x :: x in seen ==> x in all) && forall x :: x in Declares(t) ==> x in all
    ensures EarlyUses(t, env, seen) == Uses(t, env, |seen|)
    decreases t, 0
  {
    hide Bound, First;
    match t
    case Ident(s) => assert Use(Bound(s.id, env), false) in Uses(t, env, |seen|);
    case Decl(_, _) =>
    case Block(items) => EarlyBlockSame(items, [], env, seen, all);
    case Addr(a) =>
      if a.Ident? { assert Use(Bound(a.name.id, env), true) in Uses(t, env, |seen|); } else { EarlySame(a, env, seen, all); }
    case Node(items) => EarlyAllSame(items, env, seen, all);
  }

  lemma {:induction false} EarlyAllSame(ts: Trees, env: Env<Ref>, seen: seq<nat>, all: seq<nat>)
    requires forall u :: u in UsesAll(ts, env, |seen|) && u.ref.Global? ==> u.ref.id !in all
    requires (forall x :: x in seen ==> x in all) && forall x :: x in DeclaresAll(ts) ==> x in all
    ensures EarlyAll(ts, env, seen) == UsesAll(ts, env, |seen|)
    decreases ts, 0
  {
    hide Uses, EarlyUses, Declares, Count;
    match ts
    case Nil =>
    case Cons(h, tl) =>
      EarlySame(h, env, seen, all);
      EarlyAllSame(tl, env, seen + Declares(h), all);
  }

  lemma {:induction false} EarlyBlockSame(ts: Trees, ids: seq<(nat, Ref)>, up: Env<Ref>, seen: seq<nat>, all: seq<nat>)
    requires forall u :: u in UsesBlock(ts, ids, up, |seen|) && u.ref.Global? ==> u.ref.id !in all
    requires (forall x :: x in seen ==> x in all) && forall x :: x in DeclaresAll(ts) ==> x in all
    ensures EarlyBlock(ts, ids, up, seen) == UsesBlock(ts, ids, up, |seen|)
    decreases ts, 1
  {
    hide Uses, EarlyUses, Count;
    match ts
    case Nil =>
    case Cons(h, tl) =>
      if h.Decl? {
        assert Declares(h) == [h.name.id];
        EarlyBlockSame(tl, ids + [(h.name.id, Local(|seen|))], up, seen + [h.name.id], all);
      } else {
        hide Declares;
        EarlySame(h, Scope(ids, up), seen, all);
        EarlyBlockSame(tl, ids, up, seen + Declares(h), all);
      }
  }

  /** `{ g; { int g; } }`: the use of the global `g` is captured by the local hoisted out of the inner block. */
  lemma GlobalIsCaptured(g: nat)
    ensures var body := Block(Cons(Ident(Orig(g)), Cons(Block(Cons(Decl(Orig(g), Plain), Nil)), Nil)));
            var flat := Block(Cons(Ident(Orig(g)), Cons(Block(Nil), Nil)));
            var F := State([Var(Orig(g), Plain)], []);
            && HoistsTo([], body, flat, F)
            && BodyUses([], body) == [Use(Global(g), false)] && FlatUses(flat, F) == [Use(Local(0), false)]
  {
    var inner := Cons(Decl(Orig(g), Plain), Nil);
    var rest := Cons(Block(inner), Nil);
    var F, up := State([Var(Orig(g), Plain)], []), Scope([], Scope([], Top));
    assert ParamIds([]) == [] && ParamRefs([]) == [];
    assert [] + [Var(Orig(g), Plain)] == F.locals;
    NotFound<Sym>(g);
    assert NewName(g, [], up, []) == Some(Orig(g));
    assert HoistBlock(Nil, [(g, Orig(g))], up, F) == Some((Nil, F));
    assert HoistBlock(inner, [], up, State([], [])) == Some((Nil, F));
    assert HoistTree(Block(inner), up, State([], [])) == Some((Block(Nil), F));
    assert HoistBlock(Nil, [], Scope([], Top), F) == Some((Nil, F));
    assert HoistBlock(rest, [], Scope([], Top), State([], [])) == Some((Cons(Block(Nil), Nil), F));
    var use := Ident(Orig(g));
    assert HoistTree(use, up, State([], [])) == Some((use, State([], [])));
    var all := HoistBlock(Cons(use, rest), [], Scope([], Top), State([], []));
    assert all == Some((Cons(use, Cons(Block(Nil), Nil)), F));
    assert HoistTree(Block(Cons(use, rest)), Scope([], Top), State([], [])) == Some((Block(all.value.0), F));
    CapturedUses(g);
  }

  lemma NotFound<T>(g: nat)
    ensures Lookup<T>(Scope([], Scope([], Top)), g).None? && Lookup<T>(Scope([], Top), g).None?
  {
    assert Lookup<T>(Top, g).None?;
  }

  lemma CapturedUses(g: nat)
    ensures var body := Block(Cons(Ident(Orig(g)), Cons(Block(Cons(Decl(Orig(g), Plain), Nil)), Nil)));
            var flat := Block(Cons(Ident(Orig(g)), Cons(Block(Nil), Nil)));
            BodyUses([], body) == [Use(Global(g), false)] && FlatUses(flat, State([Var(Orig(g), Plain)], [])) == [Use(Local(0), false)]
  {
    var up := Scope([], Scope([], Top));
    assert ParamRefs([]) == [];
    NotFound<Ref>(g);
    var inner := Cons(Decl(Orig(g), Plain), Nil);
    assert UsesBlock(Nil, [(g, Local(0))], up, 1) == [] && UsesBlock(inner, [], up, 0) == [];
    assert UsesBlock(Nil, [], Scope([], Top), 1) == [];
    assert Uses(Ident(Orig(g)), Scope([], Scope([], Top)), 0) == [Use(Global(g), false)];
    assert UsesBlock(Cons(Block(inner), Nil), [], Scope([], Top), 0) == [];
    assert FlatAll(Nil, State([Var(Orig(g), Plain)], [])) == [];
    assert Listed([Var(Orig(g), Plain)], Orig(g)) by { assert [Var(Orig(g), Plain)][0].name == Orig(g); }
    var F := State([Var(Orig(g), Plain)], []);
    assert FlatAll(Cons(Block(Nil), Nil), F) == [];
    var use, rest := Ident(Orig(g)), Cons(Block(inner), Nil);
    assert UsesBlock(Cons(use, rest), [], Scope([], Top), 0) == [Use(Global(g), false)] + [];
    assert Uses(Block(Cons(use, rest)), Scope([], Top), 0) == [Use(Global(g), false)];
    assert FlatAll(Cons(use, Cons(Block(Nil), Nil)), F) == [Use(Local(0), false)] + [];
    assert FlatUses(Block(Cons(use, Cons(Block(Nil), Nil))), F) == [Use(Local(0), false)];
  }

  // ---------- in place ----------

  /** The nodes finished so far before the rest. */
  function Before(done: seq<Tree>, ts: Trees): Trees
    decreases |done|
  {
    if done == [] then ts else Before(done[..|done| - 1], Cons(done[|done| - 1], ts))
  }

  ghost function Joined(done: seq<Tree>, r: Option<(Trees, State)>): Option<(Trees, State)> {
    if r.None? then None else Some((Before(done, r.value.0), r.value.1))
  }

  lemma JoinedMore(done: seq<Tree>, h: Tree, r: Option<(Trees, State)>)
    ensures Joined(done + [h], r) == Joined(done, if r.None? then None else Some((Cons(h, r.value.0), r.value.1)))
  {
    assert (done + [h])[..|done|] == done;
  }

  class Hoister {
    var locals: seq<Var>
    var params: seq<Param>

    constructor (params: seq<Param>)
      ensures Now() == State([], params)
    {
      this.locals, this.params := [], params;
    }

    ghost function Now(): State
      reads this
    {
      State(locals, params)
    }

    /** Marks the variable named `s`, a local or else a parameter. */
    method MarkAuto(s: Sym) returns (ok: bool)
      modifies this
      ensures ok <==> Mark(old(Now()), s).Some?
      ensures ok ==> Now() == Mark(old(Now()), s).value
    {
      var i := 0;
      while i < |locals| && locals[i].name != s
        invariant 0 <= i <= |locals| && forall j :: 0 <= j < i ==> locals[j].name != s
      {
        i := i + 1;
      }
      if i < |locals| {
        assert Listed(locals, s);
        if locals[i].sc == Register { return false; }
        locals := locals[i := Var(s, Auto)];
        return true;
      }
      i := 0;
      while i < |params| && !(s.Orig? && params[i].id == s.id)
        invariant 0 <= i <= |params| && forall j :: 0 <= j < i ==> !(s.Orig? && params[j].id == s.id)
      {
        i := i + 1;
      }
      if i < |params| {
        assert ParamListed(params, s.id);
        if params[i].sc == Plain { params := params[i := Param(s.id, Auto)]; }
      }
      ok := true;
    }

    /** `expr_hoist_locals`; no result is an error exit. */
    method Expr(t: Tree, env: Env<Sym>) returns (r: Option<Tree>)
      requires Source(t)
      modifies this
      ensures r.Some? <==> HoistTree(t, env, old(Now())).Some?
      ensures r.Some? ==> HoistTree(t, env, old(Now())) == Some((r.value, Now()))
      decreases t, 0
    {
      hide Mark, Renamed;
      match t {
        case Ident(s) => r := Some(Ident(Renamed(s, env)));
        case Decl(_, _) => r := None;
        case Block(items) =>
          var q := BlockItems(items, env);
          r := if q.None? then None else Some(Block(q.value));
        case Addr(a) =>
          r := Expr(a, env);
          if r.Some? {
            if a.Ident? {
              var ok := MarkAuto(r.value.name);
              if !ok { return None; }
            }
            r := Some(Addr(r.value));
          }
        case Node(items) =>
          var q := Items(items, env);
          r := if q.None? then None else Some(Node(q.value));
      }
    }

    method Items(ts: Trees, env: Env<Sym>) returns (r: Option<Trees>)
      requires SourceAll(ts)
      modifies this
      ensures r.Some? <==> HoistAll(ts, env, old(Now())).Some?
      ensures r.Some? ==> HoistAll(ts, env, old(Now())) == Some((r.value, Now()))
      decreases ts, 0
    {
      hide HoistTree, Source;
      ghost var was := Now();
      var rest, done := ts, [];
      while rest.Cons?
        invariant (rest == ts || rest < ts) && SourceAll(rest) && HoistAll(ts, env, was) == Joined(done, HoistAll(rest, env, Now()))
        decreases rest
      {
        var h, tl := rest.head, rest.tail;
        ItemsRest(h, tl);
        ItemSmaller(h, tl, rest, ts);
        var one := Expr(h, env);
        if one.None? { return None; }
        JoinedMore(done, one.value, HoistAll(tl, env, Now()));
        rest, done := tl, done + [one.value];
      }
      r := Some(Before(done, Nil));
    }

    /** The items of a block: declarations move to the list under their new names. */
    method BlockItems(ts: Trees, up: Env<Sym>) returns (r: Option<Trees>)
      requires SourceAll(ts)
      modifies this
      ensures r.Some? <==> HoistBlock(ts, [], up, old(Now())).Some?
      ensures r.Some? ==> HoistBlock(ts, [], up, old(Now())) == Some((r.value, Now()))
      decreases ts, 1
    {
      hide HoistTree, Source, NewName;
      ghost var was := Now();
      var rest, done := ts, [];
      var ids: seq<(nat, Sym)> := [];
      while rest.Cons?
        invariant (rest == ts || rest < ts) && SourceAll(rest)
        invariant HoistBlock(ts, [], up, was) == Joined(done, HoistBlock(rest, ids, up, Now()))
        decreases rest
      {
        var h, tl := rest.head, rest.tail;
        ItemsRest(h, tl);
        ItemSmaller(h, tl, rest, ts);
        if h.Decl? {
          var n := NewName(h.name.id, ids, up, locals);
          if n.None? { return None; }
          ids := ids + [(h.name.id, n.value)];
          locals := locals + [Var(n.value, h.sc)];
        } else {
          var one := Expr(h, Scope(ids, up));
          if one.None? { return None; }
          JoinedMore(done, one.value, HoistBlock(tl, ids, up, Now()));
          done := done + [one.value];
        }
        rest := tl;
      }
      r := Some(Before(done, Nil));
    }
  }

  lemma ItemsRest(h: Tree, tl: Trees)
    requires SourceAll(Cons(h, tl))
    ensures Source(h) && SourceAll(tl)
  {}

  lemma ItemSmaller(h: Tree, tl: Trees, rest: Trees, ts: Trees)
    requires rest == Cons(h, tl) && (rest == ts || rest < ts)
    ensures h < ts && tl < ts
  {}

  /** `fundef_hoist_locals`: the locals to put at the start of the body, and the body without declarations. */
  method HoistFunction(params: seq<Param>, body: Tree) returns (ok: bool, flat: Tree, F: State)
    requires Source(body) && body.Block?
    ensures ok ==> HoistsTo(params, body, flat, F)
    ensures ok <==> ParamsDistinct(State([], params)) && HoistTree(body, Scope(ParamIds(params), Top), State([], params)).Some?
  {
    hide HoistTree, ParamIds, Source;
    flat, F := body, State([], params);
    var ids, i := [], 0;
    while i < |params|
      invariant 0 <= i <= |params| && ids == ParamIds(params)[..i]
      invariant forall j, k :: 0 <= j < k < i ==> params[j].id != params[k].id
    {
      if j :| 0 <= j < i && params[j].id == params[i].id { return false, flat, F; }
      ids := ids + [(params[i].id, Orig(params[i].id))];
      i := i + 1;
    }
    assert ids == ParamIds(params);
    var h := new Hoister(params);
    var r := h.Expr(body, Scope(ids, Top));
    if r.None? { return false, flat, F; }
    ok, flat, F := true, r.value, State(h.locals, h.params);
  }
}
