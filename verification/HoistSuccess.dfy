/** For which functions hoisting succeeds, told from their declarations and the addresses they take. */
module HoistSuccess {
  import opened Hoist
  import opened HoistProof
  import opened HoistFunction

  /** Declarations stand directly in blocks only, and no block declares a name twice. */
  predicate Placed(t: Tree)
    decreases t, 0
  {
    match t
    case Ident(_) => true
    case Decl(_, _) => false
    case Block(items) => PlacedItems(items, [])
    case Addr(a) => Placed(a)
    case Node(items) => PlacedAll(items)
  }

  predicate PlacedAll(ts: Trees)
    decreases ts, 0
  {
    match ts
    case Nil => true
    case Cons(h, tl) => Placed(h) && PlacedAll(tl)
  }

  /** The items of a block that has declared `names` before. */
  predicate PlacedItems(ts: Trees, names: seq<nat>)
    decreases ts, 1
  {
    match ts
    case Nil => true
    case Cons(h, tl) =>
      if h.Decl? then h.name.id !in names && PlacedItems(tl, names + [h.name.id]) else Placed(h) && PlacedItems(tl, names)
  }

  /** No address of a register variable is taken: `us` are the uses, `d` the storage of what is declared after `st`. */
  ghost predicate NoRegister(st: State, d: seq<Storage>, us: seq<Use>) {
    forall k: nat :: Use(Local(k), true) in us && k < |st.locals| + |d| ==> Declared(st, d, k) != Register
  }

  ghost predicate NamesOf(ids: seq<(nat, Sym)>, names: seq<nat>) { forall x :: Find(ids, x).Some? <==> x in names }

  lemma NamesMore(ids: seq<(nat, Sym)>, names: seq<nat>, x: nat, s: Sym)
    requires NamesOf(ids, names)
    ensures NamesOf(ids + [(x, s)], names + [x])
  {
    forall y
      ensures Find(ids + [(x, s)], y).Some? <==> y in names + [x]
    {
      FindMore(ids, x, s, y);
    }
    hide Find;
  }

  lemma RegisterParts(st: State, m: State, d: seq<Storage>, e: seq<Storage>, us: seq<Use>, vs: seq<Use>)
    requires Marks(st, m, d, us) && Within(us, |m.locals|)
    ensures NoRegister(st, d + e, us + vs) <==> NoRegister(m, e, vs)
  {
    var n := |m.locals|;
    forall k: nat | k < n + |e|
      ensures Declared(st, d + e, k) == if k < n then Declared(st, d, k) else e[k - n]
    {}
    if NoRegister(st, d + e, us + vs) {
      forall k: nat | Use(Local(k), true) in vs && k < n + |e|
        ensures Declared(m, e, k) != Register
      {
        assert Use(Local(k), true) in us + vs;
      }
    }
    if NoRegister(m, e, vs) {
      forall k: nat | Use(Local(k), true) in us + vs && k < n + |e|
        ensures Declared(st, d + e, k) != Register
      {
        if k < n && Use(Local(k), true) !in us { assert Declared(m, e, k) == Declared(st, d, k); }
      }
    }
  }

  lemma RegisterFirst(st: State, d: seq<Storage>, e: seq<Storage>, us: seq<Use>, vs: seq<Use>)
    requires NoRegister(st, d + e, us + vs)
    ensures NoRegister(st, d, us)
  {
    forall k: nat | Use(Local(k), true) in us && k < |st.locals| + |d|
      ensures Declared(st, d, k) != Register
    {
      assert Use(Local(k), true) in us + vs;
      assert Declared(st, d + e, k) == Declared(st, d, k);
    }
  }

  lemma RegisterDeclared(st: State, v: Var, e: seq<Storage>, us: seq<Use>)
    ensures NoRegister(st.(locals := st.locals + [v]), e, us) <==> NoRegister(st, [v.sc] + e, us)
  {
    var m := st.(locals := st.locals + [v]);
    forall k: nat | k < |m.locals| + |e|
      ensures Declared(m, e, k) == Declared(st, [v.sc] + e, k)
    {}
  }

  lemma MarkSucceeds(st: State, s: Sym)
    ensures Mark(st, s).Some? <==> NoRegister(st, [], [Use(RefOf(s, st), true)])
  {
    var us := [Use(RefOf(s, st), true)];
    if Listed(st.locals, s) {
      var i := IndexOf(st.locals, s);
      assert Use(Local(i), true) in us && Declared(st, [], i) == st.locals[i].sc;
    }
    hide IndexOf, ParamIndex;
  }

  ghost predicate Ready(env: Env<Sym>, refs: Env<Ref>, st: State, seen: seq<nat>) {
    Inv(st) && Covers(env, st) && Agree(env, refs, st) && ParamsDistinct(st) && Named(st, seen) && Visible(env, st.params, seen)
  }

  /** Hoisting a tree succeeds exactly when its declarations are placed and no address of a register variable is taken. */
  lemma {:induction false} TreeSucceeds(t: Tree, env: Env<Sym>, refs: Env<Ref>, st: State, seen: seq<nat>)
    requires Source(t) && Ready(env, refs, st, seen)
    ensures HoistTree(t, env, st).Some? <==> Placed(t) && NoRegister(st, Decls(t), EarlyUses(t, refs, seen))
    decreases t, 0
  {
    hide Ready, Mark, Renamed, Bound, Early, NamesOf, Find;
    match t
    case Ident(s) =>
    case Decl(_, _) =>
    case Block(items) =>
      NoNames();
      InnerReady(env, refs, st, seen);
      hide NoRegister;
      BlockSucceeds(items, [], [], env, refs, st, seen, []);
    case Addr(a) =>
      if a.Ident? {
        ReadyUse(a.name.id, env, refs, st, seen);
        MarkSucceeds(st, Renamed(a.name, env));
      } else {
        hide NoRegister;
        TreeSucceeds(a, env, refs, st, seen);
      }
    case Node(items) =>
      hide NoRegister;
      AllSucceeds(items, env, refs, st, seen);
  }

  lemma NoNames()
    ensures NamesOf([], [])
  {}

  lemma ReadyUse(x: nat, env: Env<Sym>, refs: Env<Ref>, st: State, seen: seq<nat>)
    requires Ready(env, refs, st, seen)
    ensures RefOf(Renamed(Orig(x), env), st) == Early(Bound(x, refs), seen)
  {
    hide Inv, Covers, Agree, ParamsDistinct, Named, Visible, Renamed, RefOf, Bound, Early;
    EarlyUse(x, env, refs, st, seen);
  }

  /** What a block starts with, and each of its items. */
  ghost predicate InBlock(ids: seq<(nat, Sym)>, irefs: seq<(nat, Ref)>, up: Env<Sym>, refs: Env<Ref>, st: State, seen: seq<nat>) {
    && Inv(st) && Covers(up, st) && AgreeIds(ids, irefs, st) && Agree(up, refs, st) && ParamsDistinct(st)
    && Named(st, seen) && Visible(Scope(ids, up), st.params, seen)
  }

  lemma InnerReady(env: Env<Sym>, refs: Env<Ref>, st: State, seen: seq<nat>)
    requires Ready(env, refs, st, seen)
    ensures InBlock([], [], env, refs, st, seen)
  {
    AgreeNone(st);
    VisibleInner([], env, st.params, seen);
    hide Inv, Covers, Agree, ParamsDistinct, Named, Visible, AgreeIds;
  }

  lemma ScopeReady(ids: seq<(nat, Sym)>, irefs: seq<(nat, Ref)>, up: Env<Sym>, refs: Env<Ref>, st: State, seen: seq<nat>)
    requires InBlock(ids, irefs, up, refs, st, seen)
    ensures Ready(Scope(ids, up), Scope(irefs, refs), st, seen)
  {
    CoversInner(ids, up, st);
    AgreeScope(ids, irefs, up, refs, st);
    hide Inv, Covers, Agree, ParamsDistinct, Named, Visible, AgreeIds;
  }

  /** After a tree that was hoisted: the same holds, and its marks are those of its uses. */
  lemma AfterReady(t: Tree, env: Env<Sym>, refs: Env<Ref>, st: State, seen: seq<nat>)
    requires Source(t) && Ready(env, refs, st, seen) && HoistTree(t, env, st).Some?
    ensures var m := HoistTree(t, env, st).value.1;
            && Ready(env, refs, m, seen + Declares(t)) && Extends(m, st)
            && Marks(st, m, Decls(t), EarlyUses(t, refs, seen)) && Within(EarlyUses(t, refs, seen), |m.locals|)
  {
    hide Inv, Extends, Covers, Agree, ParamsDistinct, Named, Visible, HoistTree, EarlyUses, Decls, Declares, Marks, Within, SameIds;
    var m := HoistTree(t, env, st).value.1;
    TreeState(t, env, st);
    TreeMarks(t, env, refs, st, seen);
    hide Did;
    AfterTree(st, m, env, refs, Decls(t), EarlyUses(t, refs, seen), seen, Declares(t));
    DidParts(st, m, Decls(t), EarlyUses(t, refs, seen), seen + Declares(t));
  }

  lemma DidParts(st: State, m: State, d: seq<Storage>, us: seq<Use>, seen: seq<nat>)
    requires Did(st, m, d, us, seen)
    ensures Marks(st, m, d, us) && Within(us, |m.locals|)
  {
    hide Marks, Named, SameIds;
  }

  lemma {:induction false} AllSucceeds(ts: Trees, env: Env<Sym>, refs: Env<Ref>, st: State, seen: seq<nat>)
    requires SourceAll(ts) && Ready(env, refs, st, seen)
    ensures HoistAll(ts, env, st).Some? <==> PlacedAll(ts) && NoRegister(st, DeclsAll(ts), EarlyAll(ts, refs, seen))
    decreases ts, 0
  {
    hide Ready, HoistTree, EarlyUses, Decls, Declares, Placed, Marks, Within, Extends;
    match ts
    case Nil =>
    case Cons(h, tl) =>
      hide NoRegister;
      TreeSucceeds(h, env, refs, st, seen);
      var d, e, us, vs := Decls(h), DeclsAll(tl), EarlyUses(h, refs, seen), EarlyAll(tl, refs, seen + Declares(h));
      if HoistTree(h, env, st).Some? {
        var m := HoistTree(h, env, st).value.1;
        AfterReady(h, env, refs, st, seen);
        AllSucceeds(tl, env, refs, m, seen + Declares(h));
        RegisterParts(st, m, d, e, us, vs);
      } else if NoRegister(st, d + e, us + vs) {
        RegisterFirst(st, d, e, us, vs);
      }
  }

  lemma {:induction false} BlockSucceeds(ts: Trees, ids: seq<(nat, Sym)>, irefs: seq<(nat, Ref)>, up: Env<Sym>, refs: Env<Ref>, st: State,
                                         seen: seq<nat>, names: seq<nat>)
    requires SourceAll(ts) && InBlock(ids, irefs, up, refs, st, seen) && NamesOf(ids, names)
    ensures HoistBlock(ts, ids, up, st).Some? <==> PlacedItems(ts, names) && NoRegister(st, DeclsAll(ts), EarlyBlock(ts, irefs, refs, seen))
    decreases ts, 1
  {
    hide InBlock, Ready, HoistTree, EarlyUses, Placed, Marks, Within, Extends, NewName;
    match ts
    case Nil =>
    case Cons(h, tl) =>
      hide NoRegister;
      if h.Decl? {
        var x := h.name.id;
        NewNameIff(x, ids, up, st, names);
        assert Decls(h) == [h.sc];
        if x !in names {
          var n := NewName(x, ids, up, st.locals).value;
          var m := st.(locals := st.locals + [Var(n, h.sc)]);
          NextReady(x, n, h.sc, ids, irefs, up, refs, st, seen);
          NamesMore(ids, names, x, n);
          hide NamesOf;
          BlockSucceeds(tl, ids + [(x, n)], irefs + [(x, Local(|seen|))], up, refs, m, seen + [x], names + [x]);
          RegisterDeclared(st, Var(n, h.sc), DeclsAll(tl), EarlyBlock(tl, irefs + [(x, Local(|seen|))], refs, seen + [x]));
        }
      } else {
        ItemSucceeds(h, tl, ids, irefs, up, refs, st, seen, names);
      }
  }

  lemma NewNameIff(x: nat, ids: seq<(nat, Sym)>, up: Env<Sym>, st: State, names: seq<nat>)
    requires NamesOf(ids, names)
    ensures NewName(x, ids, up, st.locals).Some? <==> x !in names
  {
    hide Find, Lookup, Listed;
  }

  lemma NextReady(x: nat, n: Sym, sc: Storage, ids: seq<(nat, Sym)>, irefs: seq<(nat, Ref)>, up: Env<Sym>, refs: Env<Ref>, st: State,
                  seen: seq<nat>)
    requires InBlock(ids, irefs, up, refs, st, seen) && NewName(x, ids, up, st.locals) == Some(n)
    ensures InBlock(ids + [(x, n)], irefs + [(x, Local(|seen|))], up, refs, st.(locals := st.locals + [Var(n, sc)]), seen + [x])
  {
    hide Inv, Covers, Agree, ParamsDistinct, Named, Visible, AgreeIds, NewName;
    DeclareNext(x, n, sc, ids, irefs, up, refs, st, seen);
  }

  /** An item that is no declaration. */
  lemma {:induction false} ItemSucceeds(h: Tree, tl: Trees, ids: seq<(nat, Sym)>, irefs: seq<(nat, Ref)>, up: Env<Sym>, refs: Env<Ref>,
                                        st: State, seen: seq<nat>, names: seq<nat>)
    requires !h.Decl? && Source(h) && SourceAll(tl) && InBlock(ids, irefs, up, refs, st, seen) && NamesOf(ids, names)
    ensures HoistBlock(Cons(h, tl), ids, up, st).Some? <==>
            PlacedItems(Cons(h, tl), names) && NoRegister(st, DeclsAll(Cons(h, tl)), EarlyBlock(Cons(h, tl), irefs, refs, seen))
    decreases Cons(h, tl), 0
  {
    hide InBlock, Ready, HoistTree, EarlyUses, Decls, Declares, Placed, Marks, Within, Extends, NamesOf, NoRegister;
    var env, srefs := Scope(ids, up), Scope(irefs, refs);
    ScopeReady(ids, irefs, up, refs, st, seen);
    TreeSucceeds(h, env, srefs, st, seen);
    var d, e, us, vs := Decls(h), DeclsAll(tl), EarlyUses(h, srefs, seen), EarlyBlock(tl, irefs, refs, seen + Declares(h));
    if HoistTree(h, env, st).Some? {
      var m := HoistTree(h, env, st).value.1;
      AfterReady(h, env, srefs, st, seen);
      BlockAfter(ids, irefs, up, refs, st, m, seen, Declares(h));
      BlockSucceeds(tl, ids, irefs, up, refs, m, seen + Declares(h), names);
      RegisterParts(st, m, d, e, us, vs);
    } else if NoRegister(st, d + e, us + vs) {
      RegisterFirst(st, d, e, us, vs);
    }
  }

  lemma BlockAfter(ids: seq<(nat, Sym)>, irefs: seq<(nat, Ref)>, up: Env<Sym>, refs: Env<Ref>, st: State, m: State, seen: seq<nat>,
                   more: seq<nat>)
    requires InBlock(ids, irefs, up, refs, st, seen) && Ready(Scope(ids, up), Scope(irefs, refs), m, seen + more) && Extends(m, st)
    ensures InBlock(ids, irefs, up, refs, m, seen + more)
  {
    hide Inv, Covers, Agree, ParamsDistinct, Named, Visible, AgreeIds, Extends;
    CoversExtends(up, m, st);
    AgreeUnscope(ids, irefs, up, refs, m);
  }

  /** A function can be hoisted exactly when its parameters differ, its declarations stand directly in blocks, each block
      declares different names, and no `&` is applied to a register variable; a name from outside that an earlier
      declaration has taken counts as that variable. */
  lemma HoistsExactly(params: seq<Param>, body: Tree)
    requires Source(body)
    ensures (exists flat, F :: HoistsTo(params, body, flat, F)) <==>
            ParamsDistinct(State([], params)) && Placed(body)
            && forall k: nat :: Use(Local(k), true) in BodyEarlyUses(params, body) && k < |Decls(body)| ==> Decls(body)[k] != Register
  {
    var env, refs, st := Scope(ParamIds(params), Top), Scope(ParamRefs(params), Top), State([], params);
    StartState(params);
    StartNames(params);
    hide HoistTree, Placed, Inv, Covers, Agree, Named, Visible, ParamIds, ParamRefs, EarlyUses;
    if ParamsDistinct(st) { TreeSucceeds(body, env, refs, st, []); }
    assert forall k: nat :: k < |Decls(body)| ==> Declared(st, Decls(body), k) == Decls(body)[k];
    hide Decls, ParamsDistinct;
    if ParamsDistinct(st) && HoistTree(body, env, st).Some? {
      var r := HoistTree(body, env, st).value;
      assert HoistsTo(params, body, r.0, r.1);
    }
  }
}
