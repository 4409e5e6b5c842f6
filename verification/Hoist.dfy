/** Hoisting of block-local variables to the start of a function, with renaming, against C's block scoping. */
module Hoist {
  datatype Option<T> = None | Some(value: T)

  datatype Storage = Plain | Auto | Register | Static

  /** A source name, or one made from a name and a number; source names never look like the latter. */
  datatype Sym = Orig(id: nat) | Numbered(id: nat, k: nat)

  datatype Var = Var(name: Sym, sc: Storage)
  datatype Param = Param(id: nat, sc: Storage)

  /** A body: names, declarations, blocks, address-of, and every other node with its parts. */
  datatype Tree = Ident(name: Sym) | Decl(name: Sym, sc: Storage) | Block(items: Trees) | Addr(arg: Tree) | Node(items: Trees)
  datatype Trees = Nil | Cons(head: Tree, tail: Trees)

  /** Nested scopes of names, innermost first. */
  datatype Env<T> = Top | Scope(ids: seq<(nat, T)>, up: Env<T>)

  function Find<T>(ids: seq<(nat, T)>, x: nat): Option<T> {
    if ids == [] then None else if ids[0].0 == x then Some(ids[0].1) else Find(ids[1..], x)
  }

  function Lookup<T>(env: Env<T>, x: nat): Option<T> {
    match env
    case Top => None
    case Scope(ids, up) => if Find(ids, x).Some? then Find(ids, x) else Lookup(up, x)
  }

  /** The locals hoisted so far and the parameters. */
  datatype State = State(locals: seq<Var>, params: seq<Param>)

  predicate Listed(locals: seq<Var>, s: Sym) { exists i :: 0 <= i < |locals| && locals[i].name == s }

  function IndexOf(locals: seq<Var>, s: Sym): (i: nat)
    requires Listed(locals, s)
    ensures i < |locals| && locals[i].name == s && forall j :: 0 <= j < i ==> locals[j].name != s
    decreases |locals|
  {
    if locals[0].name == s then 0
    else
      assert forall i :: 0 < i < |locals| ==> locals[1..][i - 1] == locals[i];
      1 + IndexOf(locals[1..], s)
  }

  predicate ParamListed(params: seq<Param>, x: nat) { exists i :: 0 <= i < |params| && params[i].id == x }

  function ParamIndex(params: seq<Param>, x: nat): (i: nat)
    requires ParamListed(params, x)
    ensures i < |params| && params[i].id == x && forall j :: 0 <= j < i ==> params[j].id != x
    decreases |params|
  {
    if params[0].id == x then 0
    else
      assert forall i :: 0 < i < |params| ==> params[1..][i - 1] == params[i];
      1 + ParamIndex(params[1..], x)
  }

  /** Marking a variable whose address is taken; none is the error for a register variable. */
  function Mark(st: State, s: Sym): Option<State> {
    if Listed(st.locals, s) then
      var i := IndexOf(st.locals, s);
      if st.locals[i].sc == Register then None else Some(st.(locals := st.locals[i := Var(s, Auto)]))
    else if s.Orig? && ParamListed(st.params, s.id) then
      var i := ParamIndex(st.params, s.id);
      if st.params[i].sc == Plain then Some(st.(params := st.params[i := Param(s.id, Auto)])) else Some(st)
    else Some(st)
  }

  /** The name a declaration of `x` gets: its own when free, a numbered one when it shadows a visible name or
      when an earlier local took it; none is the error for a second declaration in one scope. */
  function NewName(x: nat, ids: seq<(nat, Sym)>, up: Env<Sym>, locals: seq<Var>): Option<Sym> {
    if Find(ids, x).Some? then None
    else if Lookup(up, x).Some? || Listed(locals, Orig(x)) then Some(Numbered(x, |locals|))
    else Some(Orig(x))
  }

  function Renamed(s: Sym, env: Env<Sym>): Sym {
    if Lookup(env, s.id).Some? then Lookup(env, s.id).value else s
  }

  function HoistTree(t: Tree, env: Env<Sym>, st: State): Option<(Tree, State)>
    decreases t, 0
  {
    match t
    case Ident(s) => Some((Ident(Renamed(s, env)), st))
    case Decl(_, _) => None
    case Block(items) =>
      var r := HoistBlock(items, [], env, st);
      if r.None? then None else Some((Block(r.value.0), r.value.1))
    case Addr(a) =>
      var r := HoistTree(a, env, st);
      if r.None? then None
      else if !a.Ident? then Some((Addr(r.value.0), r.value.1))
      else
        var m := Mark(r.value.1, r.value.0.name);
        if m.None? then None else Some((Addr(r.value.0), m.value))
    case Node(items) =>
      var r := HoistAll(items, env, st);
      if r.None? then None else Some((Node(r.value.0), r.value.1))
  }

  function HoistAll(ts: Trees, env: Env<Sym>, st: State): Option<(Trees, State)>
    decreases ts, 0
  {
    match ts
    case Nil => Some((Nil, st))
    case Cons(h, tl) =>
      var r := HoistTree(h, env, st);
      if r.None? then None
      else
        var q := HoistAll(tl, env, r.value.1);
        if q.None? then None else Some((Cons(r.value.0, q.value.0), q.value.1))
  }

  function HoistBlock(ts: Trees, ids: seq<(nat, Sym)>, up: Env<Sym>, st: State): Option<(Trees, State)>
    decreases ts, 1
  {
    match ts
    case Nil => Some((Nil, st))
    case Cons(h, tl) =>
      if h.Decl? then
        var n := NewName(h.name.id, ids, up, st.locals);
        if n.None? then None
        else HoistBlock(tl, ids + [(h.name.id, n.value)], up, st.(locals := st.locals + [Var(n.value, h.sc)]))
      else
        var r := HoistTree(h, Scope(ids, up), st);
        if r.None? then None
        else
          var q := HoistBlock(tl, ids, up, r.value.1);
          if q.None? then None else Some((Cons(r.value.0, q.value.0), q.value.1))
  }

  // ---------- C's scoping ----------

  /** What a name refers to: the `k`-th declaration in the text, a parameter, or something outside the function. */
  datatype Ref = Local(k: nat) | Par(id: nat) | Global(id: nat)

  /** A use of a name, and whether its address is taken. */
  datatype Use = Use(ref: Ref, addr: bool)

  function Count(t: Tree): nat
    decreases t
  {
    match t
    case Ident(_) => 0
    case Decl(_, _) => 1
    case Block(items) => CountAll(items)
    case Addr(a) => Count(a)
    case Node(items) => CountAll(items)
  }

  function CountAll(ts: Trees): nat
    decreases ts
  {
    match ts
    case Nil => 0
    case Cons(h, tl) => Count(h) + CountAll(tl)
  }

  function Bound(x: nat, env: Env<Ref>): Ref {
    if Lookup(env, x).Some? then Lookup(env, x).value else Global(x)
  }

  /** The uses of a tree in order, each bound to the innermost declaration before it; `n` declarations precede. */
  function Uses(t: Tree, env: Env<Ref>, n: nat): seq<Use>
    decreases t, 0
  {
    match t
    case Ident(s) => [Use(Bound(s.id, env), false)]
    case Decl(_, _) => []
    case Block(items) => UsesBlock(items, [], env, n)
    case Addr(a) => if a.Ident? then [Use(Bound(a.name.id, env), true)] else Uses(a, env, n)
    case Node(items) => UsesAll(items, env, n)
  }

  function UsesAll(ts: Trees, env: Env<Ref>, n: nat): seq<Use>
    decreases ts, 0
  {
    match ts
    case Nil => []
    case Cons(h, tl) => Uses(h, env, n) + UsesAll(tl, env, n + Count(h))
  }

  function UsesBlock(ts: Trees, ids: seq<(nat, Ref)>, up: Env<Ref>, n: nat): seq<Use>
    decreases ts, 1
  {
    match ts
    case Nil => []
    case Cons(h, tl) =>
      if h.Decl? then UsesBlock(tl, ids + [(h.name.id, Local(n))], up, n + 1)
      else Uses(h, Scope(ids, up), n) + UsesBlock(tl, ids, up, n + Count(h))
  }

  // ---------- one flat scope ----------

  /** What a name refers to after hoisting: a local of that name, else a parameter, else something outside. */
  function RefOf(s: Sym, F: State): Ref {
    if Listed(F.locals, s) then Local(IndexOf(F.locals, s))
    else if s.Orig? && ParamListed(F.params, s.id) then Par(s.id)
    else Global(s.id)
  }

  function FlatUses(t: Tree, F: State): seq<Use>
    decreases t
  {
    match t
    case Ident(s) => [Use(RefOf(s, F), false)]
    case Decl(_, _) => []
    case Block(items) => FlatAll(items, F)
    case Addr(a) => if a.Ident? then [Use(RefOf(a.name, F), true)] else FlatUses(a, F)
    case Node(items) => FlatAll(items, F)
  }

  function FlatAll(ts: Trees, F: State): seq<Use>
    decreases ts
  {
    match ts
    case Nil => []
    case Cons(h, tl) => FlatUses(h, F) + FlatAll(tl, F)
  }

  /** A use of something outside may be captured by a hoisted local that kept its name; no other use changes. */
  function Captured(u: Use, F: State): Use {
    if u.ref.Global? then Use(RefOf(Orig(u.ref.id), F), u.addr) else u
  }

  function CapturedAll(us: seq<Use>, F: State): (r: seq<Use>)
    ensures |r| == |us| && forall i :: 0 <= i < |us| ==> r[i] == Captured(us[i], F)
  {
    hide Captured;
    seq(|us|, i requires 0 <= i < |us| => Captured(us[i], F))
  }

  /** Hoisted names: a kept name is no parameter's, a numbered one carries its place; no name occurs twice. */
  ghost predicate Inv(st: State) {
    && (forall k :: 0 <= k < |st.locals| ==>
         if st.locals[k].name.Orig? then !ParamListed(st.params, st.locals[k].name.id) else st.locals[k].name.k == k)
    && forall j, k :: 0 <= j < k < |st.locals| ==> st.locals[j].name != st.locals[k].name
  }

  /** `F` has the same parameters and at least the same locals, storage aside. */
  ghost predicate Extends(F: State, st: State) {
    && |st.locals| <= |F.locals| && |F.params| == |st.params|
    && (forall k :: 0 <= k < |st.locals| ==> F.locals[k].name == st.locals[k].name)
    && forall k :: 0 <= k < |st.params| ==> F.params[k].id == st.params[k].id
  }

  /** A declaration and the name it got. */
  ghost predicate Names(st: State, r: Ref, s: Sym) {
    match r
    case Local(k) => k < |st.locals| && st.locals[k].name == s
    case Par(x) => s == Orig(x) && ParamListed(st.params, x)
    case Global(_) => false
  }

  ghost predicate AgreeIds(ids: seq<(nat, Sym)>, refs: seq<(nat, Ref)>, st: State) {
    && |ids| == |refs|
    && forall i :: 0 <= i < |ids| ==> ids[i].0 == refs[i].0 && Names(st, refs[i].1, ids[i].1)
  }

  ghost predicate Agree(env: Env<Sym>, refs: Env<Ref>, st: State) {
    match env
    case Top => refs.Top?
    case Scope(ids, up) => refs.Scope? && AgreeIds(ids, refs.ids, st) && Agree(up, refs.up, st)
  }

  /** Every parameter is visible. */
  ghost predicate Covers(env: Env<Sym>, st: State) {
    forall i :: 0 <= i < |st.params| ==> Lookup(env, st.params[i].id).Some?
  }

  predicate Source(t: Tree)
    decreases t
  {
    match t
    case Ident(s) => s.Orig?
    case Decl(s, _) => s.Orig?
    case Block(items) => SourceAll(items)
    case Addr(a) => Source(a)
    case Node(items) => SourceAll(items)
  }

  predicate SourceAll(ts: Trees)
    decreases ts
  {
    match ts
    case Nil => true
    case Cons(h, tl) => Source(h) && SourceAll(tl)
  }

  ghost predicate Mentions(t: Tree, s: Sym)
    decreases t
  {
    match t
    case Ident(x) => s == x
    case Decl(x, _) => s == x
    case Block(items) => AnyMentions(items, s)
    case Addr(a) => Mentions(a, s)
    case Node(items) => AnyMentions(items, s)
  }

  ghost predicate AnyMentions(ts: Trees, s: Sym)
    decreases ts
  {
    match ts
    case Nil => false
    case Cons(h, tl) => Mentions(h, s) || AnyMentions(tl, s)
  }

  /** A source tree is one without made-up names. */
  lemma {:induction false} SourceIff(t: Tree)
    ensures Source(t) <==> forall s :: Mentions(t, s) ==> s.Orig?
    decreases t
  {
    match t
    case Ident(x) => assert Mentions(t, x);
    case Decl(x, _) => assert Mentions(t, x);
    case Block(items) => SourceAllIff(items);
    case Addr(a) => SourceIff(a);
    case Node(items) => SourceAllIff(items);
  }

  lemma {:induction false} SourceAllIff(ts: Trees)
    ensures SourceAll(ts) <==> forall s :: AnyMentions(ts, s) ==> s.Orig?
    decreases ts
  {
    match ts
    case Nil =>
    case Cons(h, tl) => SourceIff(h); SourceAllIff(tl);
  }
}
