/** C declarators: how a type is written around a name, and how the parser turns it inside out again. */
module Declarators {
  datatype Option<T> = None | Some(value: T)

  /** A base type, and a constant array size, are one token each; base type 0 is void. */
  datatype Token =
    | Star | Const | Name(id: nat) | LPar | RPar | LBrk | RBrk | Comma | Colon | Ellipsis
    | Base(b: nat) | Size(n: nat) | Other(code: nat)

  datatype Type =
    | Plain(b: nat)
    | Etc
    | Ptr(target: Type)
    | Arr(elem: Type, size: Option<nat>)
    | Fun(ret: Type, params: Params)

  /** Parameters; name 0 is a missing name. */
  datatype Params = End | More(name: nat, ptype: Type, rest: Params)

  /** What the parser builds first: the innermost part is the name, the outermost the postfix or star read last. */
  datatype Raw = Leaf(name: nat) | RPtr(of: Raw) | RArr(of: Raw, size: Option<nat>) | RFun(of: Raw, params: Params)

  // ---------- parsing ----------

  datatype Parse<T> = Fail | Done(value: T, rest: seq<Token>)

  /** A final (void) parameter is left out. */
  function DropVoid(ps: Params): Params {
    match ps
    case End => End
    case More(n, t, rest) => if t == Plain(0) && rest == End then End else More(n, t, DropVoid(rest))
  }

  /** The type and the name that a declarator stands for, on a base type. */
  function Invert(r: Raw, t: Type): (nat, Type)
    decreases r
  {
    match r
    case Leaf(n) => (n, t)
    case RPtr(q) => Invert(q, Ptr(t))
    case RArr(q, size) => Invert(q, Arr(t, size))
    case RFun(q, ps) => Invert(q, Fun(t, DropVoid(ps)))
  }

  function Unary(ts: seq<Token>): (r: Parse<Raw>)
    ensures r.Done? ==> |r.rest| <= |ts|
    decreases |ts|, 3
  {
    if ts != [] && ts[0].Const? then Unary(ts[1..])
    else if ts != [] && ts[0].Star? then
      var q := Unary(ts[1..]);
      if q.Fail? then Fail else Done(RPtr(q.value), q.rest)
    else Postfix(ts)
  }

  function Postfix(ts: seq<Token>): (r: Parse<Raw>)
    ensures r.Done? ==> |r.rest| <= |ts|
    decreases |ts|, 2
  {
    var p := Primary(ts);
    if p.Fail? then Fail else Loop(p.value, p.rest)
  }

  function Primary(ts: seq<Token>): (r: Parse<Raw>)
    ensures r.Done? ==> |r.rest| <= |ts|
    decreases |ts|, 1
  {
    if ts == [] then Fail
    else match ts[0]
      case Name(id) => Done(Leaf(id), ts[1..])
      case Comma => Done(Leaf(0), ts)
      case LBrk => Done(Leaf(0), ts)
      case RPar => Done(Leaf(0), ts)
      case Colon => Done(Leaf(0), ts)
      case LPar =>
        if |ts| > 1 && ts[1].RPar? then Done(RFun(Leaf(0), End), ts[2..])
        else
          var q := Unary(ts[1..]);
          if q.Fail? || q.rest == [] || !q.rest[0].RPar? then Fail else Done(q.value, q.rest[1..])
      case _ => Fail
  }

  /** The postfixes that follow. */
  function Loop(q: Raw, ts: seq<Token>): (r: Parse<Raw>)
    ensures r.Done? ==> |r.rest| <= |ts|
    decreases |ts|, 0
  {
    if ts != [] && ts[0].LBrk? then
      if |ts| > 1 && ts[1].RBrk? then Loop(RArr(q, None), ts[2..])
      else if |ts| > 2 && ts[1].Size? && ts[2].RBrk? then Loop(RArr(q, Some(ts[1].n)), ts[3..])
      else Fail
    else if ts != [] && ts[0].LPar? then
      var ps := ParamList(ts[1..]);
      if ps.Fail? || ps.rest == [] || !ps.rest[0].RPar? then Fail else Loop(RFun(q, DropVoid(ps.value)), ps.rest[1..])
    else Done(q, ts)
  }

  /** Parameters up to, but without, the closing parenthesis. */
  function ParamList(ts: seq<Token>): (r: Parse<Params>)
    ensures r.Done? ==> |r.rest| <= |ts|
    decreases |ts|, 4
  {
    if ts == [] || ts[0].RPar? then Done(End, ts)
    else if ts[0].Ellipsis? then Done(More(0, Etc, End), ts[1..])
    else
      var d := Declaration(ts);
      if d.Fail? then Fail
      else if d.rest != [] && d.rest[0].Comma? then
        var more := ParamList(d.rest[1..]);
        if more.Fail? then Fail else Done(More(d.value.0, d.value.1, more.value), more.rest)
      else Done(More(d.value.0, d.value.1, End), d.rest)
  }

  /** A base type and a declarator: the declared name and its type. */
  function Declaration(ts: seq<Token>): (r: Parse<(nat, Type)>)
    ensures r.Done? ==> |r.rest| < |ts|
    decreases |ts|, 1
  {
    if ts == [] || !ts[0].Base? then Fail
    else
      var q := Unary(ts[1..]);
      if q.Fail? then Fail else Done(Invert(q.value, Plain(ts[0].b)), q.rest)
  }

  // ---------- writing ----------

  /** The base type at the bottom. */
  function Seed(t: Type): nat {
    match t
    case Plain(b) => b
    case Etc => 0
    case Ptr(u) => Seed(u)
    case Arr(u, _) => Seed(u)
    case Fun(u, _) => Seed(u)
  }

  function SizeText(size: Option<nat>): seq<Token> {
    if size.None? then [LBrk, RBrk] else [LBrk, Size(size.value), RBrk]
  }

  /** A starred declarator needs parentheses before a postfix. */
  function Grouped(d: seq<Token>, starred: bool): seq<Token> {
    if starred then [LPar] + d + [RPar] else d
  }

  /** The declarator of type `t` around the declarator `d`. */
  function Declarator(t: Type, d: seq<Token>, starred: bool): seq<Token> {
    match t
    case Plain(_) => d
    case Etc => d
    case Ptr(u) => Declarator(u, [Star] + d, true)
    case Arr(u, size) => Declarator(u, Grouped(d, starred) + SizeText(size), false)
    case Fun(u, ps) => Declarator(u, Grouped(d, starred) + [LPar] + ParamsText(ps) + [RPar], false)
  }

  function NameText(n: nat): seq<Token> { if n == 0 then [] else [Name(n)] }

  function DeclText(n: nat, t: Type): seq<Token> {
    [Base(Seed(t))] + Declarator(t, NameText(n), false)
  }

  function ParamsText(ps: Params): seq<Token> {
    match ps
    case End => []
    case More(n, t, rest) =>
      (if t.Etc? then [Ellipsis] else [Base(Seed(t))] + Declarator(t, NameText(n), false))
      + (if rest.End? then [] else [Comma] + ParamsText(rest))
  }

  // ---------- which declarations can be read back ----------

  /** `...` only as the last parameter, unnamed; no final void parameter; every parameter readable. */
  predicate ParamsOk(ps: Params)
    decreases ps, 0
  {
    match ps
    case End => true
    case More(n, t, rest) =>
      if t.Etc? then n == 0 && rest.End?
      else DeclOk(n, t) && (rest.End? ==> t != Plain(0)) && ParamsOk(rest)
  }

  predicate TypeOk(t: Type)
    decreases t, 0
  {
    match t
    case Plain(_) => true
    case Etc => false
    case Ptr(u) => TypeOk(u)
    case Arr(u, _) => TypeOk(u)
    case Fun(u, ps) => TypeOk(u) && ParamsOk(ps)
  }

  /** The one thing without a name that cannot be read: a function with parameters. */
  predicate DeclOk(n: nat, t: Type)
    decreases t, 1
  {
    TypeOk(t) && (n == 0 && t.Fun? ==> t.params.End?)
  }

  /** The declarator as the parser builds it. */
  function RawOf(t: Type, q: Raw): Raw {
    match t
    case Plain(_) => q
    case Etc => q
    case Ptr(u) => RawOf(u, RPtr(q))
    case Arr(u, size) => RawOf(u, RArr(q, size))
    case Fun(u, ps) => RawOf(u, RFun(q, ps))
  }

  lemma {:induction false} KeepsParams(ps: Params)
    requires ParamsOk(ps)
    ensures DropVoid(ps) == ps
  {
    hide DeclOk;
    if ps.More? && !ps.ptype.Etc? { KeepsParams(ps.rest); }
  }

  /** Inverting turns the declarator of a type back into the type. */
  lemma {:induction false} InvertRaw(t: Type, q: Raw)
    requires TypeOk(t)
    ensures Invert(RawOf(t, q), Plain(Seed(t))) == Invert(q, t)
  {
    hide ParamsOk;
    match t
    case Plain(_) =>
    case Ptr(u) => InvertRaw(u, RPtr(q));
    case Arr(u, size) => InvertRaw(u, RArr(q, size));
    case Fun(u, ps) => KeepsParams(ps); InvertRaw(u, RFun(q, ps));
  }

  // ---------- reading what was written ----------

  function NameOf(q: Raw): nat {
    match q
    case Leaf(n) => n
    case RPtr(p) => NameOf(p)
    case RArr(p, _) => NameOf(p)
    case RFun(p, _) => NameOf(p)
  }

  /** What may follow a declarator: nothing that would continue it, and after a missing name a token that shows it. */
  predicate Follows(n: nat, rest: seq<Token>) {
    if n == 0 then rest != [] && (rest[0].Comma? || rest[0].RPar? || rest[0].Colon?)
    else rest == [] || !(rest[0].LBrk? || rest[0].LPar?)
  }

  /** What may come directly after the tokens of a declarator that is not starred. */
  predicate Meets(q: Raw, rest: seq<Token>) {
    q == Leaf(0) ==> rest != [] && (rest[0].Comma? || rest[0].RPar? || rest[0].Colon? || rest[0].LBrk?)
  }

  /** The tokens `d` are read as `q`: whole when starred, otherwise up to the postfixes that follow. */
  ghost predicate ReadsAs(d: seq<Token>, q: Raw) {
    if q.RPtr? then
      d != [] && (d[0].Star? || d[0].Const?) && forall rest :: Follows(NameOf(q), rest) ==> Unary(d + rest) == Done(q, rest)
    else
      && (d != [] ==> !d[0].Star? && !d[0].Const? && !d[0].RPar?)
      && (d == [] ==> q == Leaf(0))
      && forall rest :: Meets(q, rest) ==> Postfix(d + rest) == Loop(q, rest)
  }

  lemma UnaryPlain(ts: seq<Token>)
    requires ts == [] || (!ts[0].Star? && !ts[0].Const?)
    ensures Unary(ts) == Postfix(ts)
  {
    hide Postfix;
  }

  lemma LoopStops(q: Raw, rest: seq<Token>)
    requires Follows(NameOf(q), rest)
    ensures Loop(q, rest) == Done(q, rest)
  {
    hide ParamList;
  }

  /** Read whole, with what follows it. */
  lemma ReadWhole(d: seq<Token>, q: Raw, rest: seq<Token>)
    requires ReadsAs(d, q) && Follows(NameOf(q), rest)
    ensures Unary(d + rest) == Done(q, rest)
  {
    hide Unary, Postfix, Loop;
    if !q.RPtr? {
      assert d == [] ==> d + rest == rest;
      UnaryPlain(d + rest);
      LoopStops(q, rest);
      assert Meets(q, rest);
    }
  }

  lemma LeafReads(n: nat)
    ensures ReadsAs(NameText(n), Leaf(n))
  {
    forall rest | Meets(Leaf(n), rest)
      ensures Postfix(NameText(n) + rest) == Loop(Leaf(n), rest)
    {
      if n == 0 {
        assert NameText(n) + rest == rest;
      } else {
        assert (NameText(n) + rest)[1..] == rest;
      }
      hide Loop;
    }
  }

  lemma StarReads(d: seq<Token>, q: Raw)
    requires ReadsAs(d, q)
    ensures ReadsAs([Star] + d, RPtr(q))
  {
    forall rest | Follows(NameOf(RPtr(q)), rest)
      ensures Unary([Star] + d + rest) == Done(RPtr(q), rest)
    {
      ReadWhole(d, q, rest);
      StarNext(d + rest);
      assert [Star] + d + rest == [Star] + (d + rest);
      hide Unary, ReadsAs;
    }
  }

  lemma StarNext(ts: seq<Token>)
    ensures Unary([Star] + ts) == var q := Unary(ts); if q.Fail? then Fail else Done(RPtr(q.value), q.rest)
  {
    assert ([Star] + ts)[1..] == ts;
    hide Postfix;
  }

  lemma ParenNext(ts: seq<Token>)
    requires ts != [] && !ts[0].RPar?
    ensures Postfix([LPar] + ts) == var q := Unary(ts);
            if q.Fail? || q.rest == [] || !q.rest[0].RPar? then Fail else Loop(q.value, q.rest[1..])
  {
    assert ([LPar] + ts)[1..] == ts;
    hide Unary, Loop;
  }

  /** Once grouped, a declarator is followed by its postfixes. */
  lemma GroupReads(d: seq<Token>, q: Raw, rest: seq<Token>)
    requires ReadsAs(d, q) && Meets(q, rest)
    ensures Postfix(Grouped(d, q.RPtr?) + rest) == Loop(q, rest)
  {
    hide Postfix, Loop, Unary;
    if q.RPtr? {
      var tail := [RPar] + rest;
      assert [LPar] + d + [RPar] + rest == [LPar] + (d + tail);
      assert (d + tail)[0] == d[0];
      ParenNext(d + tail);
      ReadWhole(d, q, tail);
      assert tail[1..] == rest;
    }
  }

  lemma ArrayNext(q: Raw, size: Option<nat>, rest: seq<Token>)
    ensures Loop(q, SizeText(size) + rest) == Loop(RArr(q, size), rest)
  {
    var ts := SizeText(size) + rest;
    assert ts[|SizeText(size)|..] == rest;
    hide ParamList;
  }

  lemma ArrayReads(d: seq<Token>, q: Raw, size: Option<nat>)
    requires ReadsAs(d, q)
    ensures ReadsAs(Grouped(d, q.RPtr?) + SizeText(size), RArr(q, size))
  {
    var e := Grouped(d, q.RPtr?) + SizeText(size);
    forall rest
      ensures Postfix(e + rest) == Loop(RArr(q, size), rest)
    {
      var tail := SizeText(size) + rest;
      assert e + rest == Grouped(d, q.RPtr?) + tail;
      GroupReads(d, q, tail);
      ArrayNext(q, size, rest);
      hide Postfix, Loop, ReadsAs, Unary;
    }
    hide Postfix, Loop, Unary;
  }

  /** The parameters and the parenthesis after them are read. */
  ghost predicate ParamsRead(ps: Params) {
    forall rest :: ParamList(ParamsText(ps) + ([RPar] + rest)) == Done(ps, [RPar] + rest)
  }

  lemma CallNext(q: Raw, ps: Params, rest: seq<Token>)
    requires ParamsRead(ps) && ParamsOk(ps)
    ensures Loop(q, [LPar] + (ParamsText(ps) + ([RPar] + rest))) == Loop(RFun(q, ps), rest)
  {
    KeepsParams(ps);
    var tail := ParamsText(ps) + ([RPar] + rest);
    assert ([LPar] + tail)[1..] == tail;
    assert ([RPar] + rest)[1..] == rest;
    hide ParamList, ParamsText, DropVoid, ParamsOk;
  }

  lemma FunReadsAt(d: seq<Token>, q: Raw, ps: Params, rest: seq<Token>)
    requires ReadsAs(d, q) && ParamsRead(ps) && ParamsOk(ps) && (q == Leaf(0) ==> ps.End? && d == [])
    ensures Postfix(Grouped(d, q.RPtr?) + [LPar] + ParamsText(ps) + [RPar] + rest) == Loop(RFun(q, ps), rest)
  {
    hide Postfix, Loop, Unary, ReadsAs, ParamsRead, ParamsOk, ParamList;
    var g, tail := Grouped(d, q.RPtr?), ParamsText(ps) + ([RPar] + rest);
    assert g + [LPar] + ParamsText(ps) + [RPar] + rest == g + ([LPar] + tail);
    if q == Leaf(0) {
      NoParamsReads(rest);
      assert g + ([LPar] + tail) == [LPar] + ([RPar] + rest);
    } else {
      GroupReads(d, q, [LPar] + tail);
      CallNext(q, ps, rest);
    }
  }

  lemma FunReads(d: seq<Token>, q: Raw, ps: Params)
    requires ReadsAs(d, q) && ParamsRead(ps) && ParamsOk(ps) && (q == Leaf(0) ==> ps.End? && d == [])
    ensures ReadsAs(Grouped(d, q.RPtr?) + [LPar] + ParamsText(ps) + [RPar], RFun(q, ps))
  {
    hide Postfix, Loop, Unary, ParamsText, ParamList, ParamsOk, ParamsRead;
    forall rest
      ensures Postfix(Grouped(d, q.RPtr?) + [LPar] + ParamsText(ps) + [RPar] + rest) == Loop(RFun(q, ps), rest)
    {
      FunReadsAt(d, q, ps, rest);
    }
  }

  lemma NoParamsReads(rest: seq<Token>)
    ensures Postfix([LPar] + ([RPar] + rest)) == Loop(RFun(Leaf(0), End), rest)
  {
    assert ([LPar] + ([RPar] + rest))[2..] == rest;
    hide Loop, Unary;
  }

  /** The declarator of a type around something readable is readable. */
  lemma {:induction false} TypeReads(t: Type, d: seq<Token>, q: Raw)
    requires TypeOk(t) && ReadsAs(d, q) && (q == Leaf(0) ==> d == [] && (t.Fun? ==> t.params.End?))
    ensures ReadsAs(Declarator(t, d, q.RPtr?), RawOf(t, q))
    decreases t, 0
  {
    hide ReadsAs, ParamsOk, ParamsRead;
    match t
    case Plain(_) =>
    case Ptr(u) =>
      StarReads(d, q);
      TypeReads(u, [Star] + d, RPtr(q));
    case Arr(u, size) =>
      ArrayReads(d, q, size);
      TypeReads(u, Grouped(d, q.RPtr?) + SizeText(size), RArr(q, size));
    case Fun(u, ps) =>
      ParamsReadBack(ps);
      FunReads(d, q, ps);
      TypeReads(u, Grouped(d, q.RPtr?) + [LPar] + ParamsText(ps) + [RPar], RFun(q, ps));
  }

  lemma {:induction false} NameOfRaw(t: Type, q: Raw)
    ensures NameOf(RawOf(t, q)) == NameOf(q)
  {
    match t
    case Plain(_) =>
    case Etc =>
    case Ptr(u) => NameOfRaw(u, RPtr(q));
    case Arr(u, size) => NameOfRaw(u, RArr(q, size));
    case Fun(u, ps) => NameOfRaw(u, RFun(q, ps));
  }

  /** Reading a declaration gives back the name and the type it was written for. */
  lemma {:induction false} DeclarationReads(n: nat, t: Type, rest: seq<Token>)
    requires DeclOk(n, t) && Follows(n, rest)
    ensures Declaration(DeclText(n, t) + rest) == Done((n, t), rest)
    decreases t, 1
  {
    hide Unary, Declarator, ReadsAs, TypeOk, ParamsOk;
    LeafReads(n);
    TypeReads(t, NameText(n), Leaf(n));
    NameOfRaw(t, Leaf(n));
    ReadWhole(Declarator(t, NameText(n), false), RawOf(t, Leaf(n)), rest);
    InvertRaw(t, Leaf(n));
    assert (DeclText(n, t) + rest)[1..] == Declarator(t, NameText(n), false) + rest;
  }

  lemma {:induction false} ParamsReadBack(ps: Params)
    requires ParamsOk(ps)
    ensures ParamsRead(ps)
    decreases ps, 1
  {
    forall rest
      ensures ParamList(ParamsText(ps) + ([RPar] + rest)) == Done(ps, [RPar] + rest)
    {
      ParamsAt(ps, rest);
    }
  }

  lemma {:induction false} ParamsAt(ps: Params, rest: seq<Token>)
    requires ParamsOk(ps)
    ensures ParamList(ParamsText(ps) + ([RPar] + rest)) == Done(ps, [RPar] + rest)
    decreases ps, 0
  {
    hide Declaration, DeclText, DeclOk, Declarator;
    var end := [RPar] + rest;
    match ps
    case End =>
      assert [] + end == end;
    case More(n, t, more) =>
      if t.Etc? {
        assert (ParamsText(ps) + end)[1..] == end;
      } else {
        var tail := if more.End? then end else [Comma] + (ParamsText(more) + end);
        ParamText(ps, end);
        DeclarationReads(n, t, tail);
        assert (DeclText(n, t) + tail)[0].Base? by { BaseFirst(n, t, tail); }
        if !more.End? {
          assert tail[1..] == ParamsText(more) + end;
          ParamsAt(more, rest);
        }
      }
  }

  lemma ParamText(ps: Params, end: seq<Token>)
    requires ps.More? && !ps.ptype.Etc?
    ensures ParamsText(ps) + end ==
            DeclText(ps.name, ps.ptype) + if ps.rest.End? then end else [Comma] + (ParamsText(ps.rest) + end)
  {
    hide Declarator;
  }

  lemma BaseFirst(n: nat, t: Type, tail: seq<Token>)
    ensures (DeclText(n, t) + tail)[0].Base?
  {}

  // ---------- what cannot be read ----------

  /** The tokens `d` are not the start of any declarator. */
  ghost predicate Unreadable(d: seq<Token>, starred: bool) {
    && d != [] && d[0].Star? == starred && !d[0].Const? && !d[0].RPar?
    && forall rest :: Unary(d + rest).Fail?
  }

  lemma UnreadableAt(d: seq<Token>, starred: bool, rest: seq<Token>)
    requires Unreadable(d, starred)
    ensures Unary(d + rest).Fail? && (!starred ==> Postfix(d + rest).Fail?)
  {
    hide Unary, Postfix;
    assert (d + rest)[0] == d[0];
    if !starred { UnaryPlain(d + rest); }
  }

  lemma UnreadableStar(d: seq<Token>, starred: bool)
    requires Unreadable(d, starred)
    ensures Unreadable([Star] + d, true)
  {
    hide Unary, Postfix;
    forall rest
      ensures Unary([Star] + d + rest).Fail?
    {
      StarNext(d + rest);
      assert [Star] + d + rest == [Star] + (d + rest);
    }
  }

  /** Postfixes do not help. */
  lemma UnreadableMore(d: seq<Token>, starred: bool, tail: seq<Token>)
    requires Unreadable(d, starred)
    ensures Unreadable(Grouped(d, starred) + tail, false)
  {
    hide Unary, Postfix, Loop;
    var e := Grouped(d, starred) + tail;
    forall rest
      ensures Unary(e + rest).Fail?
    {
      UnaryPlain(e + rest);
      if starred {
        var more := [RPar] + (tail + rest);
        assert e + rest == [LPar] + (d + more);
        assert (d + more)[0] == d[0];
        ParenNext(d + more);
        UnreadableAt(d, starred, more);
      } else {
        assert e + rest == d + (tail + rest);
        UnreadableAt(d, starred, tail + rest);
      }
    }
  }

  lemma {:induction false} UnreadableType(t: Type, d: seq<Token>, starred: bool) returns (s: bool)
    requires Unreadable(d, starred)
    ensures Unreadable(Declarator(t, d, starred), s)
  {
    hide Unreadable, ParamsText;
    match t
    case Plain(_) => s := starred;
    case Etc => s := starred;
    case Ptr(u) =>
      UnreadableStar(d, starred);
      s := UnreadableType(u, [Star] + d, true);
    case Arr(u, size) =>
      UnreadableMore(d, starred, SizeText(size));
      s := UnreadableType(u, Grouped(d, starred) + SizeText(size), false);
    case Fun(u, ps) =>
      UnreadableMore(d, starred, [LPar] + ParamsText(ps) + [RPar]);
      assert Grouped(d, starred) + ([LPar] + ParamsText(ps) + [RPar]) == Grouped(d, starred) + [LPar] + ParamsText(ps) + [RPar];
      s := UnreadableType(u, Grouped(d, starred) + [LPar] + ParamsText(ps) + [RPar], false);
  }

  lemma NamelessFunction(ps: Params)
    requires ps.More?
    ensures Unreadable([LPar] + ParamsText(ps) + [RPar], false)
  {
    var d := [LPar] + ParamsText(ps) + [RPar];
    ParamsFirst(ps);
    hide ParamsText, Loop;
    forall rest
      ensures Unary(d + rest).Fail?
    {
      var ts := ParamsText(ps) + ([RPar] + rest);
      assert d + rest == [LPar] + ts;
      UnaryPlain(d + rest);
      ParenNext(ts);
      UnaryPlain(ts);
    }
  }

  lemma ParamsFirst(ps: Params)
    requires ps.More?
    ensures ParamsText(ps) != [] && (ParamsText(ps)[0].Base? || ParamsText(ps)[0].Ellipsis?)
  {}

  /** A well-formed type, with or without a name, is read back exactly when it is not a nameless function with
      parameters; and then the parser fails. */
  lemma ReadableIff(n: nat, t: Type, rest: seq<Token>)
    requires TypeOk(t) && Follows(n, rest)
    ensures Declaration(DeclText(n, t) + rest) == Done((n, t), rest) <==> !(n == 0 && t.Fun? && t.params.More?)
    ensures n == 0 && t.Fun? && t.params.More? ==> Declaration(DeclText(n, t) + rest).Fail?
  {
    hide Unary, ParamsOk, ParamsText;
    if n == 0 && t.Fun? && t.params.More? {
      var d := [LPar] + ParamsText(t.params) + [RPar];
      NamelessFunction(t.params);
      var s := UnreadableType(t.ret, d, false);
      assert Grouped([], false) + [LPar] + ParamsText(t.params) + [RPar] == d;
      var e := Declarator(t, [], false);
      assert (DeclText(n, t) + rest)[1..] == e + rest;
    } else {
      DeclarationReads(n, t, rest);
    }
  }

  // ---------- printing what was parsed ----------

  /** `...` only as the last parameter, unnamed. */
  predicate Tame(t: Type)
    decreases t, 0
  {
    match t
    case Plain(_) => true
    case Etc => false
    case Ptr(u) => Tame(u)
    case Arr(u, _) => Tame(u)
    case Fun(u, ps) => Tame(u) && TameParams(ps)
  }

  predicate TameParams(ps: Params)
    decreases ps, 0
  {
    match ps
    case End => true
    case More(n, t, rest) => if t.Etc? then n == 0 && rest.End? else Tame(t) && TameParams(rest)
  }

  predicate Nameless(n: nat, t: Type) { n == 0 && t.Fun? && t.params.More? }

  /** Some parameter list in the type ends in void, or has a nameless function with parameters. */
  predicate Lost(t: Type)
    decreases t, 0
  {
    match t
    case Plain(_) => false
    case Etc => false
    case Ptr(u) => Lost(u)
    case Arr(u, _) => Lost(u)
    case Fun(u, ps) => Lost(u) || LostIn(ps)
  }

  predicate LostIn(ps: Params)
    decreases ps, 0
  {
    match ps
    case End => false
    case More(n, t, rest) => Nameless(n, t) || Lost(t) || (t == Plain(0) && rest == End) || LostIn(rest)
  }

  /** Well-formed types are the tame ones of which nothing is lost. */
  lemma {:induction false} TypeOkIff(t: Type)
    ensures TypeOk(t) <==> Tame(t) && !Lost(t)
    decreases t, 0
  {
    hide ParamsOk, TameParams, LostIn;
    match t
    case Plain(_) =>
    case Etc =>
    case Ptr(u) => TypeOkIff(u);
    case Arr(u, _) => TypeOkIff(u);
    case Fun(u, ps) => TypeOkIff(u); ParamsOkIff(ps);
  }

  lemma {:induction false} ParamsOkIff(ps: Params)
    ensures ParamsOk(ps) <==> TameParams(ps) && !LostIn(ps)
    decreases ps, 0
  {
    hide Tame, Lost, TypeOk;
    if ps.More? {
      if ps.ptype.Etc? { assert !Lost(Etc) by { NotLost(); } } else { TypeOkIff(ps.ptype); }
      ParamsOkIff(ps.rest);
    }
  }

  lemma NotLost()
    ensures !Lost(Etc)
  {}

  predicate RawTame(q: Raw) {
    match q
    case Leaf(_) => true
    case RPtr(p) => RawTame(p)
    case RArr(p, _) => RawTame(p)
    case RFun(p, ps) => RawTame(p) && TameParams(ps)
  }

  lemma {:induction false} DropTame(ps: Params)
    requires TameParams(ps)
    ensures TameParams(DropVoid(ps))
  {
    hide Tame;
    if ps.More? && !ps.ptype.Etc? { DropTame(ps.rest); }
  }

  lemma {:induction false} InvertTame(q: Raw, t: Type)
    requires RawTame(q) && Tame(t)
    ensures Tame(Invert(q, t).1)
    decreases q
  {
    hide TameParams;
    match q
    case Leaf(_) =>
    case RPtr(p) => InvertTame(p, Ptr(t));
    case RArr(p, size) => InvertTame(p, Arr(t, size));
    case RFun(p, ps) => DropTame(ps); InvertTame(p, Fun(t, DropVoid(ps)));
  }

  lemma {:induction false} UnaryTame(ts: seq<Token>)
    requires Unary(ts).Done?
    ensures RawTame(Unary(ts).value)
    decreases |ts|, 3
  {
    hide Postfix;
    if ts != [] && (ts[0].Const? || ts[0].Star?) { UnaryTame(ts[1..]); } else { PostfixTame(ts); }
  }

  lemma {:induction false} PostfixTame(ts: seq<Token>)
    requires Postfix(ts).Done?
    ensures RawTame(Postfix(ts).value)
    decreases |ts|, 2
  {
    hide Primary, Loop, RawTame;
    PrimaryTame(ts);
    LoopTame(Primary(ts).value, Primary(ts).rest);
  }

  lemma {:induction false} PrimaryTame(ts: seq<Token>)
    requires Primary(ts).Done?
    ensures RawTame(Primary(ts).value)
    decreases |ts|, 1
  {
    hide Unary;
    if ts[0].LPar? && !(|ts| > 1 && ts[1].RPar?) { UnaryTame(ts[1..]); }
  }

  lemma {:induction false} LoopTame(q: Raw, ts: seq<Token>)
    requires RawTame(q) && Loop(q, ts).Done?
    ensures RawTame(Loop(q, ts).value)
    decreases |ts|, 0
  {
    hide ParamList, TameParams;
    if ts != [] && ts[0].LBrk? {
      if |ts| > 1 && ts[1].RBrk? { LoopTame(RArr(q, None), ts[2..]); } else { LoopTame(RArr(q, Some(ts[1].n)), ts[3..]); }
    } else if ts != [] && ts[0].LPar? {
      var ps := ParamList(ts[1..]);
      ParamListTame(ts[1..]);
      DropTame(ps.value);
      LoopTame(RFun(q, DropVoid(ps.value)), ps.rest[1..]);
    }
  }

  lemma {:induction false} ParamListTame(ts: seq<Token>)
    requires ParamList(ts).Done?
    ensures TameParams(ParamList(ts).value)
    decreases |ts|, 4
  {
    hide Declaration, Tame;
    if ts != [] && !ts[0].RPar? && !ts[0].Ellipsis? {
      var d := Declaration(ts);
      ParsedTame(ts);
      TameNotEtc(d.value.1);
      if d.rest != [] && d.rest[0].Comma? { ParamListTame(d.rest[1..]); }
    }
  }

  lemma TameNotEtc(t: Type)
    requires Tame(t)
    ensures !t.Etc?
  {}

  /** Whatever is parsed has `...` only last and unnamed. */
  lemma {:induction false} ParsedTame(ts: seq<Token>)
    requires Declaration(ts).Done?
    ensures Tame(Declaration(ts).value.1)
    decreases |ts|, 1
  {
    hide Unary, RawTame;
    UnaryTame(ts[1..]);
    InvertTame(Unary(ts[1..]).value, Plain(ts[0].b));
  }

  /** Printing a declaration that was parsed and parsing it again gives it back, unless a parameter list in it ends in void or
      something in it is a nameless function with parameters. */
  lemma ParsedReadsBack(ts: seq<Token>, rest: seq<Token>)
    requires Declaration(ts).Done?
    ensures var (n, t) := Declaration(ts).value;
            !Lost(t) && !Nameless(n, t) && Follows(n, rest) ==> Declaration(DeclText(n, t) + rest) == Done((n, t), rest)
  {
    hide Declaration, Tame, Lost, TypeOk, DeclText, Follows;
    var (n, t) := Declaration(ts).value;
    ParsedTame(ts);
    TypeOkIff(t);
    if !Lost(t) && !Nameless(n, t) && Follows(n, rest) { DeclarationReads(n, t, rest); }
  }

  // ---------- the parser in place ----------

  /** A method's result against the parse it stands for. */
  ghost predicate Gives<T>(r: Option<T>, rest: seq<Token>, p: Parse<T>) {
    if p.Fail? then r.None? else r == Some(p.value) && rest == p.rest
  }

  class Parser {
    const toks: seq<Token>
    var pos: nat

    constructor (toks: seq<Token>)
      ensures this.toks == toks && pos == 0
    {
      this.toks, pos := toks, 0;
    }

    ghost function Rest(): seq<Token>
      reads this
      requires pos <= |toks|
    {
      toks[pos..]
    }

    /** `expect` and plain reading: takes the next token if it is `t`. */
    method Expect(t: Token) returns (ok: bool)
      requires pos <= |toks|
      modifies this
      ensures ok <==> old(Rest()) != [] && old(Rest())[0] == t
      ensures pos <= |toks| && if ok then Rest() == old(Rest())[1..] else pos == old(pos)
    {
      ok := pos < |toks| && toks[pos] == t;
      if ok { pos := pos + 1; }
    }

    method ParseUnary() returns (r: Option<Raw>)
      requires pos <= |toks|
      modifies this
      ensures pos <= |toks| && Gives(r, Rest(), Unary(old(Rest())))
      decreases |Rest()|, 3
    {
      hide Postfix;
      while pos < |toks| && toks[pos].Const?
        invariant pos <= |toks| && Unary(Rest()) == Unary(old(Rest())) && |Rest()| <= |old(Rest())|
        decreases |toks| - pos
      {
        pos := pos + 1;
      }
      if pos < |toks| && toks[pos].Star? {
        ghost var ts := Rest();
        pos := pos + 1;
        assert Rest() == ts[1..];
        r := ParseUnary();
        if r.Some? { r := Some(RPtr(r.value)); }
      } else {
        r := ParsePostfix();
      }
    }

    method ParsePrimary() returns (r: Option<Raw>)
      requires pos <= |toks|
      modifies this
      ensures pos <= |toks| && Gives(r, Rest(), Primary(old(Rest())))
      decreases |Rest()|, 1
    {
      hide Unary;
      if pos == |toks| { return None; }
      var t := toks[pos];
      if t.Name? {
        pos := pos + 1;
        return Some(Leaf(t.id));
      }
      if t.Comma? || t.LBrk? || t.RPar? || t.Colon? { return Some(Leaf(0)); }
      if !t.LPar? { return None; }
      pos := pos + 1;
      if pos < |toks| && toks[pos].RPar? {
        r := Some(RFun(Leaf(0), End));
      } else {
        r := ParseUnary();
        if r.None? { return; }
      }
      var ok := Expect(RPar);
      if !ok { return None; }
    }

    method ParsePostfix() returns (r: Option<Raw>)
      requires pos <= |toks|
      modifies this
      ensures pos <= |toks| && Gives(r, Rest(), Postfix(old(Rest())))
      decreases |Rest()|, 2
    {
      hide Primary, ParamList, DropVoid;
      ghost var was := Rest();
      PrimaryShort(was);
      r := ParsePrimary();
      if r.None? { return; }
      while pos < |toks| && (toks[pos].LBrk? || toks[pos].LPar?)
        invariant pos <= |toks| && r.Some? && Loop(r.value, Rest()) == Postfix(was) && |Rest()| <= |was|
        decreases |Rest()|
      {
        if toks[pos].LBrk? {
          var size := ParseSize(r.value);
          if size.None? { return None; }
          r := Some(RArr(r.value, size.value));
        } else {
          ghost var ts := Rest();
          pos := pos + 1;
          assert Rest() == ts[1..];
          ListShort(Rest());
          var ps := ParseParams();
          if ps.None? { return None; }
          var ok := Expect(RPar);
          if !ok { return None; }
          r := Some(RFun(r.value, DropVoid(ps.value)));
        }
      }
    }

    /** The size of an array declarator, or none between its brackets. */
    method ParseSize(ghost q: Raw) returns (size: Option<Option<nat>>)
      requires pos < |toks| && toks[pos].LBrk?
      modifies this
      ensures pos <= |toks| && |Rest()| < |old(Rest())|
      ensures size.None? ==> Loop(q, old(Rest())).Fail?
      ensures size.Some? ==> Loop(q, old(Rest())) == Loop(RArr(q, size.value), Rest())
    {
      hide ParamList, DropVoid;
      ghost var ts := Rest();
      pos := pos + 1;
      size := Some(None);
      if pos < |toks| && !toks[pos].RBrk? {
        if !toks[pos].Size? { return None; }
        size := Some(Some(toks[pos].n));
        pos := pos + 1;
      }
      if pos == |toks| || !toks[pos].RBrk? { return None; }
      pos := pos + 1;
      assert Rest() == if size.value.None? then ts[2..] else ts[3..];
    }

    /** The declarations of the parameters, as far as the closing parenthesis. */
    method ParseParams() returns (r: Option<Params>)
      requires pos <= |toks|
      modifies this
      ensures pos <= |toks| && Gives(r, Rest(), ParamList(old(Rest())))
      decreases |Rest()|, 4
    {
      hide Declaration;
      ghost var was := Rest();
      var found: seq<(nat, Type)> := [];
      while pos < |toks| && !toks[pos].RPar?
        invariant pos <= |toks| && |Rest()| <= |was| && Joins(found, ParamList(Rest())) == ParamList(was)
        decreases |Rest()|
      {
        ghost var ts := Rest();
        if toks[pos].Ellipsis? {
          pos := pos + 1;
          assert Rest() == ts[1..];
          r := Some(Listed(found, More(0, Etc, End)));
          return;
        }
        DeclarationShort(ts);
        var d := ParseDeclaration();
        if d.None? { return None; }
        if pos == |toks| || !toks[pos].Comma? {
          r := Some(Listed(found, More(d.value.0, d.value.1, End)));
          return;
        }
        ghost var us := Rest();
        pos := pos + 1;
        assert Rest() == us[1..];
        JoinMore(found, d.value, ParamList(us[1..]));
        found := found + [d.value];
      }
      r := Some(Listed(found, End));
    }

    /** `parse_declarator` on a base type: the name and the type turned inside out. */
    method ParseDeclaration() returns (r: Option<(nat, Type)>)
      requires pos <= |toks|
      modifies this
      ensures pos <= |toks| && Gives(r, Rest(), Declaration(old(Rest())))
      decreases |Rest()|, 1
    {
      hide Unary, Invert;
      if pos == |toks| || !toks[pos].Base? { return None; }
      var b := toks[pos].b;
      ghost var ts := Rest();
      pos := pos + 1;
      assert Rest() == ts[1..];
      var q := ParseUnary();
      if q.None? { return None; }
      r := Some(Invert(q.value, Plain(b)));
    }
  }

  /** The parameters found so far before the rest of the list. */
  function Listed(found: seq<(nat, Type)>, ps: Params): Params
    decreases |found|
  {
    if found == [] then ps else Listed(found[..|found| - 1], More(found[|found| - 1].0, found[|found| - 1].1, ps))
  }

  ghost function Joins(found: seq<(nat, Type)>, p: Parse<Params>): Parse<Params> {
    if p.Fail? then Fail else Done(Listed(found, p.value), p.rest)
  }

  lemma JoinMore(found: seq<(nat, Type)>, d: (nat, Type), p: Parse<Params>)
    ensures Joins(found + [d], p) == Joins(found, if p.Fail? then Fail else Done(More(d.0, d.1, p.value), p.rest))
  {
    assert (found + [d])[..|found|] == found;
  }

  lemma PrimaryShort(ts: seq<Token>)
    ensures Primary(ts).Done? ==> |Primary(ts).rest| <= |ts|
  {
    hide Primary;
  }

  lemma ListShort(ts: seq<Token>)
    ensures ParamList(ts).Done? ==> |ParamList(ts).rest| <= |ts|
  {
    hide ParamList;
  }

  lemma DeclarationShort(ts: seq<Token>)
    ensures Declaration(ts).Done? ==> |Declaration(ts).rest| < |ts|
  {
    hide Declaration;
  }
}
