/** The expression grammar: trees, their text, and the parser as a function on the tokens left. */
module ExprSyntax {
  datatype BinOp = Star | Slash | Rem | Plus | Minus | Shl | Shr | Lt | Le | Gt | Ge | Eq | Ne | And | Xor | Or | AndAnd | OrOr

  /** A name or a number is one token, and so is the type of a cast. */
  datatype Token =
    | Name(id: nat) | Type(id: nat) | Op(op: BinOp) | Tilde | Not | PlusPlus | MinusMinus
    | LPar | RPar | LBrk | RBrk | Dot | Arrow | QMark | Colon | Comma | Asn(kind: nat) | Other(code: nat)

  /** Expression trees; `Paren`, and a comma after the last argument, occur only in trees that stand for text with what
      it need not have. */
  datatype Exp =
    | Var(id: nat)
    | Paren(inner: Exp)
    | Index(base: Exp, index: Exp)
    | Member(base: Exp, arrow: bool, tag: nat)
    | Postfix(base: Exp, up: bool)
    | Call(base: Exp, args: Args, comma: bool)
    | Prefix(tok: Token, arg: Exp)
    | Cast(to: nat, arg: Exp)
    | Binary(op: BinOp, left: Exp, right: Exp)
    | Cond(test: Exp, yes: Exp, no: Exp)
    | Assign(kind: nat, left: Exp, right: Exp)
    | Seq(left: Exp, right: Exp)

  datatype Args = NoArgs | Arg(head: Exp, tail: Args)

  /** The levels of binary operators, tightest first: 2 multiplicative to 11 logical or. */
  function OpLevel(op: BinOp): (l: nat)
    ensures 2 <= l <= 11
  {
    match op
    case Star => 2 case Slash => 2 case Rem => 2
    case Plus => 3 case Minus => 3
    case Shl => 4 case Shr => 4
    case Lt => 5 case Le => 5 case Gt => 5 case Ge => 5
    case Eq => 6 case Ne => 6
    case And => 7
    case Xor => 8
    case Or => 9
    case AndAnd => 10
    case OrOr => 11
  }

  predicate PrefixTok(t: Token) {
    t.Tilde? || t.Not? || t.PlusPlus? || t.MinusMinus?
    || (t.Op? && (t.op.Star? || t.op.Plus? || t.op.Minus? || t.op.And?))
  }

  /** Postfix expressions are at level 0, prefix at 1, binary at 2 to 11, conditional 12, assignment 13, comma 14. */
  function Level(e: Exp): (l: nat)
    ensures l <= 14
  {
    match e
    case Prefix(_, _) => 1
    case Cast(_, _) => 1
    case Binary(op, _, _) => OpLevel(op)
    case Cond(_, _, _) => 12
    case Assign(_, _, _) => 13
    case Seq(_, _) => 14
    case _ => 0
  }

  /** Every operand binds tightly enough for its place: binary operators and the comma group to the left,
      `?:` and assignment to the right. */
  predicate Fits(e: Exp) {
    match e
    case Var(_) => true
    case Paren(inner) => Fits(inner)
    case Index(b, i) => Fits(b) && Fits(i) && Level(b) == 0
    case Member(b, _, _) => Fits(b) && Level(b) == 0
    case Postfix(b, _) => Fits(b) && Level(b) == 0
    case Call(b, args, comma) => Fits(b) && Level(b) == 0 && ArgsFit(args) && (comma ==> args.Arg?)
    case Prefix(t, a) => PrefixTok(t) && Fits(a) && Level(a) <= 1
    case Cast(_, a) => Fits(a) && Level(a) <= 1
    case Binary(op, l, r) => Fits(l) && Fits(r) && Level(l) <= OpLevel(op) && Level(r) < OpLevel(op)
    case Cond(c, y, n) => Fits(c) && Fits(y) && Fits(n) && Level(c) <= 11 && Level(n) <= 12
    case Assign(_, l, r) => Fits(l) && Fits(r) && Level(l) <= 12 && Level(r) <= 13
    case Seq(l, r) => Fits(l) && Fits(r) && Level(r) <= 13
  }

  predicate ArgsFit(args: Args) {
    match args
    case NoArgs => true
    case Arg(e, tl) => Fits(e) && Level(e) <= 13 && ArgsFit(tl)
  }

  function Text(e: Exp): (ts: seq<Token>)
    ensures |ts| > 0
  {
    match e
    case Var(id) => [Name(id)]
    case Paren(inner) => [LPar] + Text(inner) + [RPar]
    case Index(b, i) => Text(b) + [LBrk] + Text(i) + [RBrk]
    case Member(b, arrow, tag) => Text(b) + [if arrow then Arrow else Dot, Name(tag)]
    case Postfix(b, up) => Text(b) + [if up then PlusPlus else MinusMinus]
    case Call(b, args, comma) => Text(b) + [LPar] + ArgsText(args, comma)
    case Prefix(t, a) => [t] + Text(a)
    case Cast(to, a) => [LPar, Type(to), RPar] + Text(a)
    case Binary(op, l, r) => Text(l) + [Op(op)] + Text(r)
    case Cond(c, y, n) => Text(c) + [QMark] + Text(y) + [Colon] + Text(n)
    case Assign(k, l, r) => Text(l) + [Asn(k)] + Text(r)
    case Seq(l, r) => Text(l) + [Comma] + Text(r)
  }

  /** Arguments up to the closing parenthesis, with or without a comma after the last. */
  function ArgsText(args: Args, comma: bool): (ts: seq<Token>)
    ensures |ts| > 0
  {
    match args
    case NoArgs => [RPar]
    case Arg(e, tl) => Text(e) + (if tl.Arg? || comma then [Comma] + ArgsText(tl, comma) else [RPar])
  }

  /** The tree without the marks of parentheses. */
  function Bare(e: Exp): Exp {
    match e
    case Var(id) => e
    case Paren(inner) => Bare(inner)
    case Index(b, i) => Index(Bare(b), Bare(i))
    case Member(b, arrow, tag) => Member(Bare(b), arrow, tag)
    case Postfix(b, up) => Postfix(Bare(b), up)
    case Call(b, args, _) => Call(Bare(b), BareArgs(args), false)
    case Prefix(t, a) => Prefix(t, Bare(a))
    case Cast(to, a) => Cast(to, Bare(a))
    case Binary(op, l, r) => Binary(op, Bare(l), Bare(r))
    case Cond(c, y, n) => Cond(Bare(c), Bare(y), Bare(n))
    case Assign(k, l, r) => Assign(k, Bare(l), Bare(r))
    case Seq(l, r) => Seq(Bare(l), Bare(r))
  }

  function BareArgs(args: Args): Args {
    match args
    case NoArgs => NoArgs
    case Arg(e, tl) => Arg(Bare(e), BareArgs(tl))
  }

  // ---------- parsing ----------

  datatype Parse = Fail | Done(e: Exp, rest: seq<Token>)

  datatype ArgsParse = BadArgs | ArgsDone(args: Args, rest: seq<Token>)

  /** A type in parentheses. */
  predicate CastAhead(ts: seq<Token>) { |ts| >= 2 && ts[0].LPar? && ts[1].Type? }

  /** The parser at a level, on the tokens left. */
  function P(L: nat, ts: seq<Token>): (r: Parse)
    requires L <= 14
    ensures r.Done? ==> |r.rest| < |ts|
    decreases |ts|, L, 3
  {
    if L == 0 then
      var p := Primary(ts);
      if p.Fail? then Fail else After(0, p.e, p.rest)
    else if L == 1 then
      if ts != [] && PrefixTok(ts[0]) then
        var p := P(1, ts[1..]);
        if p.Fail? then Fail else Done(Prefix(ts[0], p.e), p.rest)
      else if CastAhead(ts) then
        if |ts| < 3 || ts[2] != RPar then Fail
        else
          var p := P(1, ts[3..]);
          if p.Fail? then Fail else Done(Cast(ts[1].id, p.e), p.rest)
      else P(0, ts)
    else
      var p := P(L - 1, ts);
      if p.Fail? then Fail else After(L, p.e, p.rest)
  }

  function Primary(ts: seq<Token>): (r: Parse)
    ensures r.Done? ==> |r.rest| < |ts|
    decreases |ts|, 0, 0
  {
    if ts == [] then Fail
    else if ts[0].Name? then Done(Var(ts[0].id), ts[1..])
    else if ts[0].LPar? then
      var p := P(14, ts[1..]);
      if p.Fail? || p.rest == [] || p.rest[0] != RPar then Fail else Done(p.e, p.rest[1..])
    else Fail
  }

  /** What the parser at a level does with the tokens after its first operand. */
  function After(L: nat, e: Exp, ts: seq<Token>): (r: Parse)
    requires L <= 14
    ensures r.Done? ==> |r.rest| <= |ts|
    decreases |ts|, L, 2
  {
    if ts == [] || !Continues(L, ts[0]) then Done(e, ts)
    else if L == 0 then AfterPostfix(e, ts)
    else if L == 12 then
      var y := P(14, ts[1..]);
      if y.Fail? || y.rest == [] || y.rest[0] != Colon then Fail
      else
        var n := P(12, y.rest[1..]);
        if n.Fail? then Fail else Done(Cond(e, y.e, n.e), n.rest)
    else if L == 13 then
      var r := P(13, ts[1..]);
      if r.Fail? then Fail else Done(Assign(ts[0].kind, e, r.e), r.rest)
    else if L == 14 then
      var r := P(13, ts[1..]);
      if r.Fail? then Fail else After(14, Seq(e, r.e), r.rest)
    else
      var r := P(L - 1, ts[1..]);
      if r.Fail? then Fail else After(L, Binary(ts[0].op, e, r.e), r.rest)
  }

  /** The arguments of a call, up to the closing parenthesis; a comma may follow the last. */
  function PArgs(ts: seq<Token>): (r: ArgsParse)
    ensures r.ArgsDone? ==> |r.rest| < |ts|
    decreases |ts|, 14, 4
  {
    if ts == [] then BadArgs
    else if ts[0].RPar? then ArgsDone(NoArgs, ts[1..])
    else
      var p := P(13, ts);
      if p.Fail? || p.rest == [] then BadArgs
      else if p.rest[0].Comma? then
        var q := PArgs(p.rest[1..]);
        if q.BadArgs? then BadArgs else ArgsDone(Arg(p.e, q.args), q.rest)
      else if p.rest[0].RPar? then ArgsDone(Arg(p.e, NoArgs), p.rest[1..])
      else BadArgs
  }

  /** The next postfix operator. */
  function AfterPostfix(e: Exp, ts: seq<Token>): (r: Parse)
    requires ts != [] && Continues(0, ts[0])
    ensures r.Done? ==> |r.rest| <= |ts|
    decreases |ts|, 0, 1
  {
    match ts[0]
    case LBrk =>
      var i := P(14, ts[1..]);
      if i.Fail? || i.rest == [] || i.rest[0] != RBrk then Fail else After(0, Index(e, i.e), i.rest[1..])
    case PlusPlus => After(0, Postfix(e, true), ts[1..])
    case MinusMinus => After(0, Postfix(e, false), ts[1..])
    case LPar =>
      var a := PArgs(ts[1..]);
      if a.BadArgs? then Fail else After(0, Call(e, a.args, false), a.rest)
    case _ =>
      if |ts| < 2 || !ts[1].Name? then Fail else After(0, Member(e, ts[0].Arrow?, ts[1].id), ts[2..])
  }

  /** The tokens that continue an expression at exactly this level. */
  predicate Continues(L: nat, t: Token) {
    if L == 0 then t.LBrk? || t.LPar? || t.Dot? || t.Arrow? || t.PlusPlus? || t.MinusMinus?
    else if L == 12 then t.QMark?
    else if L == 13 then t.Asn?
    else if L == 14 then t.Comma?
    else t.Op? && OpLevel(t.op) == L
  }

  /** No level up to `L` continues with these tokens. */
  ghost predicate Stops(L: int, ts: seq<Token>) {
    ts == [] || forall l: nat :: l <= L ==> !Continues(l, ts[0])
  }

  // ---------- text is parsed to its tree ----------

  lemma AfterStops(L: nat, e: Exp, ts: seq<Token>)
    requires L <= 14 && Stops(L, ts)
    ensures After(L, e, ts) == Done(e, ts)
  {
    hide P, AfterPostfix, Continues;
  }

  lemma LevelUp(L: nat, ts: seq<Token>)
    requires 2 <= L <= 14
    ensures P(L, ts) == var p := P(L - 1, ts); if p.Fail? then Fail else After(L, p.e, p.rest)
  {
    hide After, Primary;
  }

  /** The parser at a level reaches the end of a tree's text and goes on from there. */
  ghost predicate Reaches(L: nat, e: Exp, rest: seq<Token>)
    requires L <= 14
  {
    P(L, Text(e) + rest) == After(L, Bare(e), rest)
  }

  /** Loops take up their own operators again; `?:` and assignment do so inside their last operand. */
  function Need(L: nat): int { if L == 12 || L == 13 then L else L - 1 }

  lemma {:induction false} Reach(L: nat, e: Exp, rest: seq<Token>)
    requires Fits(e) && Level(e) <= L <= 14 && Stops(Need(L), rest)
    ensures Reaches(L, e, rest)
    decreases e, L, 1
  {
    hide P, After, Primary, Stops, Text, Bare;
    if Level(e) < L {
      StopsLess(Need(L), Need(L - 1), rest);
      StopsLess(Need(L), L - 1, rest);
      Reach(L - 1, e, rest);
      AfterStops(L - 1, Bare(e), rest);
      if L == 1 { PlainUnary(e, rest); } else { LevelUp(L, Text(e) + rest); }
    } else {
      match e
      case Var(id) => ReachVar(e, rest);
      case Paren(inner) => ReachParen(e, rest);
      case Index(b, i) => ReachIndex(e, rest);
      case Member(b, arrow, tag) => ReachMember(e, rest);
      case Postfix(b, up) => ReachPostfix(e, rest);
      case Call(b, args, comma) => ReachCall(e, rest);
      case Prefix(t, a) => ReachPrefix(e, rest);
      case Cast(to, a) => ReachCast(e, rest);
      case Binary(op, l, r) => ReachBinary(e, rest);
      case Cond(c, y, n) => ReachCond(e, rest);
      case Assign(k, l, r) => ReachAssign(e, rest);
      case Seq(l, r) => ReachSeq(e, rest);
    }
  }

  lemma StopsLess(L: int, K: int, ts: seq<Token>)
    requires Stops(L, ts) && K <= L
    ensures Stops(K, ts)
  {
    hide Continues;
  }

  /** Whole operands: reached, and left when nothing continues them. */
  lemma {:induction false} Operand(L: nat, e: Exp, rest: seq<Token>)
    requires Fits(e) && Level(e) <= L <= 14 && Stops(L, rest)
    ensures P(L, Text(e) + rest) == Done(Bare(e), rest)
    decreases e, L, 2
  {
    hide P, After, Stops, Text, Bare;
    StopsLess(L, Need(L), rest);
    Reach(L, e, rest);
    AfterStops(L, Bare(e), rest);
  }

  /** No expression starts with a type or a closing parenthesis; one at level 0 starts with a name, or with a
      parenthesis that is not a cast's. */
  lemma {:induction false} FirstToken(e: Exp)
    requires Fits(e)
    ensures var ts := Text(e);
            && !ts[0].Type? && !ts[0].RPar?
            && (Level(e) == 0 ==> ts[0].Name? || (ts[0].LPar? && |ts| >= 2 && !ts[1].Type?))
  {
    hide OpLevel;
    match e
    case Paren(inner) => FirstToken(inner);
    case Index(b, _) => FirstToken(b);
    case Member(b, _, _) => FirstToken(b);
    case Postfix(b, _) => FirstToken(b);
    case Call(b, _, _) => FirstToken(b);
    case Binary(_, l, _) => FirstToken(l);
    case Cond(c, _, _) => FirstToken(c);
    case Assign(_, l, _) => FirstToken(l);
    case Seq(l, _) => FirstToken(l);
    case _ =>
  }

  lemma PlainUnary(e: Exp, rest: seq<Token>)
    requires Fits(e) && Level(e) == 0
    ensures P(1, Text(e) + rest) == P(0, Text(e) + rest)
    ensures forall x, ts :: After(1, x, ts) == Done(x, ts)
  {
    FirstToken(e);
    hide Text, Primary;
  }

  lemma PostfixIs(ts: seq<Token>)
    ensures P(0, ts) == var p := Primary(ts); if p.Fail? then Fail else After(0, p.e, p.rest)
  {
    hide Primary, After;
  }

  lemma ReachVar(e: Exp, rest: seq<Token>)
    requires e.Var?
    ensures Reaches(0, e, rest)
  {
    PostfixIs(Text(e) + rest);
    assert (Text(e) + rest)[1..] == rest;
    hide After, P;
  }

  lemma {:induction false} ReachParen(e: Exp, rest: seq<Token>)
    requires e.Paren? && Fits(e)
    ensures Reaches(0, e, rest)
    decreases e, 0, 0
  {
    var ts := Text(e) + rest;
    PostfixIs(ts);
    assert ts[1..] == Text(e.inner) + ([RPar] + rest);
    StopsRPar([RPar] + rest);
    Operand(14, e.inner, [RPar] + rest);
    assert ([RPar] + rest)[1..] == rest;
    hide After, P, Stops, Fits;
  }

  lemma StopsRPar(ts: seq<Token>)
    requires ts != [] && (ts[0] == RPar || ts[0] == RBrk || ts[0] == Colon)
    ensures Stops(14, ts)
  {}

  lemma IndexNext(e: Exp, ts: seq<Token>)
    requires ts != [] && ts[0].LBrk?
    ensures After(0, e, ts) ==
            var i := P(14, ts[1..]);
            if i.Fail? || i.rest == [] || i.rest[0] != RBrk then Fail else After(0, Index(e, i.e), i.rest[1..])
  {
    hide P;
  }

  lemma {:induction false} ReachIndex(e: Exp, rest: seq<Token>)
    requires e.Index? && Fits(e)
    ensures Reaches(0, e, rest)
    decreases e, 0, 0
  {
    var tail := Text(e.index) + ([RBrk] + rest);
    assert Text(e) + rest == Text(e.base) + ([LBrk] + tail);
    assert Bare(e) == Index(Bare(e.base), Bare(e.index));
    hide After, P, Stops, Text, Bare;
    Reach(0, e.base, [LBrk] + tail) by { NoLevel([LBrk] + tail); }
    IndexNext(Bare(e.base), [LBrk] + tail);
    assert ([LBrk] + tail)[1..] == tail && ([RBrk] + rest)[1..] == rest;
    StopsRPar([RBrk] + rest);
    Operand(14, e.index, [RBrk] + rest);
  }

  lemma NoLevel(ts: seq<Token>)
    ensures Stops(-1, ts)
  {}

  lemma MarkNext(e: Exp, ts: seq<Token>)
    requires ts != []
    ensures ts[0].PlusPlus? ==> After(0, e, ts) == After(0, Exp.Postfix(e, true), ts[1..])
    ensures ts[0].MinusMinus? ==> After(0, e, ts) == After(0, Exp.Postfix(e, false), ts[1..])
    ensures (ts[0].Dot? || ts[0].Arrow?) && |ts| >= 2 && ts[1].Name? ==>
            After(0, e, ts) == After(0, Member(e, ts[0].Arrow?, ts[1].id), ts[2..])
  {
    hide P;
  }

  lemma {:induction false} ReachMember(e: Exp, rest: seq<Token>)
    requires e.Member? && Fits(e)
    ensures Reaches(0, e, rest)
    decreases e, 0, 0
  {
    var tail := [if e.arrow then Arrow else Dot, Name(e.tag)] + rest;
    assert Text(e) + rest == Text(e.base) + tail;
    assert tail[2..] == rest;
    assert Bare(e) == Member(Bare(e.base), e.arrow, e.tag);
    hide After, P, Stops, Text, Bare;
    NoLevel(tail);
    Reach(0, e.base, tail);
    MarkNext(Bare(e.base), tail);
  }

  lemma {:induction false} ReachPostfix(e: Exp, rest: seq<Token>)
    requires e.Postfix? && Fits(e)
    ensures Reaches(0, e, rest)
    decreases e, 0, 0
  {
    var tail := [if e.up then PlusPlus else MinusMinus] + rest;
    assert Text(e) + rest == Text(e.base) + tail;
    assert tail[1..] == rest;
    assert Bare(e) == Exp.Postfix(Bare(e.base), e.up);
    hide After, P, Stops, Text, Bare;
    NoLevel(tail);
    Reach(0, e.base, tail);
    MarkNext(Bare(e.base), tail);
  }

  lemma CallNext(e: Exp, ts: seq<Token>)
    requires ts != [] && ts[0].LPar?
    ensures After(0, e, ts) == var a := PArgs(ts[1..]); if a.BadArgs? then Fail else After(0, Call(e, a.args, false), a.rest)
  {
    hide P, PArgs;
  }

  lemma {:induction false} ReachCall(e: Exp, rest: seq<Token>)
    requires e.Call? && Fits(e)
    ensures Reaches(0, e, rest)
    decreases e, 0, 0
  {
    var args := ArgsText(e.args, e.comma) + rest;
    var tail := [LPar] + args;
    assert Text(e) + rest == Text(e.base) + tail;
    assert tail[1..] == args;
    assert Bare(e) == Call(Bare(e.base), BareArgs(e.args), false);
    hide After, P, PArgs, Stops, Text, Bare, ArgsText, BareArgs;
    NoLevel(tail);
    Reach(0, e.base, tail);
    CallNext(Bare(e.base), tail);
    ReachArgs(e.args, e.comma, rest);
  }

  lemma {:induction false} ReachArgs(args: Args, comma: bool, rest: seq<Token>)
    requires ArgsFit(args)
    ensures PArgs(ArgsText(args, comma) + rest) == ArgsDone(BareArgs(args), rest)
    decreases args, 0, 0
  {
    hide P, Stops, Text, Bare, Fits, Level;
    match args
    case NoArgs => assert (ArgsText(args, comma) + rest)[1..] == rest;
    case Arg(e, tl) =>
      var next := if tl.Arg? || comma then [Comma] + ArgsText(tl, comma) else [RPar];
      assert ArgsText(args, comma) + rest == Text(e) + (next + rest);
      FirstToken(e);
      StopsArg(next + rest);
      Operand(13, e, next + rest);
      if tl.Arg? || comma {
        assert (next + rest)[1..] == ArgsText(tl, comma) + rest;
        ReachArgs(tl, comma, rest);
      } else {
        assert (next + rest)[1..] == rest;
      }
      hide ArgsText;
  }

  lemma StopsArg(ts: seq<Token>)
    requires ts != [] && (ts[0].Comma? || ts[0].RPar?)
    ensures Stops(13, ts)
  {}

  lemma CastNext(ts: seq<Token>)
    requires CastAhead(ts) && |ts| >= 3 && ts[2] == RPar
    ensures P(1, ts) == var p := P(1, ts[3..]); if p.Fail? then Fail else Done(Exp.Cast(ts[1].id, p.e), p.rest)
    ensures forall x, us :: After(1, x, us) == Done(x, us)
  {
    hide Primary;
  }

  lemma {:induction false} ReachCast(e: Exp, rest: seq<Token>)
    requires e.Cast? && Fits(e) && Stops(0, rest)
    ensures Reaches(1, e, rest)
    decreases e, 0, 0
  {
    var ts := Text(e) + rest;
    assert ts[3..] == Text(e.arg) + rest;
    assert Bare(e) == Exp.Cast(e.to, Bare(e.arg));
    assert ts[0] == LPar && ts[1] == Type(e.to) && ts[2] == RPar;
    hide After, P, Text, Bare;
    CastNext(ts);
    StopsOne(rest);
    Operand(1, e.arg, rest);
  }

  lemma PrefixNext(ts: seq<Token>)
    requires ts != [] && PrefixTok(ts[0])
    ensures P(1, ts) == var p := P(1, ts[1..]); if p.Fail? then Fail else Done(Exp.Prefix(ts[0], p.e), p.rest)
    ensures forall x, us :: After(1, x, us) == Done(x, us)
  {
    hide Primary;
  }

  lemma {:induction false} ReachPrefix(e: Exp, rest: seq<Token>)
    requires e.Prefix? && Fits(e) && Stops(0, rest)
    ensures Reaches(1, e, rest)
    decreases e, 0, 0
  {
    var ts := Text(e) + rest;
    assert ts[1..] == Text(e.arg) + rest;
    assert Bare(e) == Exp.Prefix(e.tok, Bare(e.arg));
    assert ts[0] == e.tok;
    hide After, P, Text, Bare;
    PrefixNext(ts);
    StopsOne(rest);
    Operand(1, e.arg, rest);
  }

  lemma StopsOne(ts: seq<Token>)
    requires Stops(0, ts)
    ensures Stops(1, ts)
  {}

  lemma BinaryNext(L: nat, e: Exp, ts: seq<Token>)
    requires 2 <= L <= 11 && ts != [] && ts[0].Op? && OpLevel(ts[0].op) == L
    ensures After(L, e, ts) == var r := P(L - 1, ts[1..]); if r.Fail? then Fail else After(L, Binary(ts[0].op, e, r.e), r.rest)
  {
    hide P;
  }

  lemma StopsAtOp(L: nat, ts: seq<Token>)
    requires ts != [] && 2 <= L <= 11
    requires ts[0].Op? && OpLevel(ts[0].op) == L
    ensures Stops(L - 1, ts)
  {}

  lemma {:induction false} ReachBinary(e: Exp, rest: seq<Token>)
    requires e.Binary? && Fits(e) && Stops(OpLevel(e.op) - 1, rest)
    ensures Reaches(OpLevel(e.op), e, rest)
    decreases e, 0, 0
  {
    var L := OpLevel(e.op);
    var tail := [Op(e.op)] + (Text(e.right) + rest);
    assert Text(e) + rest == Text(e.left) + tail;
    assert tail[1..] == Text(e.right) + rest;
    assert Bare(e) == Binary(e.op, Bare(e.left), Bare(e.right));
    hide After, P, Text, Bare, Stops, OpLevel;
    StopsAtOp(L, tail);
    Reach(L, e.left, tail);
    BinaryNext(L, Bare(e.left), tail);
    Operand(L - 1, e.right, rest);
  }

  lemma CondNext(e: Exp, ts: seq<Token>)
    requires ts != [] && ts[0].QMark?
    ensures After(12, e, ts) ==
            var y := P(14, ts[1..]);
            if y.Fail? || y.rest == [] || y.rest[0] != Colon then Fail
            else
              var n := P(12, y.rest[1..]);
              if n.Fail? then Fail else Done(Cond(e, y.e, n.e), n.rest)
  {
    hide P;
  }

  lemma {:induction false} ReachCond(e: Exp, rest: seq<Token>)
    requires e.Cond? && Fits(e) && Stops(12, rest)
    ensures Reaches(12, e, rest)
    decreases e, 0, 0
  {
    var tail := Text(e.yes) + ([Colon] + (Text(e.no) + rest));
    assert Text(e) + rest == Text(e.test) + ([QMark] + tail);
    assert ([QMark] + tail)[1..] == tail;
    assert ([Colon] + (Text(e.no) + rest))[1..] == Text(e.no) + rest;
    assert Bare(e) == Cond(Bare(e.test), Bare(e.yes), Bare(e.no));
    hide After, P, Text, Bare, Stops;
    StopsQ([QMark] + tail);
    Operand(11, e.test, [QMark] + tail);
    LevelUp(12, Text(e) + rest);
    CondNext(Bare(e.test), [QMark] + tail);
    StopsRPar([Colon] + (Text(e.no) + rest));
    Operand(14, e.yes, [Colon] + (Text(e.no) + rest));
    Operand(12, e.no, rest);
    AfterStops(12, Bare(e), rest);
  }

  lemma StopsQ(ts: seq<Token>)
    requires ts != []
    ensures ts[0].QMark? ==> Stops(11, ts)
    ensures ts[0].Asn? ==> Stops(12, ts)
    ensures ts[0].Comma? ==> Stops(13, ts)
  {}

  lemma AssignNext(e: Exp, ts: seq<Token>)
    requires ts != [] && ts[0].Asn?
    ensures After(13, e, ts) == var r := P(13, ts[1..]); if r.Fail? then Fail else Done(Assign(ts[0].kind, e, r.e), r.rest)
  {
    hide P;
  }

  lemma {:induction false} ReachAssign(e: Exp, rest: seq<Token>)
    requires e.Assign? && Fits(e) && Stops(13, rest)
    ensures Reaches(13, e, rest)
    decreases e, 0, 0
  {
    var tail := [Asn(e.kind)] + (Text(e.right) + rest);
    assert Text(e) + rest == Text(e.left) + tail;
    assert tail[1..] == Text(e.right) + rest;
    assert Bare(e) == Assign(e.kind, Bare(e.left), Bare(e.right));
    hide After, P, Text, Bare, Stops;
    StopsQ(tail);
    Operand(12, e.left, tail);
    LevelUp(13, Text(e) + rest);
    AssignNext(Bare(e.left), tail);
    Operand(13, e.right, rest);
    AfterStops(13, Bare(e), rest);
  }

  lemma SeqNext(e: Exp, ts: seq<Token>)
    requires ts != [] && ts[0].Comma?
    ensures After(14, e, ts) == var r := P(13, ts[1..]); if r.Fail? then Fail else After(14, Seq(e, r.e), r.rest)
  {
    hide P;
  }

  lemma {:induction false} ReachSeq(e: Exp, rest: seq<Token>)
    requires e.Seq? && Fits(e) && Stops(13, rest)
    ensures Reaches(14, e, rest)
    decreases e, 0, 0
  {
    var tail := [Comma] + (Text(e.right) + rest);
    assert Text(e) + rest == Text(e.left) + tail;
    assert tail[1..] == Text(e.right) + rest;
    assert Bare(e) == Seq(Bare(e.left), Bare(e.right));
    hide After, P, Text, Bare, Stops;
    StopsQ(tail);
    Reach(14, e.left, tail);
    SeqNext(Bare(e.left), tail);
    Operand(13, e.right, rest);
  }
}
