/** The expression parser against its grammar: what it accepts, the least parentheses, and the parser in place. */
module ExprParser {
  import opened ExprSyntax

  datatype Option<T> = None | Some(value: T)

  // ---------- whatever is parsed is the text of the tree ----------

  /** `c` is a way to write, with its parentheses, what the parser found in `ts`. */
  ghost predicate Writes(c: Exp, L: nat, ts: seq<Token>, r: Parse) {
    r.Done? && Fits(c) && Level(c) <= L && Text(c) + r.rest == ts && Bare(c) == r.e
  }

  lemma {:induction false} ParsedIsText(L: nat, ts: seq<Token>) returns (c: Exp)
    requires L <= 14 && P(L, ts).Done?
    ensures Writes(c, L, ts, P(L, ts))
    decreases |ts|, L, 3
  {
    hide After, P, Primary, Text, Bare, Fits, Level;
    if L == 0 {
      PostfixIs(ts);
      var p := PrimaryIsText(ts);
      c := AfterIsText(0, p, Primary(ts).rest, ts);
    } else if L == 1 {
      UnaryIs(ts);
      if ts != [] && PrefixTok(ts[0]) {
        var a := ParsedIsText(1, ts[1..]);
        c := Exp.Prefix(ts[0], a);
        PrefixIsText(c, ts);
      } else if CastAhead(ts) {
        var a := ParsedIsText(1, ts[3..]);
        c := Exp.Cast(ts[1].id, a);
        CastIsText(c, ts);
      } else {
        c := ParsedIsText(0, ts);
      }
    } else {
      LevelUp(L, ts);
      var p := ParsedIsText(L - 1, ts);
      c := AfterIsText(L, p, P(L - 1, ts).rest, ts);
    }
  }

  lemma UnaryIs(ts: seq<Token>)
    ensures ts != [] && PrefixTok(ts[0]) ==>
              P(1, ts) == var p := P(1, ts[1..]); if p.Fail? then Fail else Done(Exp.Prefix(ts[0], p.e), p.rest)
    ensures CastAhead(ts) ==>
              P(1, ts) == if |ts| < 3 || ts[2] != RPar then Fail
                          else var p := P(1, ts[3..]); if p.Fail? then Fail else Done(Exp.Cast(ts[1].id, p.e), p.rest)
    ensures !(ts != [] && PrefixTok(ts[0])) && !CastAhead(ts) ==> P(1, ts) == P(0, ts)
  {
    hide Primary, After;
  }

  lemma CastIsText(c: Exp, ts: seq<Token>)
    requires CastAhead(ts) && |ts| >= 3 && ts[2] == RPar && c.Cast? && c.to == ts[1].id && Writes(c.arg, 1, ts[3..], P(1, ts[3..]))
    ensures Writes(c, 1, ts, Done(Exp.Cast(ts[1].id, P(1, ts[3..]).e), P(1, ts[3..]).rest))
  {
    hide P;
    assert ts == [LPar, Type(c.to), RPar] + ts[3..];
    assert Text(c) + P(1, ts[3..]).rest == [LPar, Type(c.to), RPar] + (Text(c.arg) + P(1, ts[3..]).rest);
  }

  lemma PrefixIsText(c: Exp, ts: seq<Token>)
    requires c.Prefix? && ts != [] && PrefixTok(ts[0]) && c.tok == ts[0] && Writes(c.arg, 1, ts[1..], P(1, ts[1..]))
    ensures Writes(c, 1, ts, Done(Exp.Prefix(ts[0], P(1, ts[1..]).e), P(1, ts[1..]).rest))
  {
    hide P;
    assert Text(c) + P(1, ts[1..]).rest == [ts[0]] + (Text(c.arg) + P(1, ts[1..]).rest);
  }

  lemma PrimaryIs(ts: seq<Token>)
    requires Primary(ts).Done?
    ensures ts != [] && (ts[0].Name? || ts[0].LPar?)
    ensures ts[0].Name? ==> Primary(ts) == Done(Var(ts[0].id), ts[1..])
    ensures ts[0].LPar? ==> var p := P(14, ts[1..]);
            p.Done? && p.rest != [] && p.rest[0] == RPar && Primary(ts) == Done(p.e, p.rest[1..])
  {
    hide P;
  }

  lemma {:induction false} PrimaryIsText(ts: seq<Token>) returns (c: Exp)
    requires Primary(ts).Done?
    ensures Writes(c, 0, ts, Primary(ts))
    decreases |ts|, 0, 0
  {
    PrimaryIs(ts);
    hide P, Primary;
    if ts[0].Name? {
      c := Var(ts[0].id);
    } else {
      var p := ParsedIsText(14, ts[1..]);
      c := Paren(p);
      var rest := P(14, ts[1..]).rest;
      assert Text(c) + rest[1..] == [LPar] + (Text(p) + rest);
    }
  }

  /** Going on after `c`, whose text starts `all`. */
  lemma {:induction false} AfterIsText(L: nat, c: Exp, ts: seq<Token>, all: seq<Token>) returns (d: Exp)
    requires L <= 14 && L != 1 && Fits(c) && Level(c) <= (if L == 12 || L == 13 then L - 1 else L)
    requires After(L, Bare(c), ts).Done? && all == Text(c) + ts
    ensures Writes(d, L, all, After(L, Bare(c), ts))
    decreases |ts|, L, 2
  {
    hide P, Primary, Text, Bare, Fits, Continues, After, Level;
    if ts == [] || !Continues(L, ts[0]) {
      NothingNext(L, Bare(c), ts);
      d := c;
    } else if L == 0 {
      d := PostfixIsText(c, ts, all);
    } else if L == 12 {
      d := CondIsText(c, ts, all);
    } else if L == 13 {
      d := AssignIsText(c, ts, all);
    } else if L == 14 {
      d := SeqIsText(c, ts, all);
    } else {
      d := BinaryIsText(L, c, ts, all);
    }
  }

  lemma NothingNext(L: nat, e: Exp, ts: seq<Token>)
    requires L <= 14 && (ts == [] || !Continues(L, ts[0]))
    ensures After(L, e, ts) == Done(e, ts)
  {
    hide P, AfterPostfix, Continues;
  }

  lemma ContinuesIs(L: nat, t: Token)
    requires Continues(L, t) && L <= 14
    ensures L == 12 ==> t.QMark?
    ensures L == 13 ==> t.Asn?
    ensures L == 14 ==> t.Comma?
    ensures 1 <= L <= 11 ==> t.Op? && OpLevel(t.op) == L
    ensures L == 0 ==> t.LBrk? || t.LPar? || t.Dot? || t.Arrow? || t.PlusPlus? || t.MinusMinus?
  {}

  lemma BinaryPieces(op: BinOp, c: Exp, r: Exp, rest: seq<Token>)
    requires Fits(c) && Fits(r) && Level(c) <= OpLevel(op) && Level(r) < OpLevel(op)
    ensures var b := Binary(op, c, r); Fits(b) && Level(b) == OpLevel(op) && Bare(b) == Binary(op, Bare(c), Bare(r))
    ensures Text(Binary(op, c, r)) + rest == Text(c) + ([Op(op)] + (Text(r) + rest))
  {
    hide OpLevel;
  }

  lemma {:induction false} BinaryIsText(L: nat, c: Exp, ts: seq<Token>, all: seq<Token>) returns (d: Exp)
    requires 2 <= L <= 11 && Fits(c) && Level(c) <= L && ts != [] && Continues(L, ts[0])
    requires After(L, Bare(c), ts).Done? && all == Text(c) + ts
    ensures Writes(d, L, all, After(L, Bare(c), ts))
    decreases |ts|, L, 1
  {
    ContinuesIs(L, ts[0]);
    hide P, After, Continues, OpLevel, Text, Bare, Fits, Level;
    BinaryNext(L, Bare(c), ts);
    var r := ParsedIsText(L - 1, ts[1..]);
    var b, rest := Binary(ts[0].op, c, r), P(L - 1, ts[1..]).rest;
    BinaryPieces(ts[0].op, c, r, rest);
    assert ts == [Op(ts[0].op)] + ts[1..];
    d := AfterIsText(L, b, rest, all);
  }

  lemma {:induction false} SeqIsText(c: Exp, ts: seq<Token>, all: seq<Token>) returns (d: Exp)
    requires Fits(c) && ts != [] && Continues(14, ts[0]) && After(14, Bare(c), ts).Done? && all == Text(c) + ts
    ensures Writes(d, 14, all, After(14, Bare(c), ts))
    decreases |ts|, 14, 1
  {
    ContinuesIs(14, ts[0]);
    hide P, After, Continues, OpLevel;
    SeqNext(Bare(c), ts);
    var r := ParsedIsText(13, ts[1..]);
    var b, rest := Seq(c, r), P(13, ts[1..]).rest;
    assert Text(b) + rest == Text(c) + ([ts[0]] + (Text(r) + rest));
    d := AfterIsText(14, b, rest, all);
  }

  lemma {:induction false} AssignIsText(c: Exp, ts: seq<Token>, all: seq<Token>) returns (d: Exp)
    requires Fits(c) && Level(c) <= 12 && ts != [] && Continues(13, ts[0])
    requires After(13, Bare(c), ts).Done? && all == Text(c) + ts
    ensures Writes(d, 13, all, After(13, Bare(c), ts))
    decreases |ts|, 13, 1
  {
    ContinuesIs(13, ts[0]);
    hide P, After, Continues, OpLevel;
    AssignNext(Bare(c), ts);
    var r := ParsedIsText(13, ts[1..]);
    var rest := P(13, ts[1..]).rest;
    d := Assign(ts[0].kind, c, r);
    assert Text(d) + rest == Text(c) + ([ts[0]] + (Text(r) + rest));
  }

  lemma CondPieces(c: Exp, y: Exp, n: Exp, rest: seq<Token>)
    requires Fits(c) && Fits(y) && Fits(n) && Level(c) <= 11 && Level(n) <= 12
    ensures var b := Cond(c, y, n); Fits(b) && Level(b) == 12 && Bare(b) == Cond(Bare(c), Bare(y), Bare(n))
    ensures Text(Cond(c, y, n)) + rest == Text(c) + ([QMark] + (Text(y) + ([Colon] + (Text(n) + rest))))
  {
    var a, b, m := Text(c), Text(y), Text(n);
    assert Text(Cond(c, y, n)) == a + [QMark] + b + [Colon] + m;
    hide *;
    Regroup(a + [QMark] + b + [Colon], m, rest);
    Regroup(a + [QMark] + b, [Colon], m + rest);
    Regroup(a + [QMark], b, [Colon] + (m + rest));
    Regroup(a, [QMark], b + ([Colon] + (m + rest)));
  }

  lemma Regroup(u: seq<Token>, v: seq<Token>, w: seq<Token>)
    ensures (u + v) + w == u + (v + w)
  {}

  lemma {:induction false} CondIsText(c: Exp, ts: seq<Token>, all: seq<Token>) returns (d: Exp)
    requires Fits(c) && Level(c) <= 11 && ts != [] && Continues(12, ts[0])
    requires After(12, Bare(c), ts).Done? && all == Text(c) + ts
    ensures Writes(d, 12, all, After(12, Bare(c), ts))
    decreases |ts|, 12, 1
  {
    ContinuesIs(12, ts[0]);
    hide P, After, Continues, OpLevel, Text, Bare, Fits, Level;
    CondNext(Bare(c), ts);
    var y := ParsedIsText(14, ts[1..]);
    var mid := P(14, ts[1..]).rest;
    var n := ParsedIsText(12, mid[1..]);
    var rest := P(12, mid[1..]).rest;
    d := Cond(c, y, n);
    CondPieces(c, y, n, rest);
    assert mid == [Colon] + (Text(n) + rest);
    assert ts == [QMark] + ts[1..];
  }

  lemma PostfixNext(e: Exp, ts: seq<Token>)
    requires ts != [] && Continues(0, ts[0]) && After(0, e, ts).Done?
    ensures ts[0].LPar? ==> PArgs(ts[1..]).ArgsDone?
    ensures ts[0].Dot? || ts[0].Arrow? ==> |ts| >= 2 && ts[1].Name?
  {
    hide P, PArgs;
  }

  lemma IndexPieces(c: Exp, i: Exp, rest: seq<Token>)
    requires Fits(c) && Fits(i) && Level(c) == 0
    ensures var b := Index(c, i); Fits(b) && Level(b) == 0 && Bare(b) == Index(Bare(c), Bare(i))
    ensures Text(Index(c, i)) + rest == Text(c) + ([LBrk] + (Text(i) + ([RBrk] + rest)))
  {}

  lemma {:induction false} PostfixIsText(c: Exp, ts: seq<Token>, all: seq<Token>) returns (d: Exp)
    requires Fits(c) && Level(c) == 0 && ts != [] && Continues(0, ts[0])
    requires After(0, Bare(c), ts).Done? && all == Text(c) + ts
    ensures Writes(d, 0, all, After(0, Bare(c), ts))
    decreases |ts|, 0, 1
  {
    PostfixNext(Bare(c), ts);
    ContinuesIs(0, ts[0]);
    hide P, After, Continues, Text, Bare, Fits, Level;
    if ts[0].LBrk? {
      IndexNext(Bare(c), ts);
      var i := ParsedIsText(14, ts[1..]);
      var b, mid := Index(c, i), P(14, ts[1..]).rest;
      IndexPieces(c, i, mid[1..]);
      assert mid == [RBrk] + mid[1..];
      assert ts == [LBrk] + ts[1..];
      d := AfterIsText(0, b, mid[1..], all);
    } else if ts[0].LPar? {
      CallNext(Bare(c), ts);
      var args, comma := ArgsIsText(ts[1..]);
      var b, rest := Call(c, args, comma), PArgs(ts[1..]).rest;
      CallPieces(c, args, comma, rest);
      assert ts == [LPar] + ts[1..];
      d := AfterIsText(0, b, rest, all);
    } else {
      MarkNext(Bare(c), ts);
      d := MarkIsText(c, ts, all);
    }
  }

  lemma CallPieces(c: Exp, args: Args, comma: bool, rest: seq<Token>)
    requires Fits(c) && Level(c) == 0 && ArgsFit(args) && (comma ==> args.Arg?)
    ensures var b := Call(c, args, comma); Fits(b) && Level(b) == 0 && Bare(b) == Call(Bare(c), BareArgs(args), false)
    ensures Text(Call(c, args, comma)) + rest == Text(c) + ([LPar] + (ArgsText(args, comma) + rest))
  {}

  /** What the parser took as arguments is the text of some. */
  lemma {:induction false} ArgsIsText(ts: seq<Token>) returns (args: Args, comma: bool)
    requires PArgs(ts).ArgsDone?
    ensures ArgsFit(args) && (comma ==> args.Arg?)
    ensures var r := PArgs(ts); ArgsText(args, comma) + r.rest == ts && BareArgs(args) == r.args
    decreases |ts|, 14, 4
  {
    hide P, Text, Bare, Fits, Level;
    if ts[0].RPar? {
      args, comma := NoArgs, false;
    } else {
      var e := ParsedIsText(13, ts);
      var rest := P(13, ts).rest;
      if rest[0].Comma? {
        var tl, more := ArgsIsText(rest[1..]);
        args, comma := Arg(e, tl), more || tl.NoArgs?;
        CommaText(tl, more);
        assert rest == [Comma] + rest[1..];
        Regroup(Text(e), [Comma] + ArgsText(tl, comma), PArgs(rest[1..]).rest);
        Regroup([Comma], ArgsText(tl, comma), PArgs(rest[1..]).rest);
      } else {
        args, comma := Arg(e, NoArgs), false;
        assert rest == [RPar] + rest[1..];
        Regroup(Text(e), [RPar], rest[1..]);
      }
    }
  }

  lemma CommaText(tl: Args, comma: bool)
    requires comma ==> tl.Arg?
    ensures ArgsText(tl, comma) == ArgsText(tl, comma || tl.NoArgs?)
  {
    hide Text;
  }

  lemma {:induction false} MarkIsText(c: Exp, ts: seq<Token>, all: seq<Token>) returns (d: Exp)
    requires Fits(c) && Level(c) == 0 && ts != [] && After(0, Bare(c), ts).Done? && all == Text(c) + ts
    requires ts[0].PlusPlus? || ts[0].MinusMinus? || ((ts[0].Dot? || ts[0].Arrow?) && |ts| >= 2 && ts[1].Name?)
    ensures Writes(d, 0, all, After(0, Bare(c), ts))
    decreases |ts|, 0, 0
  {
    MarkNext(Bare(c), ts);
    hide P, After, Continues;
    if ts[0].PlusPlus? || ts[0].MinusMinus? {
      var b := Exp.Postfix(c, ts[0].PlusPlus?);
      assert Text(b) + ts[1..] == Text(c) + ([ts[0]] + ts[1..]);
      d := AfterIsText(0, b, ts[1..], all);
    } else {
      var b := Member(c, ts[0].Arrow?, ts[1].id);
      assert Text(b) + ts[2..] == Text(c) + ([ts[0], ts[1]] + ts[2..]);
      d := AfterIsText(0, b, ts[2..], all);
    }
  }

  /** The parser accepts a whole text as a tree exactly when the text is that tree's, with or without more
      parentheses than it needs, by precedence and associativity. */
  lemma AcceptsIff(ts: seq<Token>, e: Exp)
    ensures P(14, ts) == Done(e, []) <==> exists c :: Fits(c) && Text(c) == ts && Bare(c) == e
  {
    hide P, Text, Bare, Fits, Level;
    if P(14, ts) == Done(e, []) {
      var c := ParsedIsText(14, ts);
      assert Text(c) + [] == Text(c);
    }
    if c :| Fits(c) && Text(c) == ts && Bare(c) == e {
      assert Text(c) + [] == Text(c);
      Operand(14, c, []);
    }
  }

  // ---------- the least parentheses ----------

  predicate NoParens(e: Exp) {
    match e
    case Var(_) => true
    case Paren(_) => false
    case Index(b, i) => NoParens(b) && NoParens(i)
    case Member(b, _, _) => NoParens(b)
    case Postfix(b, _) => NoParens(b)
    case Call(b, args, comma) => NoParens(b) && NoParensIn(args) && !comma
    case Prefix(t, a) => PrefixTok(t) && NoParens(a)
    case Cast(_, a) => NoParens(a)
    case Binary(_, l, r) => NoParens(l) && NoParens(r)
    case Cond(c, y, n) => NoParens(c) && NoParens(y) && NoParens(n)
    case Assign(_, l, r) => NoParens(l) && NoParens(r)
    case Seq(l, r) => NoParens(l) && NoParens(r)
  }

  predicate NoParensIn(args: Args) {
    match args
    case NoArgs => true
    case Arg(e, tl) => NoParens(e) && NoParensIn(tl)
  }

  /** Parentheses only where the level is too high for the place. */
  function Within(L: nat, e: Exp): (c: Exp)
    ensures Fits(e) ==> Fits(c)
    ensures Level(c) <= L && Bare(c) == Bare(e)
  {
    if Level(e) <= L then e else Paren(e)
  }

  function Least(e: Exp): (c: Exp)
    ensures Level(c) == Level(e)
  {
    match e
    case Index(b, i) => Index(Within(0, Least(b)), Least(i))
    case Member(b, arrow, tag) => Member(Within(0, Least(b)), arrow, tag)
    case Postfix(b, up) => Exp.Postfix(Within(0, Least(b)), up)
    case Call(b, args, comma) => Call(Within(0, Least(b)), LeastArgs(args), comma)
    case Prefix(t, a) => Exp.Prefix(t, Within(1, Least(a)))
    case Cast(to, a) => Exp.Cast(to, Within(1, Least(a)))
    case Binary(op, l, r) => Binary(op, Within(OpLevel(op), Least(l)), Within(OpLevel(op) - 1, Least(r)))
    case Cond(c, y, n) => Cond(Within(11, Least(c)), Least(y), Within(12, Least(n)))
    case Assign(k, l, r) => Assign(k, Within(12, Least(l)), Within(13, Least(r)))
    case Seq(l, r) => Seq(Least(l), Within(13, Least(r)))
    case _ => e
  }

  function LeastArgs(args: Args): Args {
    match args
    case NoArgs => NoArgs
    case Arg(e, tl) => Arg(Within(13, Least(e)), LeastArgs(tl))
  }

  lemma {:induction false} LeastArgsFit(args: Args)
    requires NoParensIn(args)
    ensures ArgsFit(LeastArgs(args)) && BareArgs(LeastArgs(args)) == args
  {
    hide Within, Level, Fits, Bare, Least, NoParens;
    match args
    case NoArgs =>
    case Arg(e, tl) => LeastFits(e); LeastArgsFit(tl);
  }

  lemma {:induction false} LeastFits(e: Exp)
    requires NoParens(e)
    ensures Fits(Least(e)) && Bare(Least(e)) == e
  {
    hide OpLevel, PrefixTok, Within;
    match e
    case Index(b, i) => LeastFits(b); LeastFits(i);
    case Member(b, _, _) => LeastFits(b);
    case Postfix(b, _) => LeastFits(b);
    case Call(b, args, _) => LeastFits(b); LeastArgsFit(args);
    case Prefix(_, a) => LeastFits(a);
    case Cast(_, a) => LeastFits(a);
    case Binary(op, l, r) => LeastFits(l); LeastFits(r); assert OpLevel(op) >= 2;
    case Cond(c, y, n) => LeastFits(c); LeastFits(y); LeastFits(n);
    case Assign(_, l, r) => LeastFits(l); LeastFits(r);
    case Seq(l, r) => LeastFits(l); LeastFits(r);
    case _ =>
  }

  /** Writing a tree with the least parentheses and parsing it gives the tree back. */
  lemma ParseUndoesText(e: Exp)
    requires NoParens(e)
    ensures P(14, Text(Least(e))) == Done(e, [])
  {
    hide P, Text, Bare, Fits, Least;
    LeastFits(e);
    Operand(14, Least(e), []);
    assert Text(Least(e)) + [] == Text(Least(e));
  }

  // ---------- the parser in place ----------

  /** A method's result against the parse it stands for. */
  ghost predicate Gives(r: Option<Exp>, rest: seq<Token>, p: Parse) {
    if p.Fail? then r.None? else r == Some(p.e) && rest == p.rest
  }

  class Parser {
    const toks: seq<Token>
    var pos: nat

    constructor (toks: seq<Token>)
      ensures this.toks == toks && pos == 0
    {
      this.toks, pos := toks, 0;
    }

    ghost function Rest(): seq<Token>
      reads this
      requires pos <= |toks|
    {
      toks[pos..]
    }

    /** The next token is there and continues an expression at level `L`. */
    predicate Ahead(L: nat)
      reads this
      requires pos <= |toks|
      ensures Ahead(L) <==> Rest() != [] && Continues(L, Rest()[0])
    {
      pos < |toks| && Continues(L, toks[pos])
    }

    method Drop()
      requires pos < |toks|
      modifies this
      ensures pos == old(pos) + 1 && Rest() == old(Rest())[1..]
    {
      pos := pos + 1;
    }

    /** Takes the next token if it is `t`. */
    method Expect(t: Token) returns (ok: bool)
      requires pos <= |toks|
      modifies this
      ensures ok <==> old(Rest()) != [] && old(Rest())[0] == t
      ensures pos <= |toks| && (ok ==> Rest() == old(Rest())[1..])
      ensures pos >= old(pos)
    {
      ok := pos < |toks| && toks[pos] == t;
      if ok { Drop(); }
    }

    method ParsePrimary() returns (r: Option<Exp>)
      requires pos <= |toks|
      modifies this
      ensures pos <= |toks| && Gives(r, Rest(), Primary(old(Rest())))
      decreases |Rest()|, 0, 0
    {
      hide P;
      if pos == |toks| { return None; }
      var t := toks[pos];
      if t.Name? {
        Drop();
        return Some(Var(t.id));
      }
      if !t.LPar? { return None; }
      Drop();
      r := ParseExpr();
      if r.None? { return; }
      var ok := Expect(RPar);
      if !ok { return None; }
    }

    method ParsePostfix() returns (r: Option<Exp>)
      requires pos <= |toks|
      modifies this
      ensures pos <= |toks| && Gives(r, Rest(), P(0, old(Rest())))
      decreases |Rest()|, 0, 1
    {
      hide P, After, Primary, Continues;
      ghost var was := Rest();
      PostfixIs(was);
      PrimaryShort(was);
      r := ParsePrimary();
      if r.None? { return; }
      while Ahead(0)
        invariant pos <= |toks| && r.Some? && After(0, r.value, Rest()) == P(0, was) && |Rest()| < |was|
        decreases |Rest()|
      {
        ghost var ts := Rest();
        ContinuesIs(0, ts[0]);
        PostfixCases(r.value, ts);
        var t := toks[pos];
        Drop();
        if t.LBrk? {
          ExprShort(Rest());
          var i := ParseExpr();
          if i.None? { return None; }
          var ok := Expect(RBrk);
          if !ok { return None; }
          r := Some(Index(r.value, i.value));
        } else if t.PlusPlus? || t.MinusMinus? {
          r := Some(Exp.Postfix(r.value, t.PlusPlus?));
        } else if t.LPar? {
          ArgsShort(Rest());
          var args := ParseArgs();
          if args.None? { return None; }
          r := Some(Call(r.value, args.value, false));
        } else if pos == |toks| || !toks[pos].Name? {
          return None;
        } else {
          r := Some(Member(r.value, t.Arrow?, toks[pos].id));
          assert ts[2..] == Rest()[1..];
          Drop();
        }
      }
      NothingNext(0, r.value, Rest());
    }

    /** Arguments one after the other, until no comma follows or the closing parenthesis does. */
    method ParseArgs() returns (r: Option<Args>)
      requires pos <= |toks|
      modifies this
      ensures pos <= |toks|
      ensures var a := PArgs(old(Rest())); if a.BadArgs? then r.None? else r == Some(a.args) && Rest() == a.rest
      decreases |Rest()|, 14, 1
    {
      hide P, PArgs;
      ghost var was := Rest();
      var es: seq<Exp> := [];
      var more := true;
      JoinNone(PArgs(was));
      while more && pos < |toks| && !toks[pos].RPar?
        invariant pos <= |toks| && |Rest()| <= |was|
        invariant if more then Join(es, PArgs(Rest())) == PArgs(was) else Join(es, Closing(Rest())) == PArgs(was)
        decreases |Rest()|, more
      {
        ghost var ts := Rest();
        ArgsNext(es, ts);
        LevelShort(13, ts);
        var e := ParseAssignment();
        if e.None? { return None; }
        es := es + [e.value];
        more := pos < |toks| && toks[pos].Comma?;
        if more { Drop(); }
      }
      LastArgs(es, Rest());
      var ok := Expect(RPar);
      if !ok { return None; }
      r := Some(FromSeq(es, NoArgs));
    }

    method ParseUnary() returns (r: Option<Exp>)
      requires pos <= |toks|
      modifies this
      ensures pos <= |toks| && Gives(r, Rest(), P(1, old(Rest())))
      decreases |Rest()|, 1, 0
    {
      hide P, PrefixTok;
      UnaryIs(Rest());
      if pos < |toks| && PrefixTok(toks[pos]) {
        var t := toks[pos];
        Drop();
        r := ParseUnary();
        if r.Some? { r := Some(Exp.Prefix(t, r.value)); }
      } else if pos + 1 < |toks| && toks[pos].LPar? && toks[pos + 1].Type? {
        var to := toks[pos + 1].id;
        Drop();
        Drop();
        var ok := Expect(RPar);
        if !ok { return None; }
        r := ParseUnary();
        if r.Some? { r := Some(Exp.Cast(to, r.value)); }
      } else {
        r := ParsePostfix();
      }
    }

    /** The ten binary levels: operands of the next tighter level, joined from the left. */
    method ParseBinary(L: nat) returns (r: Option<Exp>)
      requires pos <= |toks| && 2 <= L <= 11
      modifies this
      ensures pos <= |toks| && Gives(r, Rest(), P(L, old(Rest())))
      decreases |Rest()|, L, 0
    {
      hide P, After, Continues, OpLevel;
      ghost var was := Rest();
      LevelUp(L, was);
      LevelShort(L - 1, was);
      if L == 2 { r := ParseUnary(); } else { r := ParseBinary(L - 1); }
      if r.None? { return; }
      while Ahead(L)
        invariant pos <= |toks| && r.Some? && After(L, r.value, Rest()) == P(L, was) && |Rest()| < |was|
        decreases |Rest()|
      {
        ContinuesIs(L, Rest()[0]);
        BinaryNext(L, r.value, Rest());
        var op := toks[pos].op;
        Drop();
        var right;
        LevelShort(L - 1, Rest());
        if L == 2 { right := ParseUnary(); } else { right := ParseBinary(L - 1); }
        if right.None? { return None; }
        r := Some(Binary(op, r.value, right.value));
      }
      NothingNext(L, r.value, Rest());
    }

    method ParseConditional() returns (r: Option<Exp>)
      requires pos <= |toks|
      modifies this
      ensures pos <= |toks| && Gives(r, Rest(), P(12, old(Rest())))
      decreases |Rest()|, 12, 0
    {
      hide P, After, Continues;
      LevelUp(12, Rest());
      LevelShort(11, Rest());
      r := ParseBinary(11);
      if r.None? { return; }
      if Ahead(12) {
        ContinuesIs(12, Rest()[0]);
        CondNext(r.value, Rest());
        Drop();
        ExprShort(Rest());
        var yes := ParseExpr();
        if yes.None? { return None; }
        var ok := Expect(Colon);
        if !ok { return None; }
        var no := ParseConditional();
        if no.None? { return None; }
        r := Some(Cond(r.value, yes.value, no.value));
      } else {
        NothingNext(12, r.value, Rest());
      }
    }

    method ParseAssignment() returns (r: Option<Exp>)
      requires pos <= |toks|
      modifies this
      ensures pos <= |toks| && Gives(r, Rest(), P(13, old(Rest())))
      decreases |Rest()|, 13, 0
    {
      hide P, After, Continues;
      LevelUp(13, Rest());
      LevelShort(12, Rest());
      r := ParseConditional();
      if r.None? { return; }
      if Ahead(13) {
        ContinuesIs(13, Rest()[0]);
        AssignNext(r.value, Rest());
        var kind := toks[pos].kind;
        Drop();
        var right := ParseAssignment();
        if right.None? { return None; }
        r := Some(Assign(kind, r.value, right.value));
      } else {
        NothingNext(13, r.value, Rest());
      }
    }

    method ParseExpr() returns (r: Option<Exp>)
      requires pos <= |toks|
      modifies this
      ensures pos <= |toks| && Gives(r, Rest(), P(14, old(Rest())))
      decreases |Rest()|, 14, 0
    {
      hide P, After, Continues;
      ghost var was := Rest();
      LevelUp(14, was);
      LevelShort(13, was);
      r := ParseAssignment();
      if r.None? { return; }
      while Ahead(14)
        invariant pos <= |toks| && r.Some? && After(14, r.value, Rest()) == P(14, was) && |Rest()| < |was|
        decreases |Rest()|
      {
        ContinuesIs(14, Rest()[0]);
        SeqNext(r.value, Rest());
        Drop();
        LevelShort(13, Rest());
        var right := ParseAssignment();
        if right.None? { return None; }
        r := Some(Seq(r.value, right.value));
      }
      NothingNext(14, r.value, Rest());
    }
  }

  lemma LevelShort(L: nat, ts: seq<Token>)
    requires L <= 14
    ensures P(L, ts).Done? ==> |P(L, ts).rest| < |ts|
  {
    hide P;
  }

  /** Arguments before those still to come. */
  function FromSeq(es: seq<Exp>, tl: Args): Args {
    if es == [] then tl else FromSeq(es[..|es| - 1], Arg(es[|es| - 1], tl))
  }

  function Join(es: seq<Exp>, a: ArgsParse): ArgsParse {
    if a.BadArgs? then BadArgs else ArgsDone(FromSeq(es, a.args), a.rest)
  }

  function Closing(ts: seq<Token>): ArgsParse {
    if ts != [] && ts[0].RPar? then ArgsDone(NoArgs, ts[1..]) else BadArgs
  }

  lemma JoinNone(a: ArgsParse)
    ensures Join([], a) == a
  {}

  /** One more argument, then a comma or the end. */
  lemma ArgsNext(es: seq<Exp>, ts: seq<Token>)
    requires ts != [] && !ts[0].RPar?
    ensures var p := P(13, ts);
            if p.Fail? then Join(es, PArgs(ts)).BadArgs?
            else Join(es, PArgs(ts)) ==
                 Join(es + [p.e], if p.rest != [] && p.rest[0].Comma? then PArgs(p.rest[1..]) else Closing(p.rest))
  {
    hide P;
    var p := P(13, ts);
    if p.Done? { assert (es + [p.e])[..|es|] == es; }
  }

  lemma LastArgs(es: seq<Exp>, ts: seq<Token>)
    ensures ts == [] || ts[0].RPar? ==> PArgs(ts) == Closing(ts)
  {
    hide P;
  }

  lemma ArgsShort(ts: seq<Token>)
    ensures PArgs(ts).ArgsDone? ==> |PArgs(ts).rest| < |ts|
  {
    hide PArgs;
  }

  lemma ExprShort(ts: seq<Token>)
    ensures P(14, ts).Done? ==> |P(14, ts).rest| < |ts|
  {
    hide P;
  }

  lemma PrimaryShort(ts: seq<Token>)
    ensures Primary(ts).Done? ==> |Primary(ts).rest| < |ts|
  {
    hide Primary;
  }

  lemma PostfixCases(e: Exp, ts: seq<Token>)
    requires ts != [] && Continues(0, ts[0])
    ensures ts[0].LBrk? ==>
            (var i := P(14, ts[1..]);
             After(0, e, ts) == if i.Fail? || i.rest == [] || i.rest[0] != RBrk then Fail else After(0, Index(e, i.e), i.rest[1..]))
    ensures ts[0].PlusPlus? || ts[0].MinusMinus? ==> After(0, e, ts) == After(0, Exp.Postfix(e, ts[0].PlusPlus?), ts[1..])
    ensures ts[0].LPar? ==>
            (var a := PArgs(ts[1..]); After(0, e, ts) == if a.BadArgs? then Fail else After(0, Call(e, a.args, false), a.rest))
    ensures ts[0].Dot? || ts[0].Arrow? ==>
            (After(0, e, ts) == if |ts| < 2 || !ts[1].Name? then Fail else After(0, Member(e, ts[0].Arrow?, ts[1].id), ts[2..]))
  {
    hide P, PArgs;
  }
}
