/** The productions of C's expression grammar (ISO C section 6.5), and that the parser accepts exactly what they derive. */
module ExprGrammar {
  import opened ExprSyntax
  import opened ExprParser

  /** The operators of the ten binary productions, from multiplicative to logical or. */
  function Tier(n: nat): set<BinOp>
    requires n < 10
  {
    match n
    case 0 => {BinOp.Star, Slash, Rem}
    case 1 => {BinOp.Plus, Minus}
    case 2 => {Shl, Shr}
    case 3 => {Lt, Gt, Le, Ge}
    case 4 => {BinOp.Eq, Ne}
    case 5 => {BinOp.And}
    case 6 => {Xor}
    case 7 => {Or}
    case 8 => {AndAnd}
    case 9 => {OrOr}
  }

  datatype Symbol = PrimaryExp | PostfixExp | CastExp | BinaryExp(tier: nat) | CondExp | AssignExp | FullExp

  function Height(n: Symbol): nat {
    match n
    case PrimaryExp => 0
    case PostfixExp => 1
    case CastExp => 2
    case BinaryExp(k) => 3 + k
    case CondExp => 13
    case AssignExp => 14
    case FullExp => 15
  }

  /** The operand of the tightest binary production is a cast expression. */
  function Tighter(k: nat): Symbol { if k == 0 then CastExp else BinaryExp(k - 1) }

  /** The symbol derives the tree, as it is written. */
  predicate Derives(n: Symbol, e: Exp)
    requires n.BinaryExp? ==> n.tier < 10
    decreases e, Height(n)
  {
    match n
    case PrimaryExp => e.Var? || (e.Paren? && Derives(FullExp, e.inner))
    case PostfixExp =>
      || Derives(PrimaryExp, e)
      || (e.Index? && Derives(PostfixExp, e.base) && Derives(FullExp, e.index))
      || (e.Member? && Derives(PostfixExp, e.base))
      || (e.Postfix? && Derives(PostfixExp, e.base))
      || (e.Call? && Derives(PostfixExp, e.base) && DerivesArgs(e.args) && (e.comma ==> e.args.Arg?))
    case CastExp =>
      || Derives(PostfixExp, e)
      || (e.Prefix? && e.tok in {PlusPlus, MinusMinus, Op(And), Op(Star), Op(Plus), Op(Minus), Tilde, Not} && Derives(CastExp, e.arg))
      || (e.Cast? && Derives(CastExp, e.arg))
    case BinaryExp(k) =>
      || Derives(Tighter(k), e)
      || (e.Binary? && e.op in Tier(k) && Derives(BinaryExp(k), e.left) && Derives(Tighter(k), e.right))
    case CondExp =>
      || Derives(BinaryExp(9), e)
      || (e.Cond? && Derives(BinaryExp(9), e.test) && Derives(FullExp, e.yes) && Derives(CondExp, e.no))
    case AssignExp =>
      || Derives(CondExp, e)
      || (e.Assign? && Derives(CondExp, e.left) && Derives(AssignExp, e.right))
    case FullExp =>
      || Derives(AssignExp, e)
      || (e.Seq? && Derives(FullExp, e.left) && Derives(AssignExp, e.right))
  }

  predicate DerivesArgs(args: Args)
    decreases args, 16
  {
    match args
    case NoArgs => true
    case Arg(e, tl) => Derives(AssignExp, e) && DerivesArgs(tl)
  }

  lemma TierLevel(op: BinOp, k: nat)
    requires k < 10
    ensures op in Tier(k) <==> OpLevel(op) == k + 2
  {}

  function LevelOf(n: Symbol): nat { if Height(n) == 0 then 0 else Height(n) - 1 }

  /** What a symbol derives are the trees that fit at its level. */
  lemma {:induction false} DerivesIff(n: Symbol, e: Exp)
    requires n.BinaryExp? ==> n.tier < 10
    ensures Derives(n, e) <==> Fits(e) && Level(e) <= LevelOf(n) && (n == PrimaryExp ==> e.Var? || e.Paren?)
    decreases e, Height(n), 1
  {
    hide OpLevel, Tier;
    match n
    case PrimaryExp => if e.Paren? { DerivesIff(FullExp, e.inner); }
    case PostfixExp => PostfixIff(e);
    case CastExp =>
      DerivesIff(PostfixExp, e);
      if e.Prefix? || e.Cast? { DerivesIff(CastExp, e.arg); }
    case BinaryExp(k) => BinaryIff(k, e);
    case CondExp =>
      DerivesIff(BinaryExp(9), e);
      if e.Cond? { DerivesIff(BinaryExp(9), e.test); DerivesIff(FullExp, e.yes); DerivesIff(CondExp, e.no); }
    case AssignExp =>
      DerivesIff(CondExp, e);
      if e.Assign? { DerivesIff(CondExp, e.left); DerivesIff(AssignExp, e.right); }
    case FullExp =>
      DerivesIff(AssignExp, e);
      if e.Seq? { DerivesIff(FullExp, e.left); DerivesIff(AssignExp, e.right); }
  }

  lemma {:induction false} BinaryIff(k: nat, e: Exp)
    requires k < 10
    ensures Derives(BinaryExp(k), e) <==> Fits(e) && Level(e) <= k + 2
    decreases e, 3 + k, 0
  {
    hide OpLevel, Tier;
    DerivesIff(Tighter(k), e);
    if e.Binary? {
      TierLevel(e.op, k);
      DerivesIff(BinaryExp(k), e.left);
      DerivesIff(Tighter(k), e.right);
    }
  }

  lemma {:induction false} PostfixIff(e: Exp)
    ensures Derives(PostfixExp, e) <==> Fits(e) && Level(e) == 0
    decreases e, 1, 0
  {
    hide OpLevel;
    DerivesIff(PrimaryExp, e);
    match e
    case Index(b, i) => DerivesIff(PostfixExp, b); DerivesIff(FullExp, i);
    case Member(b, _, _) => DerivesIff(PostfixExp, b);
    case Postfix(b, _) => DerivesIff(PostfixExp, b);
    case Call(b, args, _) => DerivesIff(PostfixExp, b); ArgsIff(args);
    case _ =>
  }

  lemma {:induction false} ArgsIff(args: Args)
    ensures DerivesArgs(args) <==> ArgsFit(args)
    decreases args, 16
  {
    hide Derives, Fits, Level;
    match args
    case NoArgs =>
    case Arg(e, tl) => DerivesIff(AssignExp, e); ArgsIff(tl);
  }

  /** The parser accepts a text as a tree exactly when the grammar derives the tree, written that way. */
  lemma AcceptsDerived(ts: seq<Token>, e: Exp)
    ensures P(14, ts) == Done(e, []) <==> exists c :: Derives(FullExp, c) && Text(c) == ts && Bare(c) == e
  {
    hide P, Text, Bare, Fits, Level, Derives;
    AcceptsIff(ts, e);
    forall c
      ensures Derives(FullExp, c) <==> Fits(c)
    {
      DerivesIff(FullExp, c);
    }
  }

  lemma PairText(o1: BinOp, o2: BinOp, x: Exp, y: Exp, z: Exp)
    ensures Text(Binary(o2, Binary(o1, x, y), z)) == Text(x) + [Op(o1)] + Text(y) + [Op(o2)] + Text(z)
    ensures Text(Binary(o1, x, Binary(o2, y, z))) == Text(x) + [Op(o1)] + Text(y) + [Op(o2)] + Text(z)
  {}

  lemma LeafFits(x: nat)
    ensures Bare(Var(x)) == Var(x) && Fits(Var(x)) && Level(Var(x)) == 0
  {}

  lemma PairFits(o1: BinOp, o2: BinOp, x: nat, y: nat, z: nat)
    ensures var c := Binary(o2, Binary(o1, Var(x), Var(y)), Var(z)); Bare(c) == c && (OpLevel(o1) <= OpLevel(o2) ==> Fits(c))
    ensures var c := Binary(o1, Var(x), Binary(o2, Var(y), Var(z))); Bare(c) == c && (OpLevel(o2) < OpLevel(o1) ==> Fits(c))
  {
    var a, b := Binary(o1, Var(x), Var(y)), Binary(o2, Var(y), Var(z));
    LeafFits(x);
    LeafFits(y);
    LeafFits(z);
    assert Bare(a) == a && Bare(b) == b && Fits(a) && Fits(b);
    hide OpLevel;
  }

  /** Of two operators in a row the one of the earlier tier takes the middle operand, in one tier the left one. */
  lemma Grouping(o1: BinOp, o2: BinOp, i: nat, j: nat, x: nat, y: nat, z: nat)
    requires i < 10 && j < 10 && o1 in Tier(i) && o2 in Tier(j)
    ensures P(14, [Name(x), Op(o1), Name(y), Op(o2), Name(z)]) ==
            Done(if i <= j then Binary(o2, Binary(o1, Var(x), Var(y)), Var(z)) else Binary(o1, Var(x), Binary(o2, Var(y), Var(z))), [])
  {
    var c := if i <= j then Binary(o2, Binary(o1, Var(x), Var(y)), Var(z)) else Binary(o1, Var(x), Binary(o2, Var(y), Var(z)));
    var ts := [Name(x), Op(o1), Name(y), Op(o2), Name(z)];
    assert Text(c) == ts by { PairText(o1, o2, Var(x), Var(y), Var(z)); }
    PairFits(o1, o2, x, y, z);
    TierLevel(o1, i);
    TierLevel(o2, j);
    hide P, Tier, OpLevel, Text, Fits, Bare;
    AcceptsIff(ts, c);
  }

  /** Every operator is in one tier. */
  lemma OneTier(op: BinOp)
    ensures exists k :: 0 <= k < 10 && op in Tier(k) && forall j :: 0 <= j < 10 && op in Tier(j) ==> j == k
  {
    var k := OpLevel(op) - 2;
    TierLevel(op, k);
    forall j: nat | j < 10 && op in Tier(j)
      ensures j == k
    {
      TierLevel(op, j);
    }
    hide OpLevel, Tier;
  }

  // ---------- the trees that can be written ----------

  lemma {:induction false} BareNoParens(c: Exp)
    requires Fits(c)
    ensures NoParens(Bare(c))
    decreases c, 1
  {
    hide OpLevel, PrefixTok, Level;
    match c
    case Var(_) =>
    case Paren(inner) => BareNoParens(inner);
    case Index(b, i) => BareNoParens(b); BareNoParens(i);
    case Member(b, _, _) => BareNoParens(b);
    case Postfix(b, _) => BareNoParens(b);
    case Call(b, args, _) => BareNoParens(b); ArgsNoParens(args);
    case Prefix(_, a) => BareNoParens(a);
    case Cast(_, a) => BareNoParens(a);
    case Binary(_, l, r) => BareNoParens(l); BareNoParens(r);
    case Cond(t, y, n) => BareNoParens(t); BareNoParens(y); BareNoParens(n);
    case Assign(_, l, r) => BareNoParens(l); BareNoParens(r);
    case Seq(l, r) => BareNoParens(l); BareNoParens(r);
  }

  lemma {:induction false} ArgsNoParens(args: Args)
    requires ArgsFit(args)
    ensures NoParensIn(BareArgs(args))
    decreases args, 0
  {
    hide Fits, Level, Bare, NoParens;
    match args
    case NoArgs =>
    case Arg(e, tl) => BareNoParens(e); ArgsNoParens(tl);
  }

  /** The trees without marks of parentheses are those that some text is parsed to. */
  lemma WrittenIff(e: Exp)
    ensures NoParens(e) <==> exists ts :: P(14, ts) == Done(e, [])
  {
    hide P, Text, Bare, Fits, Least, NoParens;
    if NoParens(e) { ParseUndoesText(e); }
    if ts :| P(14, ts) == Done(e, []) {
      AcceptsIff(ts, e);
      var c :| Fits(c) && Text(c) == ts && Bare(c) == e;
      BareNoParens(c);
    }
  }

  // ---------- the least parentheses are least ----------

  function Length(L: nat, e: Exp): nat { |Text(Within(L, Least(e)))| }

  function ArgsLength(args: Args): nat { |ArgsText(LeastArgs(args), false)| }

  /** No text of a tree is shorter than that with the least parentheses, in any place the text fits. */
  lemma {:induction false} Shortest(L: nat, c: Exp)
    requires Fits(c) && Level(c) <= L
    ensures Length(L, Bare(c)) <= |Text(c)|
    decreases c, 1
  {
    if c.Paren? {
      Shortest(14, c.inner);
      Parenthesised(L, Bare(c.inner));
      hide Length;
    } else {
      hide Length, Text, Least, Fits, OpLevel;
      NoParen(L, c);
      Smaller(c);
    }
  }

  lemma Parenthesised(L: nat, e: Exp)
    ensures Length(L, e) <= Length(14, e) + 2
  {
    hide Text, Least;
    ParenText(Least(e));
  }

  lemma ParenText(e: Exp)
    ensures |Text(Paren(e))| == |Text(e)| + 2
  {}

  lemma NoParen(L: nat, c: Exp)
    requires Level(c) <= L && !c.Paren?
    ensures Level(Bare(c)) == Level(c) && Length(L, Bare(c)) == |Text(Least(Bare(c)))|
  {
    hide Text, Least, OpLevel;
  }

  lemma {:induction false} Smaller(c: Exp)
    requires Fits(c) && !c.Paren?
    ensures |Text(Least(Bare(c)))| <= |Text(c)|
    decreases c, 0
  {
    hide OpLevel, Within, Level, Length, PrefixTok;
    match c
    case Var(_) =>
    case Index(b, i) => Shortest(0, b); Shortest(14, i); TopLength(Bare(i)); LengthIs(0, Bare(b));
    case Member(b, _, _) => Shortest(0, b); LengthIs(0, Bare(b));
    case Postfix(b, _) => Shortest(0, b); LengthIs(0, Bare(b));
    case Call(b, args, comma) => Shortest(0, b); LengthIs(0, Bare(b)); ArgsShortest(args, comma); hide ArgsText;
    case Prefix(_, a) => Shortest(1, a); LengthIs(1, Bare(a));
    case Cast(_, a) => Shortest(1, a); LengthIs(1, Bare(a));
    case Binary(op, l, r) =>
      Shortest(OpLevel(op), l);
      Shortest(OpLevel(op) - 1, r);
      LengthIs(OpLevel(op), Bare(l));
      LengthIs(OpLevel(op) - 1, Bare(r));
    case Cond(t, y, n) =>
      Shortest(11, t); Shortest(14, y); Shortest(12, n);
      TopLength(Bare(y)); LengthIs(11, Bare(t)); LengthIs(12, Bare(n));
    case Assign(_, l, r) => Shortest(12, l); Shortest(13, r); LengthIs(12, Bare(l)); LengthIs(13, Bare(r));
    case Seq(l, r) => Shortest(14, l); Shortest(13, r); TopLength(Bare(l)); LengthIs(13, Bare(r));
  }

  lemma LengthIs(L: nat, e: Exp)
    ensures Length(L, e) == |Text(Within(L, Least(e)))|
  {}

  lemma TopLength(e: Exp)
    ensures Length(14, e) == |Text(Least(e))|
  {
    hide Text, Least, Level;
  }

  lemma {:induction false} ArgsShortest(args: Args, comma: bool)
    requires ArgsFit(args)
    ensures ArgsLength(BareArgs(args)) <= |ArgsText(args, comma)|
    decreases args, 0
  {
    hide Text, Least, Level, Fits, Bare, Within, Length;
    match args
    case NoArgs =>
    case Arg(e, tl) =>
      Shortest(13, e);
      LengthIs(13, Bare(e));
      ArgsShortest(tl, comma);
  }

  /** Of all texts that parse to a tree without parentheses the one with the least parentheses is shortest. */
  lemma LeastIsShortest(e: Exp, ts: seq<Token>)
    requires P(14, ts) == Done(e, [])
    ensures |Text(Least(e))| <= |ts|
  {
    hide P, Text, Bare, Fits, Level, Least, Length;
    AcceptsIff(ts, e);
    var c :| Fits(c) && Text(c) == ts && Bare(c) == e;
    Shortest(14, c);
    TopLength(e);
  }
}
