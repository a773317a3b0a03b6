/** What single tokens mean to the expression parser (src/core/parser.c). */
module ParserTokens {
  import opened Syntax
  import opened ParserRoundTrip

  // The round trip goes through one table of operators in both directions, and would hold of any
  // other. Here every token is written out with the tree it stands for.

  lemma {:induction false} Printed(e: Expr, ts: seq<Token>)
    requires WellFormed(e) && Body(e) == ts
    ensures ParseAt(0, ts) == Parsed(e, [])
  {
    hide ParseAt, Body, WellFormed;
    assert PrintAt(e, 0) == ts;
    assert ts + [] == ts;
    RoundTrip(e, []);
  }

  lemma {:induction false} IdentPrints(a: string, level: nat)
    requires level <= 10
    ensures WellFormed(Ident(a)) && PrintAt(Ident(a), level) == [TIdent(a)]
  {
  }

  lemma {:induction false} BinaryPrints(op: BinOp, t: Token, l: Expr, r: Expr, tl: seq<Token>, tr: seq<Token>)
    requires t == TokenOfOp(op) && WellFormed(l) && WellFormed(r)
    requires PrintAt(l, if op == Range then 2 else LevelOfOp(op)) == tl && PrintAt(r, LevelOfOp(op) + 1) == tr
    ensures WellFormed(Binary(op, l, r)) && Body(Binary(op, l, r)) == tl + [t] + tr
  {
    hide PrintAt, TokenOfOp;
    assert Body(Binary(op, l, r)) == tl + ([t] + tr);
  }

  lemma {:induction false} InfixPrints(op: BinOp, t: Token, a: string, b: string)
    requires t == TokenOfOp(op)
    ensures var e := Binary(op, Ident(a), Ident(b)); WellFormed(e) && Body(e) == [TIdent(a), t, TIdent(b)]
  {
    hide PrintAt, Body, WellFormed, TokenOfOp;
    IdentPrints(a, if op == Range then 2 else LevelOfOp(op));
    IdentPrints(b, LevelOfOp(op) + 1);
    BinaryPrints(op, t, Ident(a), Ident(b), [TIdent(a)], [TIdent(b)]);
    assert [TIdent(a)] + [t] + [TIdent(b)] == [TIdent(a), t, TIdent(b)];
  }

  lemma {:induction false} Infix(op: BinOp, t: Token, a: string, b: string)
    requires t == TokenOfOp(op)
    ensures ParseAt(0, [TIdent(a), t, TIdent(b)]) == Parsed(Binary(op, Ident(a), Ident(b)), [])
  {
    hide ParseAt, Body, WellFormed, TokenOfOp;
    InfixPrints(op, t, a, b);
    Printed(Binary(op, Ident(a), Ident(b)), [TIdent(a), t, TIdent(b)]);
  }

  /** Between two operands each operator token makes the operation of its name: the four loose ones, */
  lemma {:induction false} LooseOperators(a: string, b: string)
    ensures var x, y, l, r := TIdent(a), TIdent(b), Ident(a), Ident(b);
      && ParseAt(0, [x, DotDot, y]) == Parsed(Binary(Range, l, r), [])
      && ParseAt(0, [x, QuestionQuestion, y]) == Parsed(Binary(Nullish, l, r), [])
      && ParseAt(0, [x, OrOr, y]) == Parsed(Binary(Or, l, r), [])
      && ParseAt(0, [x, AndAnd, y]) == Parsed(Binary(And, l, r), [])
  {
    hide ParseAt, WellFormed;
    Infix(Range, DotDot, a, b);
    Infix(Nullish, QuestionQuestion, a, b);
    Infix(Or, OrOr, a, b);
    Infix(And, AndAnd, a, b);
  }

  /** the tests of equality, */
  lemma {:induction false} EqualityOperators(a: string, b: string)
    ensures var x, y, l, r := TIdent(a), TIdent(b), Ident(a), Ident(b);
      && ParseAt(0, [x, EqualEqual, y]) == Parsed(Binary(Eq, l, r), [])
      && ParseAt(0, [x, BangEqual, y]) == Parsed(Binary(Neq, l, r), [])
  {
    hide ParseAt, WellFormed;
    Infix(Eq, EqualEqual, a, b);
    Infix(Neq, BangEqual, a, b);
  }

  /** the comparisons, */
  lemma {:induction false} ComparisonOperators(a: string, b: string)
    ensures var x, y, l, r := TIdent(a), TIdent(b), Ident(a), Ident(b);
      && ParseAt(0, [x, Less, y]) == Parsed(Binary(Lt, l, r), [])
      && ParseAt(0, [x, LessEqual, y]) == Parsed(Binary(Lte, l, r), [])
      && ParseAt(0, [x, Greater, y]) == Parsed(Binary(Gt, l, r), [])
      && ParseAt(0, [x, GreaterEqual, y]) == Parsed(Binary(Gte, l, r), [])
  {
    hide ParseAt, WellFormed;
    Infix(Lt, Less, a, b);
    Infix(Lte, LessEqual, a, b);
    Infix(Gt, Greater, a, b);
    Infix(Gte, GreaterEqual, a, b);
  }

  /** sums and differences, */
  lemma {:induction false} SumOperators(a: string, b: string)
    ensures var x, y, l, r := TIdent(a), TIdent(b), Ident(a), Ident(b);
      && ParseAt(0, [x, Plus, y]) == Parsed(Binary(Add, l, r), [])
      && ParseAt(0, [x, Minus, y]) == Parsed(Binary(Sub, l, r), [])
  {
    hide ParseAt, WellFormed;
    Infix(Add, Plus, a, b);
    Infix(Sub, Minus, a, b);
  }

  /** products, quotients and remainders. */
  lemma {:induction false} ProductOperators(a: string, b: string)
    ensures var x, y, l, r := TIdent(a), TIdent(b), Ident(a), Ident(b);
      && ParseAt(0, [x, Star, y]) == Parsed(Binary(Mul, l, r), [])
      && ParseAt(0, [x, Slash, y]) == Parsed(Binary(Div, l, r), [])
      && ParseAt(0, [x, Percent, y]) == Parsed(Binary(Mod, l, r), [])
  {
    hide ParseAt, WellFormed;
    Infix(Mul, Star, a, b);
    Infix(Div, Slash, a, b);
    Infix(Mod, Percent, a, b);
  }

  lemma {:induction false} PrefixPrints(a: string)
    ensures WellFormed(Unary(Not, Ident(a))) && Body(Unary(Not, Ident(a))) == [Bang, TIdent(a)]
    ensures WellFormed(Unary(Neg, Ident(a))) && Body(Unary(Neg, Ident(a))) == [Minus, TIdent(a)]
    ensures WellFormed(TypeOf(Ident(a))) && Body(TypeOf(Ident(a))) == [Typeof, TIdent(a)]
  {
    hide PrintAt;
    IdentPrints(a, 8);
  }

  /** Prefix tokens apply to what follows them. */
  lemma {:induction false} PrefixTokens(a: string)
    ensures ParseAt(0, [Bang, TIdent(a)]) == Parsed(Unary(Not, Ident(a)), [])
    ensures ParseAt(0, [Minus, TIdent(a)]) == Parsed(Unary(Neg, Ident(a)), [])
    ensures ParseAt(0, [Typeof, TIdent(a)]) == Parsed(TypeOf(Ident(a)), [])
  {
    hide ParseAt, Body, WellFormed;
    PrefixPrints(a);
    Printed(Unary(Not, Ident(a)), [Bang, TIdent(a)]);
    Printed(Unary(Neg, Ident(a)), [Minus, TIdent(a)]);
    Printed(TypeOf(Ident(a)), [Typeof, TIdent(a)]);
  }

  /** Literals are expressions by themselves, */
  lemma {:induction false} LiteralTokens(n: nat, x: real, text: string, rest: seq<Token>)
    ensures ParsePrimary([TInt(n)] + rest) == Parsed(IntLit(n), rest)
    ensures ParsePrimary([TFloat(x)] + rest) == Parsed(FloatLit(x), rest)
    ensures ParsePrimary([TString(text)] + rest) == Parsed(StrLit(text), rest)
  {
    hide WellFormed, ArrayStep, GroupStep, ParseAt;
    assert ([TInt(n)] + rest)[1..] == rest;
    assert ([TFloat(x)] + rest)[1..] == rest;
    assert ([TString(text)] + rest)[1..] == rest;
  }

  /** and so are the constants */
  lemma {:induction false} ConstantTokens(rest: seq<Token>)
    ensures ParsePrimary([TTrue] + rest) == Parsed(BoolLit(true), rest)
    ensures ParsePrimary([TFalse] + rest) == Parsed(BoolLit(false), rest)
    ensures ParsePrimary([TNull] + rest) == Parsed(NullLit, rest)
  {
    hide WellFormed, ArrayStep, GroupStep, ParseAt;
    assert ([TTrue] + rest)[1..] == rest;
    assert ([TFalse] + rest)[1..] == rest;
    assert ([TNull] + rest)[1..] == rest;
  }

  /** and names, among them the two type words, which are module names here. */
  lemma {:induction false} NameTokens(a: string, rest: seq<Token>)
    ensures ParsePrimary([TIdent(a)] + rest) == Parsed(Ident(a), rest)
    ensures ParsePrimary([TArrayWord] + rest) == Parsed(Ident("array"), rest)
    ensures ParsePrimary([TStrWord] + rest) == Parsed(Ident("str"), rest)
  {
    hide WellFormed, ArrayStep, GroupStep, ParseAt;
    assert ([TIdent(a)] + rest)[1..] == rest;
    assert ([TArrayWord] + rest)[1..] == rest;
    assert ([TStrWord] + rest)[1..] == rest;
  }

  lemma {:induction false} SuffixPrints(a: string, b: string, c: string)
    ensures var x, y, o := TIdent(a), TIdent(b), Ident(a);
      && WellFormed(Member(o, b)) && Body(Member(o, b)) == [x, Dot, y]
      && WellFormed(OptMember(o, b)) && Body(OptMember(o, b)) == [x, QuestionDot, y]
  {
    hide PrintAt;
    IdentPrints(a, 9);
  }

  lemma {:induction false} IndexPrints(a: string, b: string)
    ensures var x, y, o, i := TIdent(a), TIdent(b), Ident(a), Ident(b);
      && WellFormed(Index(o, i)) && Body(Index(o, i)) == [x, LBracket, y, RBracket]
      && WellFormed(OptIndex(o, i)) && Body(OptIndex(o, i)) == [x, QuestionDot, LBracket, y, RBracket]
  {
    hide PrintAt;
    IdentPrints(a, 9);
    IdentPrints(b, 0);
  }

  lemma {:induction false} CallPrints(a: string, b: string, c: string)
    ensures var x, y, z, f, args := TIdent(a), TIdent(b), TIdent(c), Ident(a), [Ident(b), Ident(c)];
      && WellFormed(Call(f, [])) && Body(Call(f, [])) == [x, LParen, RParen]
      && WellFormed(Call(f, args)) && Body(Call(f, args)) == [x, LParen, y, Comma, z, RParen]
  {
    hide PrintAt;
    var x, y, z, f, args := TIdent(a), TIdent(b), TIdent(c), Ident(a), [Ident(b), Ident(c)];
    IdentPrints(a, 9);
    IdentPrints(b, 0);
    IdentPrints(c, 0);
    assert args[1..] == [Ident(c)];
    assert PrintArgs([Ident(c)]) == [z];
    assert PrintArgs(args) == [y, Comma, z];
    assert PrintArgs([]) == [];
    assert Body(Call(f, args)) == [x] + ([LParen] + [y, Comma, z] + [RParen]);
    assert Body(Call(f, [])) == [x] + ([LParen] + [] + [RParen]);
  }

  lemma {:induction false} StructPrints(a: string, b: string, c: string)
    ensures var e := StructLit(a, [FieldInit(b, Ident(c))]);
      && WellFormed(e) && Body(e) == [TIdent(a), LBrace, TIdent(b), Colon, TIdent(c), RBrace]
  {
    hide PrintAt;
    var fields := [FieldInit(b, Ident(c))];
    IdentPrints(c, 0);
    assert PrintFields(fields) == [TIdent(b), Colon, TIdent(c)];
    assert Body(StructLit(a, fields)) == [TIdent(a), LBrace] + [TIdent(b), Colon, TIdent(c)] + [RBrace];
  }

  /** Suffixes belong to what stands before them. */
  lemma {:induction false} SuffixTokens(a: string, b: string, c: string)
    ensures var x, y, z := TIdent(a), TIdent(b), TIdent(c);
      && ParseAt(0, [x, Dot, y]) == Parsed(Member(Ident(a), b), [])
      && ParseAt(0, [x, QuestionDot, y]) == Parsed(OptMember(Ident(a), b), [])
      && ParseAt(0, [x, LBracket, y, RBracket]) == Parsed(Index(Ident(a), Ident(b)), [])
      && ParseAt(0, [x, QuestionDot, LBracket, y, RBracket]) == Parsed(OptIndex(Ident(a), Ident(b)), [])
      && ParseAt(0, [x, LParen, RParen]) == Parsed(Call(Ident(a), []), [])
      && ParseAt(0, [x, LParen, y, Comma, z, RParen]) == Parsed(Call(Ident(a), [Ident(b), Ident(c)]), [])
      && ParseAt(0, [x, LBrace, y, Colon, z, RBrace]) == Parsed(StructLit(a, [FieldInit(b, Ident(c))]), [])
  {
    hide ParseAt, Body, WellFormed;
    var x, y, z := TIdent(a), TIdent(b), TIdent(c);
    SuffixPrints(a, b, c);
    IndexPrints(a, b);
    CallPrints(a, b, c);
    StructPrints(a, b, c);
    Printed(Member(Ident(a), b), [x, Dot, y]);
    Printed(OptMember(Ident(a), b), [x, QuestionDot, y]);
    Printed(Index(Ident(a), Ident(b)), [x, LBracket, y, RBracket]);
    Printed(OptIndex(Ident(a), Ident(b)), [x, QuestionDot, LBracket, y, RBracket]);
    Printed(Call(Ident(a), []), [x, LParen, RParen]);
    Printed(Call(Ident(a), [Ident(b), Ident(c)]), [x, LParen, y, Comma, z, RParen]);
    Printed(StructLit(a, [FieldInit(b, Ident(c))]), [x, LBrace, y, Colon, z, RBrace]);
  }

  lemma {:induction false} ArrayPrints(a: string, b: string)
    ensures var e, elems := ArrayLit([]), [Item(Ident(a)), Spread(Ident(b))];
      && WellFormed(e) && Body(e) == [LBracket, RBracket]
      && WellFormed(ArrayLit(elems))
      && Body(ArrayLit(elems)) == [LBracket, TIdent(a), Comma, DotDotDot, TIdent(b), RBracket]
  {
    hide PrintAt;
    var elems, last := [Item(Ident(a)), Spread(Ident(b))], [Spread(Ident(b))];
    IdentPrints(a, 0);
    IdentPrints(b, 0);
    assert elems[1..] == last && last[0] == Spread(Ident(b));
    assert PrintElem(last[0]) == [DotDotDot, TIdent(b)];
    assert PrintElems(last) == [DotDotDot, TIdent(b)];
    assert PrintElems(elems) == [TIdent(a)] + ([Comma] + [DotDotDot, TIdent(b)]);
    assert PrintElems([]) == [];
    assert Body(ArrayLit([])) == [LBracket] + [] + [RBracket];
    assert Body(ArrayLit(elems)) == [LBracket] + ([TIdent(a)] + ([Comma] + [DotDotDot, TIdent(b)])) + [RBracket];
  }

  /** Array literals keep their elements in order and tell spread ones apart. */
  lemma {:induction false} BracketTokens(a: string, b: string)
    ensures ParseAt(0, [LBracket, RBracket]) == Parsed(ArrayLit([]), [])
    ensures ParseAt(0, [LBracket, TIdent(a), Comma, DotDotDot, TIdent(b), RBracket])
         == Parsed(ArrayLit([Item(Ident(a)), Spread(Ident(b))]), [])
  {
    hide ParseAt, Body, WellFormed;
    ArrayPrints(a, b);
    Printed(ArrayLit([]), [LBracket, RBracket]);
    Printed(ArrayLit([Item(Ident(a)), Spread(Ident(b))]),
            [LBracket, TIdent(a), Comma, DotDotDot, TIdent(b), RBracket]);
  }

  lemma {:induction false} AssignPrints(a: string, v: Expr, tv: seq<Token>)
    requires WellFormed(v) && PrintAt(v, 0) == tv
    ensures WellFormed(Assign(Ident(a), v)) && Body(Assign(Ident(a), v)) == [TIdent(a), Equal] + tv
  {
    hide PrintAt;
    IdentPrints(a, 1);
    assert [TIdent(a), Equal] + tv == [TIdent(a)] + ([Equal] + tv);
  }

  lemma {:induction false} ProductsFirst(a: string, b: string, c: string)
    ensures var x, y, z, l, m, r := TIdent(a), TIdent(b), TIdent(c), Ident(a), Ident(b), Ident(c);
      && ParseAt(0, [x, Plus, y, Star, z]) == Parsed(Binary(Add, l, Binary(Mul, m, r)), [])
      && ParseAt(0, [x, Star, y, Plus, z]) == Parsed(Binary(Add, Binary(Mul, l, m), r), [])
  {
    hide ParseAt, Body, WellFormed;
    var x, y, z, l, m, r := TIdent(a), TIdent(b), TIdent(c), Ident(a), Ident(b), Ident(c);
    IdentPrints(a, 6);
    IdentPrints(c, 7);
    InfixPrints(Mul, Star, b, c);
    BinaryPrints(Add, Plus, l, Binary(Mul, m, r), [x], [y, Star, z]);
    Printed(Binary(Add, l, Binary(Mul, m, r)), [x, Plus, y, Star, z]);
    InfixPrints(Mul, Star, a, b);
    BinaryPrints(Add, Plus, Binary(Mul, l, m), r, [x, Star, y], [z]);
    Printed(Binary(Add, Binary(Mul, l, m), r), [x, Star, y, Plus, z]);
  }

  /** Operators of one level group to the left and assignments to the right; a product binds its
      factors before a sum. */
  lemma {:induction false} Grouping(a: string, b: string, c: string)
    ensures var x, y, z, l, m, r := TIdent(a), TIdent(b), TIdent(c), Ident(a), Ident(b), Ident(c);
      && ParseAt(0, [x, Minus, y, Minus, z]) == Parsed(Binary(Sub, Binary(Sub, l, m), r), [])
      && ParseAt(0, [x, Equal, y, Equal, z]) == Parsed(Assign(l, Assign(m, r)), [])
      && ParseAt(0, [x, Plus, y, Star, z]) == Parsed(Binary(Add, l, Binary(Mul, m, r)), [])
      && ParseAt(0, [x, Star, y, Plus, z]) == Parsed(Binary(Add, Binary(Mul, l, m), r), [])
  {
    hide ParseAt, Body, WellFormed;
    var x, y, z, l, m, r := TIdent(a), TIdent(b), TIdent(c), Ident(a), Ident(b), Ident(c);
    ProductsFirst(a, b, c);
    IdentPrints(c, 7);
    InfixPrints(Sub, Minus, a, b);
    BinaryPrints(Sub, Minus, Binary(Sub, l, m), r, [x, Minus, y], [z]);
    Printed(Binary(Sub, Binary(Sub, l, m), r), [x, Minus, y, Minus, z]);
    IdentPrints(c, 0);
    AssignPrints(b, r, [z]);
    AssignPrints(a, Assign(m, r), [y, Equal, z]);
    Printed(Assign(l, Assign(m, r)), [x, Equal, y, Equal, z]);
  }

  /** Names, elements and members can be assigned to, with whatever value, and nothing else can. */
  lemma {:induction false} Targets(t: Expr, v: Expr)
    requires WellFormed(t) && WellFormed(v)
    ensures ParseAt(0, PrintAt(t, 1) + ([Equal] + PrintAt(v, 0)))
         == if t.Ident? || t.Index? || t.Member? then Parsed(Assign(t, v), []) else Failed
  {
    hide PrintAt, WellFormed, ParseAt;
    var tv := PrintAt(v, 0);
    PrintParses(t, 1, [Equal] + tv);
    assert tv + [] == tv;
    RoundTrip(v, []);
    if Assignable(t) {
      AssignTokens(t, v, PrintAt(t, 1) + ([Equal] + tv), tv, []);
    } else {
      NoTarget(t, PrintAt(t, 1) + ([Equal] + tv), tv);
    }
  }

  lemma {:induction false} NoTarget(t: Expr, ts: seq<Token>, tv: seq<Token>)
    requires !Assignable(t) && ParseAt(1, ts) == Parsed(t, [Equal] + tv)
    ensures ParseAt(0, ts) == Failed
  {
    hide WellFormed;
  }

  /** A group in parentheses is the expression inside it and leaves no other trace. */
  lemma {:induction false} Parenthesised(e: Expr, ts: seq<Token>, rest: seq<Token>)
    requires ParseAt(0, ts + ([RParen] + rest)) == Parsed(e, [RParen] + rest) && StopsAt(0, rest)
    ensures ParseAt(0, [LParen] + ts + [RParen] + rest) == Parsed(e, rest)
  {
    hide ParseAt, WellFormed;
    var all := [LParen] + ts + [RParen] + rest;
    ParenTokens(e, ts, rest);
    var level := 10;
    while level > 0
      invariant level <= 10 && ParseAt(level, all) == Parsed(e, rest)
    {
      level := level - 1;
      ClimbTokens(e, level, all, rest);
      FinishStops(level, e, rest);
    }
  }
}
