/** Printing an expression tree and parsing the tokens gives the tree back
    (src/core/parser.c, parse_primary to parse_assignment). */
module ParserRoundTrip {
  import opened Syntax

  /** The ladder level at which token `t` would continue an expression already parsed. */
  predicate ContinuesAbove(level: nat, t: Token) {
    match t
    case Equal => level <= 0
    case DotDot => level <= 1
    case QuestionQuestion => level <= 2
    case OrOr => level <= 3
    case AndAnd => level <= 4
    case EqualEqual | BangEqual | Less | LessEqual | Greater | GreaterEqual => level <= 5
    case Plus | Minus => level <= 6
    case Star | Slash | Percent => level <= 7
    case LBrace | LParen | QuestionDot | Dot | LBracket => level <= 9
    case _ => false
  }

  /** Nothing in `rest` can be taken for a continuation of an expression of this level. */
  predicate StopsAt(level: nat, rest: seq<Token>) {
    rest == [] || !ContinuesAbove(level, rest[0])
  }

  /** What the parser of `level` makes of `e`, already parsed, and the tokens that follow it. */
  function Finish(level: nat, e: Expr, rest: seq<Token>): Parsed<Expr>
    requires level <= 10
  {
    if 2 <= level <= 7 then BinLoop(level, e, rest)
    else if level == 9 then PostfixLoop(e, rest)
    else Parsed(e, rest)
  }

  /** Left-associative operators and postfixes may still follow at their own level. */
  predicate MayFollow(level: nat, rest: seq<Token>) {
    StopsAt(if level <= 1 then level else level + 1, rest)
  }

  predicate StartsExpr(t: Token) {
    match t
    case TInt(_) | TFloat(_) | TString(_) | TTrue | TFalse | TNull | TIdent(_) => true
    case LBracket | LParen | Bang | Minus | Typeof => true
    case _ => false
  }

  predicate StartsUnary(t: Token) {
    t == Bang || t == Minus || t == Typeof
  }

  lemma {:induction false} FirstOfBody(e: Expr)
    ensures |Body(e)| > 0 && StartsExpr(Body(e)[0])
    ensures Level(e) >= 9 ==> !StartsUnary(Body(e)[0])
    decreases e, 0
  {
    match e
    case Call(f, _) => FirstToken(f, 9);
    case Member(o, _) => FirstToken(o, 9);
    case Index(o, _) => FirstToken(o, 9);
    case OptMember(o, _) => FirstToken(o, 9);
    case OptIndex(o, _) => FirstToken(o, 9);
    case Binary(op, l, _) => FirstToken(l, if op == Range then 2 else LevelOfOp(op));
    case Assign(t, _) => FirstToken(t, 1);
    case _ =>
  }

  lemma {:induction false} FirstToken(e: Expr, level: nat)
    ensures |PrintAt(e, level)| > 0 && StartsExpr(PrintAt(e, level)[0])
    ensures level >= 9 ==> !StartsUnary(PrintAt(e, level)[0])
    decreases e, 1
  {
    FirstOfBody(e);
  }

  /** Where nothing follows, a level adds nothing to the expression below it. */
  lemma {:induction false} FinishStops(level: nat, e: Expr, rest: seq<Token>)
    requires level <= 10 && StopsAt(level, rest)
    ensures Finish(level, e, rest) == Parsed(e, rest)
  {
  }

  // ---------- The parser one level at a time, on arbitrary tokens ----------

  lemma {:induction false} ClimbTokens(e: Expr, level: nat, ts: seq<Token>, rest: seq<Token>)
    requires level < 10 && |ts| > 0 && (level == 8 ==> !StartsUnary(ts[0]))
    requires ParseAt(level + 1, ts) == Parsed(e, rest) && MayFollow(level, rest)
    ensures ParseAt(level, ts) == Finish(level, e, rest)
  {
  }

  lemma {:induction false} ParenTokens(e: Expr, inner: seq<Token>, rest: seq<Token>)
    requires ParseAt(0, inner + ([RParen] + rest)) == Parsed(e, [RParen] + rest)
    ensures ParseAt(10, [LParen] + inner + [RParen] + rest) == Parsed(e, rest)
  {
    hide WellFormed;
    assert ([RParen] + rest)[1..] == rest;
    assert GroupStep(inner + ([RParen] + rest)) == Parsed(e, rest);
    assert ([LParen] + inner + [RParen] + rest)[1..] == inner + ([RParen] + rest);
  }

  lemma {:induction false} UnaryTokens(t: Token, x: Expr, ts: seq<Token>, rest: seq<Token>)
    requires StartsUnary(t) && ParseAt(8, ts) == Parsed(x, rest)
    ensures ParseAt(8, [t] + ts)
         == Parsed(if t == Bang then Unary(Not, x) else if t == Minus then Unary(Neg, x) else TypeOf(x), rest)
  {
    assert ([t] + ts)[1..] == ts;
  }

  lemma {:induction false} BinTokens(op: BinOp, l: Expr, r: Expr, tr: seq<Token>, rest: seq<Token>)
    requires op != Range && ParseAt(LevelOfOp(op) + 1, tr) == Parsed(r, rest)
    ensures BinLoop(LevelOfOp(op), l, [TokenOfOp(op)] + tr) == BinLoop(LevelOfOp(op), Binary(op, l, r), rest)
  {
    hide ParseAt;
    var ts := [TokenOfOp(op)] + tr;
    assert ts[1..] == tr && IsOp(LevelOfOp(op), ts[0]) && OpOfToken(LevelOfOp(op), ts[0]) == op;
  }

  lemma {:induction false} RangeTokens(l: Expr, r: Expr, ts: seq<Token>, tr: seq<Token>, rest: seq<Token>)
    requires ParseAt(2, ts) == Parsed(l, [DotDot] + tr) && ParseAt(2, tr) == Parsed(r, rest)
    ensures ParseAt(1, ts) == Parsed(Binary(Range, l, r), rest)
  {
    assert ([DotDot] + tr)[1..] == tr;
  }

  lemma {:induction false} AssignTokens(t: Expr, v: Expr, ts: seq<Token>, tv: seq<Token>, rest: seq<Token>)
    requires Assignable(t)
    requires ParseAt(1, ts) == Parsed(t, [Equal] + tv) && ParseAt(0, tv) == Parsed(v, rest)
    ensures ParseAt(0, ts) == Parsed(Assign(t, v), rest)
  {
    assert ([Equal] + tv)[1..] == tv;
  }

  lemma {:induction false} MemberTokens(o: Expr, name: string, rest: seq<Token>)
    ensures PostfixLoop(o, [Dot, TIdent(name)] + rest) == PostfixLoop(Member(o, name), rest)
    ensures PostfixLoop(o, [QuestionDot, TIdent(name)] + rest) == PostfixLoop(OptMember(o, name), rest)
  {
    assert ([Dot, TIdent(name)] + rest)[1..] == [TIdent(name)] + rest;
    assert ([QuestionDot, TIdent(name)] + rest)[1..] == [TIdent(name)] + rest;
    assert ([TIdent(name)] + rest)[1..] == rest;
  }

  lemma {:induction false} IndexTokens(o: Expr, i: Expr, ti: seq<Token>, rest: seq<Token>)
    requires ParseAt(0, ti) == Parsed(i, [RBracket] + rest)
    ensures PostfixLoop(o, [LBracket] + ti) == PostfixLoop(Index(o, i), rest)
    ensures PostfixLoop(o, [QuestionDot, LBracket] + ti) == PostfixLoop(OptIndex(o, i), rest)
  {
    hide WellFormed, ParseAt;
    assert ([RBracket] + rest)[1..] == rest;
    assert IndexStep(ti) == Parsed(i, rest);
    assert ([LBracket] + ti)[1..] == ti;
    assert ([QuestionDot, LBracket] + ti)[1..] == [LBracket] + ti;
  }

  lemma {:induction false} CallTokens(f: Expr, args: seq<Expr>, ta: seq<Token>, rest: seq<Token>)
    requires |ta| > 0 && ta[0] != RParen && ParseArgs(ta) == Parsed(args, [RParen] + rest)
    ensures PostfixLoop(f, [LParen] + ta) == PostfixLoop(Call(f, args), rest)
  {
    hide WellFormed, ParseArgs, ParseAt;
    assert ([RParen] + rest)[1..] == rest;
    assert CallStep(f, ta) == Parsed(Call(f, args), rest);
    assert ([LParen] + ta)[1..] == ta;
  }

  lemma {:induction false} EmptyCallTokens(f: Expr, rest: seq<Token>)
    ensures PostfixLoop(f, [LParen, RParen] + rest) == PostfixLoop(Call(f, []), rest)
  {
    hide WellFormed, ParseArgs;
    assert ([RParen] + rest)[1..] == rest;
    assert CallStep(f, [RParen] + rest) == Parsed(Call(f, []), rest);
    assert ([LParen, RParen] + rest)[1..] == [RParen] + rest;
  }

  lemma {:induction false} ListTokens(ts: seq<Token>, tail: seq<Token>, x: Expr, xs: seq<Expr>, rest: seq<Token>)
    requires ParseAt(0, ts) == Parsed(x, tail) && (xs == [] ==> tail == rest && !NextIs(rest, Comma))
    requires xs != [] ==> NextIs(tail, Comma) && ParseArgs(tail[1..]) == Parsed(xs, rest)
    ensures ParseArgs(ts) == Parsed([x] + xs, rest)
  {
    assert [x] + [] == [x];
  }

  lemma {:induction false} ElemTokens(x: Elem, ts: seq<Token>, rest: seq<Token>)
    requires ParseAt(0, ts) == Parsed(x.e, rest) && |ts| > 0 && ts[0] != DotDotDot
    ensures ParseElem(if x.Spread? then [DotDotDot] + ts else ts) == Parsed(x, rest)
  {
    assert ([DotDotDot] + ts)[1..] == ts;
  }

  lemma {:induction false} ElemListTokens(ts: seq<Token>, tail: seq<Token>, x: Elem, xs: seq<Elem>,
          rest: seq<Token>)
    requires ParseElem(ts) == Parsed(x, tail) && (xs == [] ==> tail == rest && !NextIs(rest, Comma))
    requires xs != [] ==> NextIs(tail, Comma) && ParseElems(tail[1..]) == Parsed(xs, rest)
    ensures ParseElems(ts) == Parsed([x] + xs, rest)
  {
    assert [x] + [] == [x];
  }

  lemma {:induction false} ArrayTokens(elems: seq<Elem>, te: seq<Token>, rest: seq<Token>)
    requires |te| > 0 && te[0] != RBracket && ParseElems(te) == Parsed(elems, [RBracket] + rest)
    ensures ParseAt(10, [LBracket] + te) == Parsed(ArrayLit(elems), rest)
  {
    hide WellFormed;
    assert ([RBracket] + rest)[1..] == rest;
    assert ArrayStep(te) == Parsed(ArrayLit(elems), rest);
    assert ([LBracket] + te)[1..] == te;
  }

  lemma {:induction false} EmptyArrayTokens(rest: seq<Token>)
    ensures ParseAt(10, [LBracket, RBracket] + rest) == Parsed(ArrayLit([]), rest)
  {
    hide WellFormed;
    assert ([RBracket] + rest)[1..] == rest;
    assert ArrayStep([RBracket] + rest) == Parsed(ArrayLit([]), rest);
    assert ([LBracket, RBracket] + rest)[1..] == [RBracket] + rest;
  }

  lemma {:induction false} FieldTokens(f: FieldInit, tv: seq<Token>, tail: seq<Token>, xs: seq<FieldInit>,
          rest: seq<Token>)
    requires ParseAt(0, tv) == Parsed(f.value, tail) && (xs == [] ==> tail == rest && !NextIs(rest, Comma))
    requires xs != [] ==> NextIs(tail, Comma) && ParseFields(tail[1..]) == Parsed(xs, rest)
    ensures ParseFields([TIdent(f.name), Colon] + tv) == Parsed([f] + xs, rest)
  {
    assert ([TIdent(f.name), Colon] + tv)[1..][0] == Colon;
    assert ([TIdent(f.name), Colon] + tv)[2..] == tv;
    assert [f] + [] == [f];
  }

  lemma {:induction false} NamedTokens(name: string, tf: seq<Token>)
    ensures
      var r := StructStep(name, tf);
      ParseAt(9, [TIdent(name), LBrace] + tf) == (if r.Parsed? then PostfixLoop(r.value, r.rest) else Failed)
  {
    hide WellFormed, StructStep;
    var ts := [TIdent(name), LBrace] + tf;
    assert ts[1..] == [LBrace] + tf && ([LBrace] + tf)[1..] == tf;
    assert ParseAt(10, ts) == Parsed(Ident(name), [LBrace] + tf);
    assert PostfixStep(Ident(name), LBrace, tf) == StructStep(name, tf);
  }

  lemma {:induction false} StructTokens(name: string, fields: seq<FieldInit>, tf: seq<Token>, rest: seq<Token>)
    requires |tf| > 0 && tf[0] != RBrace && ParseFields(tf) == Parsed(fields, [RBrace] + rest)
    ensures ParseAt(9, [TIdent(name), LBrace] + tf) == PostfixLoop(StructLit(name, fields), rest)
  {
    assert ([RBrace] + rest)[1..] == rest;
    assert StructStep(name, tf) == Parsed(StructLit(name, fields), rest);
    NamedTokens(name, tf);
  }

  lemma {:induction false} EmptyStructTokens(name: string, rest: seq<Token>)
    ensures ParseAt(9, [TIdent(name), LBrace, RBrace] + rest) == PostfixLoop(StructLit(name, []), rest)
  {
    assert ([RBrace] + rest)[1..] == rest;
    assert StructStep(name, [RBrace] + rest) == Parsed(StructLit(name, []), rest);
    NamedTokens(name, [RBrace] + rest);
    assert [TIdent(name), LBrace] + ([RBrace] + rest) == [TIdent(name), LBrace, RBrace] + rest;
  }

  // ---------- Printed trees ----------

  /** A printed expression parses back at its own level, and the loop of that level then
      goes on with whatever follows. */
  lemma {:induction false} PrintParses(e: Expr, level: nat, rest: seq<Token>)
    requires WellFormed(e) && level <= 10 && MayFollow(level, rest)
    ensures ParseAt(level, PrintAt(e, level) + rest) == Finish(level, e, rest)
    decreases e, 2, if level <= Level(e) then 0 else 1, 10 - level
  {
    hide ParseAt, Body, WellFormed;
    if level == Level(e) {
      BodyParses(e, rest);
    } else if level < 10 {
      PrintParses(e, level + 1, rest);
      FinishStops(level + 1, e, rest);
      FirstToken(e, level + 1);
      ClimbTokens(e, level, PrintAt(e, level + 1) + rest, rest);
    } else {
      PrintParses(e, 0, [RParen] + rest);
      ParenTokens(e, Body(e), rest);
    }
  }

  lemma {:induction false} BodyParses(e: Expr, rest: seq<Token>)
    requires WellFormed(e) && MayFollow(Level(e), rest)
    ensures ParseAt(Level(e), Body(e) + rest) == Finish(Level(e), e, rest)
    decreases e, 1
  {
    match e
    case ArrayLit(elems) => ArrayLitParses(elems, rest);
    case StructLit(name, fields) => StructLitParses(name, fields, rest);
    case Call(f, args) => CallParses(f, args, rest);
    case Member(o, name) => MemberParses(e, o, name, rest);
    case OptMember(o, name) => MemberParses(e, o, name, rest);
    case Index(o, i) => IndexParses(e, o, i, rest);
    case OptIndex(o, i) => IndexParses(e, o, i, rest);
    case Unary(op, x) => UnaryParses(e, x, rest);
    case TypeOf(x) => UnaryParses(e, x, rest);
    case Binary(op, l, r) => BinaryParses(op, l, r, rest);
    case Assign(t, v) => AssignParses(t, v, rest);
    case _ => LiteralParses(e, rest);
  }

  lemma {:induction false} LiteralParses(e: Expr, rest: seq<Token>)
    requires Level(e) == 10 && !e.ArrayLit?
    ensures ParseAt(10, Body(e) + rest) == Parsed(e, rest)
  {
  }

  lemma {:induction false} UnaryParses(e: Expr, x: Expr, rest: seq<Token>)
    requires (e.Unary? || e.TypeOf?) && x == e.operand && WellFormed(x) && MayFollow(8, rest)
    ensures ParseAt(8, Body(e) + rest) == Parsed(e, rest)
    decreases e, 0
  {
    hide ParseAt, PrintAt, WellFormed;
    PrintParses(x, 8, rest);
    var t := if e.TypeOf? then Typeof else if e.uop == Not then Bang else Minus;
    assert Body(e) + rest == [t] + (PrintAt(x, 8) + rest);
    UnaryTokens(t, x, PrintAt(x, 8) + rest, rest);
  }

  lemma {:induction false} BinaryParses(op: BinOp, l: Expr, r: Expr, rest: seq<Token>)
    requires WellFormed(l) && WellFormed(r) && MayFollow(LevelOfOp(op), rest)
    ensures ParseAt(LevelOfOp(op), Body(Binary(op, l, r)) + rest) == Finish(LevelOfOp(op), Binary(op, l, r), rest)
    decreases Binary(op, l, r), 0
  {
    hide ParseAt, PrintAt, WellFormed, BinLoop;
    var level := LevelOfOp(op);
    var tr := PrintAt(r, level + 1) + rest;
    var first := if op == Range then 2 else level;
    assert Body(Binary(op, l, r)) + rest == PrintAt(l, first) + ([TokenOfOp(op)] + tr);
    PrintParses(l, first, [TokenOfOp(op)] + tr);
    PrintParses(r, level + 1, rest);
    FinishStops(level + 1, r, rest);
    if op == Range {
      FinishStops(2, l, [DotDot] + tr);
      RangeTokens(l, r, PrintAt(l, 2) + ([DotDot] + tr), tr, rest);
    } else {
      BinTokens(op, l, r, tr, rest);
    }
  }

  lemma {:induction false} AssignParses(t: Expr, v: Expr, rest: seq<Token>)
    requires Assignable(t) && WellFormed(t) && WellFormed(v) && StopsAt(0, rest)
    ensures ParseAt(0, Body(Assign(t, v)) + rest) == Parsed(Assign(t, v), rest)
    decreases Assign(t, v), 0
  {
    hide ParseAt, PrintAt, WellFormed;
    var tv := PrintAt(v, 0) + rest;
    assert Body(Assign(t, v)) + rest == PrintAt(t, 1) + ([Equal] + tv);
    PrintParses(t, 1, [Equal] + tv);
    PrintParses(v, 0, rest);
    AssignTokens(t, v, PrintAt(t, 1) + ([Equal] + tv), tv, rest);
  }

  lemma {:induction false} MemberParses(e: Expr, o: Expr, name: string, rest: seq<Token>)
    requires (e == Member(o, name) || e == OptMember(o, name)) && WellFormed(o)
    ensures ParseAt(9, Body(e) + rest) == PostfixLoop(e, rest)
    decreases e, 0
  {
    hide ParseAt, PrintAt, WellFormed, PostfixLoop;
    var tail := [if e.Member? then Dot else QuestionDot, TIdent(name)] + rest;
    assert Body(e) + rest == PrintAt(o, 9) + tail;
    PrintParses(o, 9, tail);
    MemberTokens(o, name, rest);
  }

  lemma {:induction false} IndexParses(e: Expr, o: Expr, i: Expr, rest: seq<Token>)
    requires (e == Index(o, i) || e == OptIndex(o, i)) && WellFormed(o) && WellFormed(i)
    ensures ParseAt(9, Body(e) + rest) == PostfixLoop(e, rest)
    decreases e, 0
  {
    hide ParseAt, PrintAt, WellFormed, PostfixLoop;
    var ti := PrintAt(i, 0) + ([RBracket] + rest);
    var tail := (if e.Index? then [LBracket] else [QuestionDot, LBracket]) + ti;
    assert Body(e) + rest == PrintAt(o, 9) + tail;
    PrintParses(o, 9, tail);
    PrintParses(i, 0, [RBracket] + rest);
    IndexTokens(o, i, ti, rest);
  }

  lemma {:induction false} CallParses(f: Expr, args: seq<Expr>, rest: seq<Token>)
    requires WellFormed(f) && forall i | 0 <= i < |args| :: WellFormed(args[i])
    ensures ParseAt(9, Body(Call(f, args)) + rest) == PostfixLoop(Call(f, args), rest)
    decreases Call(f, args), 0
  {
    hide ParseAt, PrintAt, WellFormed, PostfixLoop;
    var ta := PrintArgs(args) + ([RParen] + rest);
    assert Body(Call(f, args)) + rest == PrintAt(f, 9) + ([LParen] + ta);
    PrintParses(f, 9, [LParen] + ta);
    if args == [] {
      assert [LParen] + ta == [LParen, RParen] + rest;
      EmptyCallTokens(f, rest);
    } else {
      FirstToken(args[0], 0);
      ArgsParse(args, [RParen] + rest);
      CallTokens(f, args, ta, rest);
    }
  }

  lemma {:induction false} ArgsText(args: seq<Expr>, rest: seq<Token>, tail: seq<Token>)
    requires args != [] && tail == (if |args| == 1 then rest else [Comma] + (PrintArgs(args[1..]) + rest))
    ensures PrintArgs(args) + rest == PrintAt(args[0], 0) + tail
  {
    hide PrintAt;
  }

  lemma {:induction false} ArgsParse(args: seq<Expr>, rest: seq<Token>)
    requires args != [] && forall i | 0 <= i < |args| :: WellFormed(args[i])
    requires StopsAt(0, rest) && !NextIs(rest, Comma)
    ensures ParseArgs(PrintArgs(args) + rest) == Parsed(args, rest)
    decreases args, 0
  {
    hide ParseAt, PrintAt, PrintArgs, WellFormed, ParseArgs;
    var more := PrintArgs(args[1..]) + rest;
    var tail := if |args| == 1 then rest else [Comma] + more;
    var ts := PrintAt(args[0], 0) + tail;
    assert ParseAt(0, ts) == Parsed(args[0], tail) by { PrintParses(args[0], 0, tail); }
    if |args| > 1 {
      assert ParseArgs(more) == Parsed(args[1..], rest) by { ArgsParse(args[1..], rest); }
      assert tail[1..] == more;
    }
    ListTokens(ts, tail, args[0], args[1..], rest);
    ArgsText(args, rest, tail);
    assert [args[0]] + args[1..] == args;
  }

  lemma {:induction false} ElemParses(x: Elem, rest: seq<Token>)
    requires WellFormed(x.e) && StopsAt(0, rest)
    ensures ParseElem(PrintElem(x) + rest) == Parsed(x, rest)
    decreases x, 0
  {
    hide ParseAt, PrintAt, WellFormed;
    PrintParses(x.e, 0, rest);
    FirstToken(x.e, 0);
    ElemTokens(x, PrintAt(x.e, 0) + rest, rest);
    assert PrintElem(x) + rest
      == (if x.Spread? then [DotDotDot] + (PrintAt(x.e, 0) + rest) else PrintAt(x.e, 0) + rest);
  }

  lemma {:induction false} ElemsText(elems: seq<Elem>, rest: seq<Token>, tail: seq<Token>)
    requires elems != [] && tail == (if |elems| == 1 then rest else [Comma] + (PrintElems(elems[1..]) + rest))
    ensures PrintElems(elems) + rest == PrintElem(elems[0]) + tail
  {
    hide PrintElem;
  }

  lemma {:induction false} ElemsParse(elems: seq<Elem>, rest: seq<Token>)
    requires elems != [] && forall i | 0 <= i < |elems| :: WellFormed(elems[i].e)
    requires StopsAt(0, rest) && !NextIs(rest, Comma)
    ensures ParseElems(PrintElems(elems) + rest) == Parsed(elems, rest)
    decreases elems, 0
  {
    hide ParseAt, PrintAt, WellFormed, PrintElem, PrintElems, ParseElem, ParseElems;
    var more := PrintElems(elems[1..]) + rest;
    var tail := if |elems| == 1 then rest else [Comma] + more;
    var ts := PrintElem(elems[0]) + tail;
    assert ParseElem(ts) == Parsed(elems[0], tail) by { ElemParses(elems[0], tail); }
    if |elems| > 1 {
      assert ParseElems(more) == Parsed(elems[1..], rest) by { ElemsParse(elems[1..], rest); }
      assert tail[1..] == more;
    }
    ElemListTokens(ts, tail, elems[0], elems[1..], rest);
    ElemsText(elems, rest, tail);
    assert [elems[0]] + elems[1..] == elems;
  }

  lemma {:induction false} ArrayLitParses(elems: seq<Elem>, rest: seq<Token>)
    requires forall i | 0 <= i < |elems| :: WellFormed(elems[i].e)
    ensures ParseAt(10, Body(ArrayLit(elems)) + rest) == Parsed(ArrayLit(elems), rest)
    decreases ArrayLit(elems), 0
  {
    hide ParseAt, PrintAt, WellFormed, ParseElems;
    var te := PrintElems(elems) + ([RBracket] + rest);
    if elems == [] {
      assert Body(ArrayLit(elems)) + rest == [LBracket, RBracket] + rest;
      EmptyArrayTokens(rest);
    } else {
      assert Body(ArrayLit(elems)) + rest == [LBracket] + te;
      ElemsParse(elems, [RBracket] + rest);
      FirstToken(elems[0].e, 0);
      assert te[0] == PrintElem(elems[0])[0];
      ArrayTokens(elems, te, rest);
    }
  }

  lemma {:induction false} FieldsText(fields: seq<FieldInit>, rest: seq<Token>, tail: seq<Token>)
    requires fields != [] && tail == (if |fields| == 1 then rest else [Comma] + (PrintFields(fields[1..]) + rest))
    ensures PrintFields(fields) + rest
         == [TIdent(fields[0].name), Colon] + (PrintAt(fields[0].value, 0) + tail)
  {
    hide PrintAt;
  }

  lemma {:induction false} FieldsParse(fields: seq<FieldInit>, rest: seq<Token>)
    requires fields != [] && forall i | 0 <= i < |fields| :: WellFormed(fields[i].value)
    requires StopsAt(0, rest) && !NextIs(rest, Comma)
    ensures ParseFields(PrintFields(fields) + rest) == Parsed(fields, rest)
    decreases fields, 0
  {
    hide ParseAt, PrintAt, WellFormed, PrintFields, ParseFields;
    var more := PrintFields(fields[1..]) + rest;
    var tail := if |fields| == 1 then rest else [Comma] + more;
    var tv := PrintAt(fields[0].value, 0) + tail;
    assert ParseAt(0, tv) == Parsed(fields[0].value, tail) by {
      assert WellFormed(fields[0].value);
      PrintParses(fields[0].value, 0, tail);
    }
    if |fields| > 1 {
      assert ParseFields(more) == Parsed(fields[1..], rest) by { FieldsParse(fields[1..], rest); }
      assert tail[1..] == more;
    }
    FieldTokens(fields[0], tv, tail, fields[1..], rest);
    FieldsText(fields, rest, tail);
    assert [fields[0]] + fields[1..] == fields;
  }

  lemma {:induction false} StructLitParses(name: string, fields: seq<FieldInit>, rest: seq<Token>)
    requires forall i | 0 <= i < |fields| :: WellFormed(fields[i].value)
    ensures ParseAt(9, Body(StructLit(name, fields)) + rest) == PostfixLoop(StructLit(name, fields), rest)
    decreases StructLit(name, fields), 0
  {
    hide ParseAt, PrintAt, WellFormed, ParseFields, PostfixLoop;
    var tf := PrintFields(fields) + ([RBrace] + rest);
    if fields == [] {
      assert Body(StructLit(name, fields)) + rest == [TIdent(name), LBrace, RBrace] + rest;
      EmptyStructTokens(name, rest);
    } else {
      assert Body(StructLit(name, fields)) + rest == [TIdent(name), LBrace] + tf;
      FieldsParse(fields, [RBrace] + rest);
      StructTokens(name, fields, tf, rest);
    }
  }

  // ---------- What the parser promises ----------

  /** Every well-formed tree is what its own tokens parse to, and the tokens that follow are
      left alone, provided they could not belong to the expression. */
  lemma {:induction false} RoundTrip(e: Expr, rest: seq<Token>)
    requires WellFormed(e) && StopsAt(0, rest)
    ensures ParseAt(0, PrintAt(e, 0) + rest) == Parsed(e, rest)
  {
    PrintParses(e, 0, rest);
  }

  /** So no two trees share their tokens. */
  lemma {:induction false} PrintInjective(e1: Expr, e2: Expr)
    requires WellFormed(e1) && WellFormed(e2) && PrintAt(e1, 0) == PrintAt(e2, 0)
    ensures e1 == e2
  {
    RoundTrip(e1, []);
    RoundTrip(e2, []);
  }

  /** Reprinting what was parsed changes nothing: the printed tokens parse to the same tree,
      whatever parentheses the original tokens had. */
  lemma {:induction false} ReprintingIsStable(ts: seq<Token>, e: Expr, rest: seq<Token>)
    requires ParseAt(0, ts) == Parsed(e, rest)
    ensures ParseAt(0, PrintAt(e, 0)) == Parsed(e, [])
  {
    RoundTrip(e, []);
    assert PrintAt(e, 0) + [] == PrintAt(e, 0);
  }
}
