/** The expression parser takes no tokens but those of the tree it builds (src/core/parser.c). */
module ParserSpelling {
  import opened Syntax

  // The round trip says that printed trees are accepted. Here is the other half: whatever is
  // accepted is the printed form of its tree, but for parentheses.

  /** What a token contributes when parentheses are left out and module names are plain names. */
  function Kept(t: Token): seq<Token> {
    match t
    case LParen | RParen => []
    case TArrayWord => [TIdent("array")]
    case TStrWord => [TIdent("str")]
    case _ => [t]
  }

  function Bare(ts: seq<Token>): seq<Token> {
    if ts == [] then [] else Kept(ts[0]) + Bare(ts[1..])
  }

  lemma {:induction false} BareConcat(a: seq<Token>, b: seq<Token>)
    ensures Bare(a + b) == Bare(a) + Bare(b)
  {
    if a == [] {
      assert a + b == b;
    } else {
      assert (a + b)[1..] == a[1..] + b;
      BareConcat(a[1..], b);
    }
  }

  lemma {:induction false} BareOne(t: Token)
    ensures Bare([t]) == Kept(t)
  {
    assert [t][1..] == [];
    assert Bare([t][1..]) == [];
  }

  lemma {:induction false} BareTwo(t: Token, u: Token)
    ensures Bare([t, u]) == Kept(t) + Kept(u)
  {
    BareConcat([t], [u]);
    BareOne(t);
    BareOne(u);
    assert [t] + [u] == [t, u];
  }

  function Spelled(e: Expr): seq<Token> {
    Bare(Body(e))
  }

  lemma {:induction false} PrintSpells(e: Expr, level: nat)
    ensures Bare(PrintAt(e, level)) == Spelled(e)
  {
    hide Body, Bare;
    InParensSpells(Body(e));
  }

  lemma {:induction false} InParensSpells(body: seq<Token>)
    ensures Bare([LParen] + body + [RParen]) == Bare(body)
  {
    hide Bare;
    BareConcat([LParen] + body, [RParen]);
    BareConcat([LParen], body);
    BareOne(LParen);
    BareOne(RParen);
  }

  // ---------- How trees are spelled ----------

  lemma {:induction false} BinarySpells(op: BinOp, l: Expr, r: Expr)
    ensures Spelled(Binary(op, l, r)) == Spelled(l) + [TokenOfOp(op)] + Spelled(r)
  {
    hide PrintAt, Bare, Kept;
    var (first, level, t) := (if op == Range then 2 else LevelOfOp(op), LevelOfOp(op), TokenOfOp(op));
    assert Body(Binary(op, l, r)) == PrintAt(l, first) + ([t] + PrintAt(r, level + 1));
    BareConcat(PrintAt(l, first), [t] + PrintAt(r, level + 1));
    BareConcat([t], PrintAt(r, level + 1));
    BareOne(t);
    OperatorKept(op);
    PrintSpells(l, first);
    PrintSpells(r, level + 1);
    hide Body, TokenOfOp;
    assert Spelled(l) + ([t] + Spelled(r)) == Spelled(l) + [t] + Spelled(r);
  }

  lemma {:induction false} OperatorKept(op: BinOp)
    ensures Kept(TokenOfOp(op)) == [TokenOfOp(op)]
  {
  }

  lemma {:induction false} AssignSpells(target: Expr, v: Expr)
    ensures Spelled(Assign(target, v)) == Spelled(target) + [Equal] + Spelled(v)
  {
    hide PrintAt, Bare;
    assert Body(Assign(target, v)) == PrintAt(target, 1) + ([Equal] + PrintAt(v, 0));
    BareConcat(PrintAt(target, 1), [Equal] + PrintAt(v, 0));
    BareConcat([Equal], PrintAt(v, 0));
    BareOne(Equal);
    PrintSpells(target, 1);
    PrintSpells(v, 0);
    hide Body;
    assert Spelled(target) + ([Equal] + Spelled(v)) == Spelled(target) + [Equal] + Spelled(v);
  }

  lemma {:induction false} PrefixSpells(x: Expr)
    ensures Spelled(Unary(Not, x)) == [Bang] + Spelled(x)
    ensures Spelled(Unary(Neg, x)) == [Minus] + Spelled(x)
    ensures Spelled(TypeOf(x)) == [Typeof] + Spelled(x)
  {
    hide PrintAt, Bare;
    PrintSpells(x, 8);
    BareConcat([Bang], PrintAt(x, 8));
    BareConcat([Minus], PrintAt(x, 8));
    BareConcat([Typeof], PrintAt(x, 8));
    BareOne(Bang);
    BareOne(Minus);
    BareOne(Typeof);
  }

  lemma {:induction false} MemberSpells(o: Expr, name: string)
    ensures Spelled(Member(o, name)) == Spelled(o) + [Dot, TIdent(name)]
    ensures Spelled(OptMember(o, name)) == Spelled(o) + [QuestionDot, TIdent(name)]
  {
    hide PrintAt, Bare;
    PrintSpells(o, 9);
    BareConcat(PrintAt(o, 9), [Dot, TIdent(name)]);
    BareConcat(PrintAt(o, 9), [QuestionDot, TIdent(name)]);
    BareTwo(Dot, TIdent(name));
    BareTwo(QuestionDot, TIdent(name));
  }

  lemma {:induction false} IndexSpells(o: Expr, i: Expr)
    ensures Spelled(Index(o, i)) == Spelled(o) + ([LBracket] + Spelled(i) + [RBracket])
    ensures Spelled(OptIndex(o, i)) == Spelled(o) + ([QuestionDot, LBracket] + Spelled(i) + [RBracket])
  {
    hide PrintAt, Bare;
    PrintSpells(o, 9);
    BareOne(LBracket);
    BareTwo(QuestionDot, LBracket);
    Bracketed([LBracket], i);
    Bracketed([QuestionDot, LBracket], i);
    BareConcat(PrintAt(o, 9), [LBracket] + PrintAt(i, 0) + [RBracket]);
    BareConcat(PrintAt(o, 9), [QuestionDot, LBracket] + PrintAt(i, 0) + [RBracket]);
  }

  lemma {:induction false} Bracketed(open: seq<Token>, i: Expr)
    ensures Bare(open + PrintAt(i, 0) + [RBracket]) == Bare(open) + Spelled(i) + [RBracket]
  {
    hide PrintAt, Bare, Body;
    PrintSpells(i, 0);
    BareOne(RBracket);
    BareConcat(open + PrintAt(i, 0), [RBracket]);
    BareConcat(open, PrintAt(i, 0));
  }

  lemma {:induction false} CallSpells(f: Expr, args: seq<Expr>)
    ensures Spelled(Call(f, args)) == Spelled(f) + Bare(PrintArgs(args))
  {
    hide PrintAt, PrintArgs, Bare;
    PrintSpells(f, 9);
    BareOne(LParen);
    BareOne(RParen);
    BareConcat(PrintAt(f, 9), [LParen] + PrintArgs(args) + [RParen]);
    BareConcat([LParen] + PrintArgs(args), [RParen]);
    BareConcat([LParen], PrintArgs(args));
  }

  lemma {:induction false} ArraySpells(elems: seq<Elem>)
    ensures Spelled(ArrayLit(elems)) == [LBracket] + Bare(PrintElems(elems)) + [RBracket]
  {
    hide PrintElems, Bare;
    BareOne(LBracket);
    BareOne(RBracket);
    BareConcat([LBracket] + PrintElems(elems), [RBracket]);
    BareConcat([LBracket], PrintElems(elems));
  }

  lemma {:induction false} StructSpells(name: string, fields: seq<FieldInit>)
    ensures Spelled(StructLit(name, fields)) == [TIdent(name), LBrace] + Bare(PrintFields(fields)) + [RBrace]
  {
    hide PrintFields, Bare;
    BareTwo(TIdent(name), LBrace);
    BareOne(RBrace);
    BareConcat([TIdent(name), LBrace] + PrintFields(fields), [RBrace]);
    BareConcat([TIdent(name), LBrace], PrintFields(fields));
  }

  lemma {:induction false} ArgsSpell(x: Expr, xs: seq<Expr>)
    ensures Bare(PrintArgs([x])) == Spelled(x)
    ensures xs != [] ==> Bare(PrintArgs([x] + xs)) == Spelled(x) + ([Comma] + Bare(PrintArgs(xs)))
  {
    hide PrintAt, Bare;
    PrintSpells(x, 0);
    assert PrintArgs([x]) == PrintAt(x, 0) + [] == PrintAt(x, 0);
    if xs != [] {
      assert ([x] + xs)[1..] == xs;
      BareOne(Comma);
      BareConcat(PrintAt(x, 0), [Comma] + PrintArgs(xs));
      BareConcat([Comma], PrintArgs(xs));
    }
  }

  lemma {:induction false} ElemSpells(e: Expr)
    ensures Bare(PrintElem(Item(e))) == Spelled(e)
    ensures Bare(PrintElem(Spread(e))) == [DotDotDot] + Spelled(e)
  {
    hide PrintAt, Bare;
    PrintSpells(e, 0);
    BareOne(DotDotDot);
    BareConcat([DotDotDot], PrintAt(e, 0));
  }

  lemma {:induction false} ElemsSpell(x: Elem, xs: seq<Elem>)
    ensures Bare(PrintElems([x])) == Bare(PrintElem(x))
    ensures xs != [] ==> Bare(PrintElems([x] + xs)) == Bare(PrintElem(x)) + ([Comma] + Bare(PrintElems(xs)))
  {
    hide PrintElem, Bare;
    assert PrintElems([x]) == PrintElem(x) + [] == PrintElem(x);
    if xs != [] {
      assert ([x] + xs)[1..] == xs;
      BareOne(Comma);
      BareConcat(PrintElem(x), [Comma] + PrintElems(xs));
      BareConcat([Comma], PrintElems(xs));
    }
  }

  lemma {:induction false} FieldsSpell(x: FieldInit, xs: seq<FieldInit>)
    ensures var first := [TIdent(x.name), Colon] + Spelled(x.value);
      && Bare(PrintFields([x])) == first
      && (xs != [] ==> Bare(PrintFields([x] + xs)) == first + ([Comma] + Bare(PrintFields(xs))))
  {
    hide PrintAt, Bare;
    var head := [TIdent(x.name), Colon] + PrintAt(x.value, 0);
    PrintSpells(x.value, 0);
    BareTwo(TIdent(x.name), Colon);
    BareConcat([TIdent(x.name), Colon], PrintAt(x.value, 0));
    assert PrintFields([x]) == head + [] == head;
    if xs != [] {
      assert ([x] + xs)[1..] == xs;
      assert PrintFields([x] + xs) == head + ([Comma] + PrintFields(xs));
      BareOne(Comma);
      BareConcat(head, [Comma] + PrintFields(xs));
      BareConcat([Comma], PrintFields(xs));
    }
  }

  // ---------- What each part of the parser takes ----------

  /** `front` and then the tokens of `ts` that `r` has taken spell the tree of `r`. */
  ghost predicate Spells(front: seq<Token>, ts: seq<Token>, r: Parsed<Expr>) {
    r.Parsed? ==> front + Bare(ts) == Spelled(r.value) + Bare(r.rest)
  }

  lemma {:induction false} Regroup(a: seq<Token>, b: seq<Token>, c: seq<Token>, d: seq<Token>)
    ensures a + (b + (c + d)) == a + b + c + d && a + (b + d) == a + b + d && [] + a == a == a + []
  {
  }

  lemma {:induction false} Taken(ts: seq<Token>, t: Token)
    requires NextIs(ts, t)
    ensures Bare(ts) == Kept(t) + Bare(ts[1..])
  {
  }

  lemma {:induction false} AtSpells(level: nat, ts: seq<Token>)
    requires level <= 10
    ensures Spells([], ts, ParseAt(level, ts))
    decreases |ts|, 11 - level
  {
    hide ParseAt, Spelled, Bare, WellFormed;
    if level == 0 {
      AssignmentSpells(ts);
    } else if level == 1 {
      RangeSpells(ts);
    } else if level <= 7 {
      OperatorsSpell(level, ts);
    } else if level == 8 {
      UnarySpells(ts);
    } else if level == 9 {
      PostfixSpells(ts);
    } else {
      PrimarySpells(ts);
    }
  }

  lemma {:induction false} AssignmentSpells(ts: seq<Token>)
    ensures Spells([], ts, ParseAt(0, ts))
    decreases |ts|, 11, 0
  {
    hide Spelled, Bare, WellFormed, ParsePrimary, PostfixLoop, BinLoop;
    var r := ParseAt(1, ts);
    AtSpells(1, ts);
    if r.Parsed? && NextIs(r.rest, Equal) {
      AtSpells(0, r.rest[1..]);
      Taken(r.rest, Equal);
      var v := ParseAt(0, r.rest[1..]);
      if v.Parsed? {
        AssignSpells(r.value, v.value);
        Regroup(Spelled(r.value), [Equal], Spelled(v.value), Bare(v.rest));
      }
    }
  }

  lemma {:induction false} RangeSpells(ts: seq<Token>)
    ensures Spells([], ts, ParseAt(1, ts))
    decreases |ts|, 10, 0
  {
    hide Spelled, Bare, WellFormed;
    var r := ParseAt(2, ts);
    AtSpells(2, ts);
    if r.Parsed? && NextIs(r.rest, DotDot) {
      AtSpells(2, r.rest[1..]);
      Taken(r.rest, DotDot);
      var v := ParseAt(2, r.rest[1..]);
      if v.Parsed? {
        BinarySpells(Range, r.value, v.value);
        Regroup(Spelled(r.value), [DotDot], Spelled(v.value), Bare(v.rest));
      }
    }
  }

  lemma {:induction false} OperatorsSpell(level: nat, ts: seq<Token>)
    requires 2 <= level <= 7
    ensures Spells([], ts, ParseAt(level, ts))
    decreases |ts|, 11 - level, 0
  {
    hide Spelled, Bare, BinLoop, WellFormed;
    var r := ParseAt(level + 1, ts);
    AtSpells(level + 1, ts);
    if r.Parsed? { BinLoopSpells(level, r.value, r.rest); }
  }

  lemma {:induction false} BinLoopSpells(level: nat, left: Expr, ts: seq<Token>)
    requires 2 <= level <= 7
    ensures Spells(Spelled(left), ts, BinLoop(level, left, ts))
    decreases |ts|, 0
  {
    hide Spelled, Bare, WellFormed, ParseAt;
    if |ts| > 0 && IsOp(level, ts[0]) {
      var r := ParseAt(level + 1, ts[1..]);
      AtSpells(level + 1, ts[1..]);
      if r.Parsed? {
        var op := OpOfToken(level, ts[0]);
        Taken(ts, TokenOfOp(op));
        OperatorKept(op);
        BinarySpells(op, left, r.value);
        BinLoopSpells(level, Binary(op, left, r.value), r.rest);
        OneOperator(left, op, r.value, ts, r.rest);
      }
    }
  }

  lemma {:induction false} OneOperator(left: Expr, op: BinOp, right: Expr, ts: seq<Token>, rest: seq<Token>)
    requires Bare(ts) == [TokenOfOp(op)] + (Spelled(right) + Bare(rest))
    ensures Spelled(left) + Bare(ts) == Spelled(Binary(op, left, right)) + Bare(rest)
  {
    hide Spelled, Bare, TokenOfOp;
    BinarySpells(op, left, right);
  }

  lemma {:induction false} UnarySpells(ts: seq<Token>)
    ensures Spells([], ts, ParseAt(8, ts))
    decreases |ts|, 3, 0
  {
    UnaryUnfolds(ts);
    hide Spelled, Bare, WellFormed, ParseAt;
    if NextIs(ts, Bang) || NextIs(ts, Minus) || NextIs(ts, Typeof) {
      AtSpells(8, ts[1..]);
      Taken(ts, ts[0]);
      var r := ParseAt(8, ts[1..]);
      if r.Parsed? { PrefixTaken(ts, r.value, r.rest); }
    } else {
      AtSpells(9, ts);
    }
  }

  lemma {:induction false} UnaryUnfolds(ts: seq<Token>)
    ensures ParseAt(8, ts)
      == if NextIs(ts, Bang) || NextIs(ts, Minus) || NextIs(ts, Typeof) then
           var r := ParseAt(8, ts[1..]);
           if r.Parsed? then Parsed(Prefixed(ts[0], r.value), r.rest) else Failed
         else ParseAt(9, ts)
  {
    hide WellFormed, PostfixLoop, ParsePrimary;
  }

  function Prefixed(t: Token, x: Expr): Expr {
    if t == Bang then Unary(Not, x) else if t == Minus then Unary(Neg, x) else TypeOf(x)
  }

  lemma {:induction false} PrefixTaken(ts: seq<Token>, x: Expr, rest: seq<Token>)
    requires (NextIs(ts, Bang) || NextIs(ts, Minus) || NextIs(ts, Typeof)) && Bare(ts) == [ts[0]] + Bare(ts[1..])
    requires Spells([], ts[1..], Parsed(x, rest))
    ensures Spells([], ts, Parsed(Prefixed(ts[0], x), rest))
  {
    hide Spelled, Bare;
    PrefixSpells(x);
    Regroup(Bare(ts), [], [], []);
    Regroup(Bare(ts[1..]), [], [], []);
    Regroup([ts[0]], Spelled(x), [], Bare(rest));
  }

  lemma {:induction false} PostfixSpells(ts: seq<Token>)
    ensures Spells([], ts, ParseAt(9, ts))
    decreases |ts|, 2, 0
  {
    hide Spelled, Bare, PostfixLoop, ParsePrimary, WellFormed;
    var r := ParseAt(10, ts);
    AtSpells(10, ts);
    if r.Parsed? { PostfixLoopSpells(r.value, r.rest); }
  }

  lemma {:induction false} PostfixLoopSpells(e: Expr, ts: seq<Token>)
    ensures Spells(Spelled(e), ts, PostfixLoop(e, ts))
    decreases |ts|, 3
  {
    hide Spelled, Bare, WellFormed, PostfixStep;
    if |ts| > 0 && StartsPostfix(ts[0]) {
      var r := PostfixStep(e, ts[0], ts[1..]);
      PostfixStepSpells(e, ts[0], ts[1..]);
      assert [ts[0]] + ts[1..] == ts;
      if r.Parsed? { PostfixLoopSpells(r.value, r.rest); }
    }
  }

  lemma {:induction false} PostfixStepSpells(e: Expr, t: Token, ts: seq<Token>)
    requires StartsPostfix(t)
    ensures Spells(Spelled(e), [t] + ts, PostfixStep(e, t, ts))
    decreases |ts|, 16
  {
    hide Spelled, Bare, WellFormed, StructStep, CallStep, IndexStep;
    BareHead(t, ts);
    match t
    case LBrace =>
      if e.Ident? {
        StructStepSpells(e.name, ts);
        NameSpells(e.name);
      }
    case LParen => CallStepSpells(e, ts);
    case Dot => if NextIsIdent(ts) { NamedSpells(e, ts); }
    case LBracket => BracketSpells(e, ts);
    case QuestionDot =>
      if NextIsIdent(ts) {
        NamedSpells(e, ts);
      } else if NextIs(ts, LBracket) {
        Taken(ts, LBracket);
        BracketSpells(e, ts[1..]);
      }
  }

  lemma {:induction false} NamedSpells(e: Expr, ts: seq<Token>)
    requires NextIsIdent(ts)
    ensures Spelled(Member(e, ts[0].name)) + Bare(ts[1..]) == Spelled(e) + ([Dot] + Bare(ts))
    ensures Spelled(OptMember(e, ts[0].name)) + Bare(ts[1..]) == Spelled(e) + ([QuestionDot] + Bare(ts))
  {
    hide Spelled, Bare;
    Taken(ts, ts[0]);
    MemberSpells(e, ts[0].name);
  }

  lemma {:induction false} BracketSpells(e: Expr, ts: seq<Token>)
    ensures var i := IndexStep(ts);
      i.Parsed? ==>
        && Spelled(Index(e, i.value)) + Bare(i.rest) == Spelled(e) + ([LBracket] + Bare(ts))
        && Spelled(OptIndex(e, i.value)) + Bare(i.rest) == Spelled(e) + ([QuestionDot] + ([LBracket] + Bare(ts)))
    decreases |ts|, 15
  {
    hide Spelled, Bare, IndexStep;
    IndexStepSpells(ts);
    if IndexStep(ts).Parsed? { IndexSpells(e, IndexStep(ts).value); }
  }

  lemma {:induction false} BareHead(t: Token, ts: seq<Token>)
    ensures Bare([t] + ts) == Kept(t) + Bare(ts)
  {
    assert ([t] + ts)[1..] == ts;
  }

  lemma {:induction false} NameSpells(name: string)
    ensures Spelled(Ident(name)) == [TIdent(name)]
  {
    BareOne(TIdent(name));
  }

  lemma {:induction false} IndexStepSpells(ts: seq<Token>)
    ensures var r := IndexStep(ts); r.Parsed? ==> Bare(ts) == Spelled(r.value) + [RBracket] + Bare(r.rest)
    decreases |ts|, 14
  {
    hide Spelled, Bare, WellFormed, ParseAt;
    AtSpells(0, ts);
    var r := ParseAt(0, ts);
    if r.Parsed? && NextIs(r.rest, RBracket) {
      Taken(r.rest, RBracket);
      Regroup(Bare(ts), [], [], []);
      Regroup(Spelled(r.value), [RBracket], [], Bare(r.rest[1..]));
    }
  }

  lemma {:induction false} StructStepSpells(name: string, ts: seq<Token>)
    ensures Spells([TIdent(name), LBrace], ts, StructStep(name, ts))
    decreases |ts|, 14
  {
    hide Spelled, Bare, WellFormed, ParseFields;
    if NextIs(ts, RBrace) {
      Taken(ts, RBrace);
      StructSpells(name, []);
      NothingSpelled();
    } else {
      FieldsTaken(ts);
      var r := ParseFields(ts);
      if r.Parsed? && NextIs(r.rest, RBrace) {
        Taken(r.rest, RBrace);
        StructSpells(name, r.value);
      }
    }
  }

  lemma {:induction false} NothingSpelled()
    ensures Bare(PrintArgs([])) == [] && Bare(PrintElems([])) == [] && Bare(PrintFields([])) == []
  {
  }

  lemma {:induction false} CallStepSpells(e: Expr, ts: seq<Token>)
    ensures Spells(Spelled(e), ts, CallStep(e, ts))
    decreases |ts|, 14
  {
    hide Spelled, Bare, WellFormed, ParseArgs, ParseAt, PrintArgs;
    if NextIs(ts, RParen) {
      Taken(ts, RParen);
      CallSpells(e, []);
      NothingSpelled();
    } else {
      ArgsTaken(ts);
      var r := ParseArgs(ts);
      if r.Parsed? && NextIs(r.rest, RParen) {
        Taken(r.rest, RParen);
        CallSpells(e, r.value);
      }
    }
  }

  lemma {:induction false} PrimarySpells(ts: seq<Token>)
    ensures Spells([], ts, ParseAt(10, ts))
    decreases |ts|, 0
  {
    hide Spelled, Bare, WellFormed, ArrayStep, GroupStep;
    var r := ParsePrimary(ts);
    assert ParseAt(10, ts) == r;
    if r.Parsed? {
      Taken(ts, ts[0]);
      if ts[0] == LParen {
        GroupSpells(ts[1..]);
      } else if ts[0] == LBracket {
        ArrayStepSpells(ts[1..]);
      } else {
        LiteralSpells(r.value);
      }
    }
  }

  lemma {:induction false} LiteralSpells(e: Expr)
    requires Level(e) == 10 && !e.ArrayLit?
    ensures |Body(e)| == 1 && Spelled(e) == Kept(Body(e)[0])
  {
    BareOne(Body(e)[0]);
  }

  lemma {:induction false} GroupSpells(ts: seq<Token>)
    ensures Spells([], ts, GroupStep(ts))
    decreases |ts|, 14
  {
    hide Spelled, Bare, WellFormed, ParseAt;
    AtSpells(0, ts);
    var r := ParseAt(0, ts);
    if r.Parsed? && NextIs(r.rest, RParen) { Taken(r.rest, RParen); }
  }

  lemma {:induction false} ArrayStepSpells(ts: seq<Token>)
    ensures Spells([LBracket], ts, ArrayStep(ts))
    decreases |ts|, 14
  {
    hide Spelled, Bare, WellFormed, ParseElems;
    if NextIs(ts, RBracket) {
      Taken(ts, RBracket);
      ArraySpells([]);
      NothingSpelled();
    } else {
      ElemsTaken(ts);
      var r := ParseElems(ts);
      if r.Parsed? && NextIs(r.rest, RBracket) {
        Taken(r.rest, RBracket);
        ArraySpells(r.value);
      }
    }
  }

  lemma {:induction false} ArgsTaken(ts: seq<Token>)
    ensures var r := ParseArgs(ts); r.Parsed? ==> r.value != [] && Bare(ts) == Bare(PrintArgs(r.value)) + Bare(r.rest)
    decreases |ts|, 12
  {
    hide Spelled, Bare, WellFormed, ParseAt, PrintArgs;
    AtSpells(0, ts);
    var r := ParseAt(0, ts);
    if r.Parsed? {
      ArgsSpell(r.value, []);
      if NextIs(r.rest, Comma) {
        Taken(r.rest, Comma);
        ArgsTaken(r.rest[1..]);
        var more := ParseArgs(r.rest[1..]);
        if more.Parsed? {
          ArgsSpell(r.value, more.value);
          Regroup(Bare(ts), [], [], []);
          Regroup(Spelled(r.value), [Comma], Bare(PrintArgs(more.value)), Bare(more.rest));
          assert ParseArgs(ts) == Parsed([r.value] + more.value, more.rest);
        }
      }
    }
  }

  lemma {:induction false} ElemTaken(ts: seq<Token>)
    ensures var r := ParseElem(ts); r.Parsed? ==> Bare(ts) == Bare(PrintElem(r.value)) + Bare(r.rest)
    decreases |ts|, 12
  {
    hide Spelled, Bare, WellFormed, ParseAt, PrintElem;
    if NextIs(ts, DotDotDot) {
      AtSpells(0, ts[1..]);
      Taken(ts, DotDotDot);
    } else {
      AtSpells(0, ts);
    }
    var r := ParseElem(ts);
    if r.Parsed? {
      ElemSpells(r.value.e);
      Regroup([DotDotDot], Spelled(r.value.e), [], Bare(r.rest));
    }
  }

  lemma {:induction false} ElemsTaken(ts: seq<Token>)
    ensures var r := ParseElems(ts);
      r.Parsed? ==> r.value != [] && Bare(ts) == Bare(PrintElems(r.value)) + Bare(r.rest)
    decreases |ts|, 13
  {
    hide Bare, WellFormed, ParseElem, PrintElem, PrintElems;
    ElemTaken(ts);
    var r := ParseElem(ts);
    if r.Parsed? {
      ElemsSpell(r.value, []);
      if NextIs(r.rest, Comma) {
        Taken(r.rest, Comma);
        ElemsTaken(r.rest[1..]);
        var more := ParseElems(r.rest[1..]);
        if more.Parsed? {
          ElemsSpell(r.value, more.value);
          Regroup(Bare(PrintElem(r.value)), [Comma], Bare(PrintElems(more.value)), Bare(more.rest));
        }
      }
    }
  }

  lemma {:induction false} FieldsTaken(ts: seq<Token>)
    ensures var r := ParseFields(ts);
      r.Parsed? ==> r.value != [] && Bare(ts) == Bare(PrintFields(r.value)) + Bare(r.rest)
    decreases |ts|, 13
  {
    hide Spelled, Bare, WellFormed, ParseAt, PrintFields;
    if NextIsIdent(ts) && NextIs(ts[1..], Colon) {
      AtSpells(0, ts[2..]);
      Taken(ts, ts[0]);
      Taken(ts[1..], Colon);
      assert ts[1..][1..] == ts[2..];
      var r := ParseAt(0, ts[2..]);
      if r.Parsed? { FieldTaken(ts, FieldInit(ts[0].name, r.value), r.rest); }
    }
  }

  lemma {:induction false} FieldTaken(ts: seq<Token>, first: FieldInit, rest: seq<Token>)
    requires |ts| >= 2 && |rest| < |ts| && ts[0] == TIdent(first.name) && ts[1] == Colon
    requires ParseAt(0, ts[2..]) == Parsed(first.value, rest)
    requires Bare(ts) == [ts[0]] + ([Colon] + (Spelled(first.value) + Bare(rest)))
    ensures var r := ParseFields(ts);
      r.Parsed? ==> r.value != [] && Bare(ts) == Bare(PrintFields(r.value)) + Bare(r.rest)
    decreases |ts|, 12
  {
    hide Spelled, Bare, WellFormed, ParseAt, PrintFields;
    FieldsSpell(first, []);
    var front := [ts[0], Colon] + Spelled(first.value);
    assert Bare(ts) == front + Bare(rest);
    if NextIs(rest, Comma) {
      Taken(rest, Comma);
      FieldsTaken(rest[1..]);
      var more := ParseFields(rest[1..]);
      if more.Parsed? {
        FieldsSpell(first, more.value);
        Regroup(front, [Comma], Bare(PrintFields(more.value)), Bare(more.rest));
      }
    }
  }

  /** Whatever the parser accepts is the printed form of the tree it builds, token by token, apart
      from parentheses and from the two type words that it takes for names. */
  lemma {:induction false} TakesOnlyItsTokens(ts: seq<Token>, e: Expr, rest: seq<Token>)
    requires ParseAt(0, ts) == Parsed(e, rest)
    ensures Bare(ts) == Bare(PrintAt(e, 0)) + Bare(rest)
  {
    hide ParseAt, PrintAt, Bare, Spelled;
    AtSpells(0, ts);
    PrintSpells(e, 0);
  }
}
