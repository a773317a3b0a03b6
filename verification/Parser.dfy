/** The recursive-descent expression parser (src/core/parser.c): a cursor over the tokens, one
    method per level of the ladder, agreeing with the grammar of module Syntax. */
module Parser {
  import opened Options
  import opened Syntax

  /** A failed parse stands for a reported error; the first one ends the parse here. */
  predicate Agrees<T(==)>(spec: Parsed<T>, r: Option<T>, rest: seq<Token>) {
    if spec.Failed? then r.None? else r == Some(spec.value) && rest == spec.rest
  }

  function Prepend<T>(xs: seq<T>, more: Parsed<seq<T>>): Parsed<seq<T>> {
    if more.Failed? then Failed else Parsed(xs + more.value, more.rest)
  }

  lemma {:induction false} PrependNothing<T>(more: Parsed<seq<T>>)
    ensures Prepend([], more) == more
  {
    if more.Parsed? { assert [] + more.value == more.value; }
  }

  lemma {:induction false} PrependStep<T>(xs: seq<T>, x: T, more: Parsed<seq<T>>)
    ensures Prepend(xs + [x], more) == Prepend(xs, Prepend([x], more))
  {
    if more.Parsed? { assert (xs + [x]) + more.value == xs + ([x] + more.value); }
  }

  /** The right operand of `op`, and whatever else the loop of its level takes. */
  function OperandNext(level: nat, left: Expr, op: BinOp, ts: seq<Token>): Parsed<Expr>
    requires 2 <= level <= 7
  {
    var right := ParseAt(level + 1, ts);
    if right.Failed? then Failed else BinLoop(level, Binary(op, left, right.value), right.rest)
  }

  class Parser {
    const tokens: seq<Token>
    var pos: nat

    constructor (tokens: seq<Token>)
      ensures Valid() && this.tokens == tokens && Rest() == tokens
    {
      this.tokens := tokens;
      pos := 0;
    }

    predicate Valid()
      reads this
    {
      pos <= |tokens|
    }

    function Rest(): seq<Token>
      requires Valid()
      reads this
    {
      tokens[pos..]
    }

    predicate Check(t: Token)
      requires Valid()
      reads this
    {
      NextIs(Rest(), t)
    }

    /** Consumes the current token when it is `t`. */
    method Match(t: Token) returns (found: bool)
      requires Valid()
      modifies this`pos
      ensures Valid() && found == NextIs(old(Rest()), t)
      ensures pos == if found then old(pos) + 1 else old(pos)
      ensures Rest() == if found then old(Rest())[1..] else old(Rest())
    {
      found := pos < |tokens| && tokens[pos] == t;
      if found {
        pos := pos + 1;
      }
    }

    /** Consumes the current token when it stands for an operator of this level. */
    method MatchOp(level: nat) returns (op: Option<BinOp>)
      requires Valid()
      modifies this`pos
      ensures Valid()
      ensures var ts := old(Rest());
        if |ts| > 0 && IsOp(level, ts[0])
        then op == Some(OpOfToken(level, ts[0])) && Rest() == ts[1..] && pos == old(pos) + 1
        else op == None && Rest() == ts && pos == old(pos)
    {
      op := None;
      if pos < |tokens| && IsOp(level, tokens[pos]) {
        op := Some(OpOfToken(level, tokens[pos]));
        pos := pos + 1;
      }
    }

    method MatchIdent() returns (name: Option<string>)
      requires Valid()
      modifies this`pos
      ensures Valid()
      ensures var ts := old(Rest());
        if NextIsIdent(ts)
        then name == Some(ts[0].name) && Rest() == ts[1..] && pos == old(pos) + 1
        else name == None && Rest() == ts && pos == old(pos)
    {
      name := None;
      if pos < |tokens| && tokens[pos].TIdent? {
        name := Some(tokens[pos].name);
        pos := pos + 1;
      }
    }

    method Advance()
      requires Valid() && Rest() != []
      modifies this`pos
      ensures Valid() && pos == old(pos) + 1 && Rest() == old(Rest())[1..]
    {
      pos := pos + 1;
    }

    method ParseElementList() returns (r: Option<seq<Elem>>)
      requires Valid()
      modifies this`pos
      ensures Valid() && pos >= old(pos) && Agrees(ParseElems(old(Rest())), r, Rest())
      decreases |tokens| - pos, 20
    {
      hide WellFormed, ParseAt;
      ghost var start := Rest();
      var elements: seq<Elem> := [];
      var more := true;
      PrependNothing(ParseElems(start));
      while more
        invariant Valid() && pos >= old(pos)
        invariant ParseElems(start)
          == if more then Prepend(elements, ParseElems(Rest())) else Parsed(elements, Rest())
        decreases |tokens| - pos, more
      {
        ghost var here := Rest();
        var spread := Match(DotDotDot);
        var e := ParseAssignment();
        if e.None? { return None; }
        var x := if spread then Spread(e.value) else Item(e.value);
        assert ParseElem(here) == Parsed(x, Rest());
        more := Match(Comma);
        PrependStep(elements, x, if more then ParseElems(Rest()) else Parsed([], Rest()));
        elements := elements + [x];
      }
      r := Some(elements);
    }

    method ParseArgumentList() returns (r: Option<seq<Expr>>)
      requires Valid()
      modifies this`pos
      ensures Valid() && pos >= old(pos) && Agrees(ParseArgs(old(Rest())), r, Rest())
      decreases |tokens| - pos, 20
    {
      hide WellFormed, ParseAt;
      ghost var start := Rest();
      var args: seq<Expr> := [];
      var more := true;
      PrependNothing(ParseArgs(start));
      while more
        invariant Valid() && pos >= old(pos)
        invariant ParseArgs(start)
          == if more then Prepend(args, ParseArgs(Rest())) else Parsed(args, Rest())
        decreases |tokens| - pos, more
      {
        var arg := ParseAssignment();
        if arg.None? { return None; }
        more := Match(Comma);
        PrependStep(args, arg.value, if more then ParseArgs(Rest()) else Parsed([], Rest()));
        args := args + [arg.value];
      }
      r := Some(args);
    }

    method ParseFieldList() returns (r: Option<seq<FieldInit>>)
      requires Valid()
      modifies this`pos
      ensures Valid() && pos >= old(pos) && Agrees(ParseFields(old(Rest())), r, Rest())
      decreases |tokens| - pos, 20
    {
      hide WellFormed, ParseAt;
      ghost var start := Rest();
      var fields: seq<FieldInit> := [];
      var more := true;
      PrependNothing(ParseFields(start));
      while more
        invariant Valid() && pos >= old(pos)
        invariant ParseFields(start)
          == if more then Prepend(fields, ParseFields(Rest())) else Parsed(fields, Rest())
        decreases |tokens| - pos, more
      {
        ghost var here := Rest();
        var name := MatchIdent();
        if name.None? { return None; }
        var colon := Match(Colon);
        if !colon { return None; }
        assert Rest() == here[2..];
        var value := ParseAssignment();
        if value.None? { return None; }
        var x := FieldInit(name.value, value.value);
        more := Match(Comma);
        PrependStep(fields, x, if more then ParseFields(Rest()) else Parsed([], Rest()));
        fields := fields + [x];
      }
      r := Some(fields);
    }

    /** The elements and the closing bracket of an array literal. */
    method ParseArrayLiteral() returns (r: Option<Expr>)
      requires Valid()
      modifies this`pos
      ensures Valid() && pos >= old(pos) && Agrees(ArrayStep(old(Rest())), r, Rest())
      decreases |tokens| - pos, 21
    {
      hide WellFormed, ParseElems;
      var elements := Some([]);
      if !Check(RBracket) {
        elements := ParseElementList();
        if elements.None? { return None; }
      }
      var closed := Match(RBracket);
      r := if closed then Some(ArrayLit(elements.value)) else None;
    }

    /** An index and its closing bracket. */
    method ParseIndex() returns (r: Option<Expr>)
      requires Valid()
      modifies this`pos
      ensures Valid() && pos >= old(pos) && Agrees(IndexStep(old(Rest())), r, Rest())
      decreases |tokens| - pos, 20
    {
      hide WellFormed, ParseAt;
      r := ParseAssignment();
      if r.None? { return; }
      var closed := Match(RBracket);
      if !closed { r := None; }
    }

    /** The expression and the closing parenthesis of a group. */
    method ParseGroup() returns (r: Option<Expr>)
      requires Valid()
      modifies this`pos
      ensures Valid() && pos >= old(pos) && Agrees(GroupStep(old(Rest())), r, Rest())
      decreases |tokens| - pos, 20
    {
      hide WellFormed, ParseAt;
      r := ParseAssignment();
      if r.None? { return; }
      var closed := Match(RParen);
      if !closed { r := None; }
    }

    method ParseStructLiteral(name: string) returns (r: Option<Expr>)
      requires Valid()
      modifies this`pos
      ensures Valid() && pos >= old(pos) && Agrees(StructStep(name, old(Rest())), r, Rest())
      decreases |tokens| - pos, 21
    {
      hide WellFormed, ParseFields;
      var fields := Some([]);
      if !Check(RBrace) {
        fields := ParseFieldList();
        if fields.None? { return None; }
      }
      var closed := Match(RBrace);
      r := if closed then Some(StructLit(name, fields.value)) else None;
    }

    method ParseArguments(callee: Expr) returns (r: Option<Expr>)
      requires Valid()
      modifies this`pos
      ensures Valid() && pos >= old(pos) && Agrees(CallStep(callee, old(Rest())), r, Rest())
      decreases |tokens| - pos, 21
    {
      hide WellFormed, ParseArgs;
      var args := Some([]);
      if !Check(RParen) {
        args := ParseArgumentList();
        if args.None? { return None; }
      }
      var closed := Match(RParen);
      r := if closed then Some(Call(callee, args.value)) else None;
    }

    method ParsePrimaryExpr() returns (r: Option<Expr>)
      requires Valid()
      modifies this`pos
      ensures Valid() && pos >= old(pos) && Agrees(ParsePrimary(old(Rest())), r, Rest())
      ensures r.Some? ==> pos > old(pos)
      decreases |tokens| - pos, 0
    {
      hide WellFormed, ArrayStep, GroupStep;
      if pos == |tokens| { return None; }
      var t := tokens[pos];
      Advance();
      match t
      case TInt(n) => r := Some(IntLit(n));
      case TFloat(x) => r := Some(FloatLit(x));
      case TString(s) => r := Some(StrLit(s));
      case TTrue => r := Some(BoolLit(true));
      case TFalse => r := Some(BoolLit(false));
      case TNull => r := Some(NullLit);
      case TIdent(name) => r := Some(Ident(name));
      case TArrayWord => r := Some(Ident("array"));
      case TStrWord => r := Some(Ident("str"));
      case LBracket => r := ParseArrayLiteral();
      case LParen => r := ParseGroup();
      case _ => r := None;
    }

    /** One postfix after the token `t` that starts it has been consumed. */
    method ParsePostfix(e: Expr, t: Token) returns (r: Option<Expr>)
      requires Valid() && StartsPostfix(t)
      modifies this`pos
      ensures Valid() && pos >= old(pos) && Agrees(PostfixStep(e, t, old(Rest())), r, Rest())
      decreases |tokens| - pos, 22
    {
      hide WellFormed, StructStep, CallStep, IndexStep, ParseAt, PostfixLoop;
      if t == LBrace {
        if !e.Ident? { return None; }
        r := ParseStructLiteral(e.name);
      } else if t == LParen {
        r := ParseArguments(e);
      } else if t == QuestionDot {
        var name := MatchIdent();
        if name.Some? { return Some(OptMember(e, name.value)); }
        var bracket := Match(LBracket);
        if !bracket { return None; }
        var index := ParseIndex();
        r := if index.Some? then Some(OptIndex(e, index.value)) else None;
      } else if t == Dot {
        var name := MatchIdent();
        r := if name.Some? then Some(Member(e, name.value)) else None;
      } else {
        var index := ParseIndex();
        r := if index.Some? then Some(Index(e, index.value)) else None;
      }
    }

    method ParseCall() returns (r: Option<Expr>)
      requires Valid()
      modifies this`pos
      ensures Valid() && pos >= old(pos) && Agrees(ParseAt(9, old(Rest())), r, Rest())
      ensures r.Some? ==> pos > old(pos)
      decreases |tokens| - pos, 1
    {
      hide WellFormed, ParsePrimary, PostfixStep;
      ghost var ts := Rest();
      r := ParsePrimaryExpr();
      if r.None? { return; }
      while pos < |tokens| && StartsPostfix(tokens[pos])
        invariant Valid() && pos > old(pos) && r.Some?
        invariant ParseAt(9, ts) == PostfixLoop(r.value, Rest())
        decreases |tokens| - pos
      {
        var t := tokens[pos];
        Advance();
        r := ParsePostfix(r.value, t);
        if r.None? { return; }
      }
    }

    method ParseUnary() returns (r: Option<Expr>)
      requires Valid()
      modifies this`pos
      ensures Valid() && pos >= old(pos) && Agrees(ParseAt(8, old(Rest())), r, Rest())
      ensures r.Some? ==> pos > old(pos)
      decreases |tokens| - pos, 2
    {
      hide WellFormed, ParsePrimary, PostfixLoop;
      if Check(Bang) || Check(Minus) || Check(Typeof) {
        var t := tokens[pos];
        Advance();
        r := ParseUnary();
        if r.None? { return; }
        r := Some(if t == Bang then Unary(Not, r.value)
                  else if t == Minus then Unary(Neg, r.value)
                  else TypeOf(r.value));
      } else {
        r := ParseCall();
      }
    }

    // The left-associative operators, from the tightest to the loosest.

    method ParseFactor() returns (r: Option<Expr>)
      requires Valid()
      modifies this`pos
      ensures Valid() && pos >= old(pos) && Agrees(ParseAt(7, old(Rest())), r, Rest())
      ensures r.Some? ==> pos > old(pos)
      decreases |tokens| - pos, 3
    {
      hide WellFormed;
      ghost var ts := Rest();
      r := ParseUnary();
      if r.None? { return; }
      var op := MatchOp(7);
      while op.Some?
        invariant Valid() && pos > old(pos) && r.Some?
        invariant op.Some? ==> LevelOfOp(op.value) == 7
        invariant ParseAt(7, ts)
          == if op.Some? then OperandNext(7, r.value, op.value, Rest()) else Parsed(r.value, Rest())
        decreases |tokens| - pos, op.Some?
      {
        var right := ParseUnary();
        if right.None? { return None; }
        r := Some(Binary(op.value, r.value, right.value));
        op := MatchOp(7);
      }
    }

    method ParseTerm() returns (r: Option<Expr>)
      requires Valid()
      modifies this`pos
      ensures Valid() && pos >= old(pos) && Agrees(ParseAt(6, old(Rest())), r, Rest())
      ensures r.Some? ==> pos > old(pos)
      decreases |tokens| - pos, 4
    {
      hide WellFormed;
      ghost var ts := Rest();
      r := ParseFactor();
      if r.None? { return; }
      var op := MatchOp(6);
      while op.Some?
        invariant Valid() && pos > old(pos) && r.Some?
        invariant op.Some? ==> LevelOfOp(op.value) == 6
        invariant ParseAt(6, ts)
          == if op.Some? then OperandNext(6, r.value, op.value, Rest()) else Parsed(r.value, Rest())
        decreases |tokens| - pos, op.Some?
      {
        var right := ParseFactor();
        if right.None? { return None; }
        r := Some(Binary(op.value, r.value, right.value));
        op := MatchOp(6);
      }
    }

    method ParseComparison() returns (r: Option<Expr>)
      requires Valid()
      modifies this`pos
      ensures Valid() && pos >= old(pos) && Agrees(ParseAt(5, old(Rest())), r, Rest())
      ensures r.Some? ==> pos > old(pos)
      decreases |tokens| - pos, 5
    {
      hide WellFormed;
      ghost var ts := Rest();
      r := ParseTerm();
      if r.None? { return; }
      var op := MatchOp(5);
      while op.Some?
        invariant Valid() && pos > old(pos) && r.Some?
        invariant op.Some? ==> LevelOfOp(op.value) == 5
        invariant ParseAt(5, ts)
          == if op.Some? then OperandNext(5, r.value, op.value, Rest()) else Parsed(r.value, Rest())
        decreases |tokens| - pos, op.Some?
      {
        var right := ParseTerm();
        if right.None? { return None; }
        r := Some(Binary(op.value, r.value, right.value));
        op := MatchOp(5);
      }
    }

    method ParseAnd() returns (r: Option<Expr>)
      requires Valid()
      modifies this`pos
      ensures Valid() && pos >= old(pos) && Agrees(ParseAt(4, old(Rest())), r, Rest())
      ensures r.Some? ==> pos > old(pos)
      decreases |tokens| - pos, 6
    {
      hide WellFormed;
      ghost var ts := Rest();
      r := ParseComparison();
      if r.None? { return; }
      var op := MatchOp(4);
      while op.Some?
        invariant Valid() && pos > old(pos) && r.Some?
        invariant op.Some? ==> LevelOfOp(op.value) == 4
        invariant ParseAt(4, ts)
          == if op.Some? then OperandNext(4, r.value, op.value, Rest()) else Parsed(r.value, Rest())
        decreases |tokens| - pos, op.Some?
      {
        var right := ParseComparison();
        if right.None? { return None; }
        r := Some(Binary(op.value, r.value, right.value));
        op := MatchOp(4);
      }
    }

    method ParseOr() returns (r: Option<Expr>)
      requires Valid()
      modifies this`pos
      ensures Valid() && pos >= old(pos) && Agrees(ParseAt(3, old(Rest())), r, Rest())
      ensures r.Some? ==> pos > old(pos)
      decreases |tokens| - pos, 7
    {
      hide WellFormed;
      ghost var ts := Rest();
      r := ParseAnd();
      if r.None? { return; }
      var op := MatchOp(3);
      while op.Some?
        invariant Valid() && pos > old(pos) && r.Some?
        invariant op.Some? ==> LevelOfOp(op.value) == 3
        invariant ParseAt(3, ts)
          == if op.Some? then OperandNext(3, r.value, op.value, Rest()) else Parsed(r.value, Rest())
        decreases |tokens| - pos, op.Some?
      {
        var right := ParseAnd();
        if right.None? { return None; }
        r := Some(Binary(op.value, r.value, right.value));
        op := MatchOp(3);
      }
    }

    method ParseNullishCoalescing() returns (r: Option<Expr>)
      requires Valid()
      modifies this`pos
      ensures Valid() && pos >= old(pos) && Agrees(ParseAt(2, old(Rest())), r, Rest())
      ensures r.Some? ==> pos > old(pos)
      decreases |tokens| - pos, 8
    {
      hide WellFormed;
      ghost var ts := Rest();
      r := ParseOr();
      if r.None? { return; }
      var op := MatchOp(2);
      while op.Some?
        invariant Valid() && pos > old(pos) && r.Some?
        invariant op.Some? ==> LevelOfOp(op.value) == 2
        invariant ParseAt(2, ts)
          == if op.Some? then OperandNext(2, r.value, op.value, Rest()) else Parsed(r.value, Rest())
        decreases |tokens| - pos, op.Some?
      {
        var right := ParseOr();
        if right.None? { return None; }
        r := Some(Binary(op.value, r.value, right.value));
        op := MatchOp(2);
      }
    }

    /** A range takes one operand on each side: it does not chain. */
    method ParseRange() returns (r: Option<Expr>)
      requires Valid()
      modifies this`pos
      ensures Valid() && pos >= old(pos) && Agrees(ParseAt(1, old(Rest())), r, Rest())
      ensures r.Some? ==> pos > old(pos)
      decreases |tokens| - pos, 9
    {
      hide WellFormed;
      r := ParseNullishCoalescing();
      if r.None? { return; }
      var range := Match(DotDot);
      if range {
        var right := ParseNullishCoalescing();
        if right.None? { return None; }
        r := Some(Binary(Range, r.value, right.value));
      }
    }

    method ParseAssignment() returns (r: Option<Expr>)
      requires Valid()
      modifies this`pos
      ensures Valid() && pos >= old(pos) && Agrees(ParseAt(0, old(Rest())), r, Rest())
      ensures r.Some? ==> pos > old(pos)
      decreases |tokens| - pos, 11
    {
      hide WellFormed;
      r := ParseRange();
      if r.None? { return; }
      var equals := Match(Equal);
      if equals {
        var value := ParseAssignment();
        if value.None? { return None; }
        if !Assignable(r.value) { return None; }
        r := Some(Assign(r.value, value.value));
      }
    }
  }
}
