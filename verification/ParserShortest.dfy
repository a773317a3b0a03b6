/** No shorter token list parses to a tree than its printed form (src/core/parser.c). */
module ParserShortest {
  import opened Syntax

  // So every pair of parentheses the printer writes is needed.

  ghost predicate Enough(level: nat, r: Parsed<Expr>, n: nat) {
    r.Parsed? ==> |PrintAt(r.value, level)| + |r.rest| <= n
  }

  lemma {:induction false} Lower(e: Expr, low: nat, high: nat)
    requires low <= high
    ensures |PrintAt(e, low)| <= |PrintAt(e, high)|
  {
  }

  lemma {:induction false} AtEnough(level: nat, ts: seq<Token>)
    requires level <= 10
    ensures Enough(level, ParseAt(level, ts), |ts|)
    decreases |ts|, 11 - level
  {
    hide ParseAt, PrintAt, WellFormed;
    if level == 0 {
      AssignEnough(ts);
    } else if level == 1 {
      RangeEnough(ts);
    } else if level <= 7 {
      OperatorEnough(level, ts);
    } else if level == 8 {
      UnaryEnough(ts);
    } else if level == 9 {
      PostfixEnough(ts);
    } else {
      PrimaryEnough(ts);
    }
  }

  lemma {:induction false} OperatorEnough(level: nat, ts: seq<Token>)
    requires 2 <= level <= 7
    ensures Enough(level, ParseAt(level, ts), |ts|)
    decreases |ts|, 11 - level, 0
  {
    hide PrintAt, BinLoop, WellFormed;
    var r := ParseAt(level + 1, ts);
    AtEnough(level + 1, ts);
    if r.Parsed? {
      Lower(r.value, level, level + 1);
      BinLoopEnough(level, r.value, r.rest);
    }
  }

  lemma {:induction false} PostfixEnough(ts: seq<Token>)
    ensures Enough(9, ParseAt(9, ts), |ts|)
    decreases |ts|, 2, 0
  {
    hide PrintAt, PostfixLoop, ParsePrimary, WellFormed;
    var r := ParseAt(10, ts);
    AtEnough(10, ts);
    if r.Parsed? {
      Lower(r.value, 9, 10);
      PostfixLoopEnough(r.value, r.rest);
    }
  }

  lemma {:induction false} AssignEnough(ts: seq<Token>)
    ensures Enough(0, ParseAt(0, ts), |ts|)
    decreases |ts|, 11, 0
  {
    hide PrintAt, WellFormed;
    var r := ParseAt(1, ts);
    AtEnough(1, ts);
    if r.Parsed? {
      if NextIs(r.rest, Equal) {
        AtEnough(0, r.rest[1..]);
        var v := ParseAt(0, r.rest[1..]);
        if v.Parsed? {
          OfBody(Assign(r.value, v.value), 0);
        }
      } else {
        Lower(r.value, 0, 1);
      }
    }
  }

  lemma {:induction false} OfBody(e: Expr, level: nat)
    requires level <= Level(e)
    ensures PrintAt(e, level) == Body(e)
  {
  }

  lemma {:induction false} RangeEnough(ts: seq<Token>)
    ensures Enough(1, ParseAt(1, ts), |ts|)
    decreases |ts|, 10, 0
  {
    hide PrintAt, WellFormed;
    var r := ParseAt(2, ts);
    AtEnough(2, ts);
    if r.Parsed? {
      if NextIs(r.rest, DotDot) {
        AtEnough(2, r.rest[1..]);
        var v := ParseAt(2, r.rest[1..]);
        if v.Parsed? {
          OfBody(Binary(Range, r.value, v.value), 1);
        }
      } else {
        Lower(r.value, 1, 2);
      }
    }
  }

  lemma {:induction false} BinLoopEnough(level: nat, left: Expr, ts: seq<Token>)
    requires 2 <= level <= 7
    ensures Enough(level, BinLoop(level, left, ts), |PrintAt(left, level)| + |ts|)
    decreases |ts|, 0
  {
    hide PrintAt, WellFormed, ParseAt;
    if |ts| > 0 && IsOp(level, ts[0]) {
      var r := ParseAt(level + 1, ts[1..]);
      AtEnough(level + 1, ts[1..]);
      if r.Parsed? {
        var op := OpOfToken(level, ts[0]);
        OfBody(Binary(op, left, r.value), level);
        BinLoopEnough(level, Binary(op, left, r.value), r.rest);
      }
    }
  }

  lemma {:induction false} UnaryEnough(ts: seq<Token>)
    ensures Enough(8, ParseAt(8, ts), |ts|)
    decreases |ts|, 3, 0
  {
    hide PrintAt, WellFormed;
    if NextIs(ts, Bang) || NextIs(ts, Minus) || NextIs(ts, Typeof) {
      AtEnough(8, ts[1..]);
      var r := ParseAt(8, ts);
      if r.Parsed? {
        OfBody(r.value, 8);
      }
    } else {
      AtEnough(9, ts);
      var r := ParseAt(9, ts);
      if r.Parsed? {
        Lower(r.value, 8, 9);
      }
    }
  }

  lemma {:induction false} PostfixLoopEnough(e: Expr, ts: seq<Token>)
    ensures Enough(9, PostfixLoop(e, ts), |PrintAt(e, 9)| + |ts|)
    decreases |ts|, 3
  {
    hide PrintAt, WellFormed, PostfixStep, Body;
    if |ts| > 0 && StartsPostfix(ts[0]) {
      var r := PostfixStep(e, ts[0], ts[1..]);
      PostfixStepEnough(e, ts[0], ts[1..]);
      if r.Parsed? {
        PostfixLoopEnough(r.value, r.rest);
      }
    }
  }

  lemma {:induction false} PostfixStepEnough(e: Expr, t: Token, ts: seq<Token>)
    requires StartsPostfix(t)
    ensures Enough(9, PostfixStep(e, t, ts), |PrintAt(e, 9)| + 1 + |ts|)
    decreases |ts|, 15
  {
    hide PrintAt, WellFormed, StructStep, CallStep, IndexStep;
    match t
    case LBrace =>
      if e.Ident? {
        StructEnough(e.name, ts);
        OfBody(e, 9);
      }
    case LParen => CallEnough(e, ts);
    case Dot =>
      if NextIsIdent(ts) { OfBody(Member(e, ts[0].name), 9); }
    case LBracket =>
      IndexEnough(ts);
      if IndexStep(ts).Parsed? { OfBody(Index(e, IndexStep(ts).value), 9); }
    case QuestionDot =>
      if NextIsIdent(ts) {
        OfBody(OptMember(e, ts[0].name), 9);
      } else if NextIs(ts, LBracket) {
        IndexEnough(ts[1..]);
        if IndexStep(ts[1..]).Parsed? { OfBody(OptIndex(e, IndexStep(ts[1..]).value), 9); }
      }
  }

  lemma {:induction false} IndexEnough(ts: seq<Token>)
    ensures var r := IndexStep(ts); r.Parsed? ==> |PrintAt(r.value, 0)| + 1 + |r.rest| <= |ts|
    decreases |ts|, 14
  {
    hide PrintAt, WellFormed, ParseAt;
    AtEnough(0, ts);
  }

  lemma {:induction false} StructEnough(name: string, ts: seq<Token>)
    ensures Enough(9, StructStep(name, ts), 2 + |ts|)
    decreases |ts|, 14
  {
    hide PrintAt, WellFormed, ParseFields;
    if NextIs(ts, RBrace) {
      OfBody(StructLit(name, []), 9);
      assert PrintFields([]) == [];
    } else {
      FieldsEnough(ts);
      var r := ParseFields(ts);
      if r.Parsed? { OfBody(StructLit(name, r.value), 9); }
    }
  }

  lemma {:induction false} CallEnough(e: Expr, ts: seq<Token>)
    ensures Enough(9, CallStep(e, ts), |PrintAt(e, 9)| + 1 + |ts|)
    decreases |ts|, 14
  {
    hide PrintAt, WellFormed, ParseArgs;
    if NextIs(ts, RParen) {
      OfBody(Call(e, []), 9);
    } else {
      ArgsEnough(ts);
      var r := ParseArgs(ts);
      if r.Parsed? { OfBody(Call(e, r.value), 9); }
    }
  }

  lemma {:induction false} PrimaryEnough(ts: seq<Token>)
    ensures Enough(10, ParseAt(10, ts), |ts|)
    decreases |ts|, 0
  {
    hide PrintAt, WellFormed, ArrayStep, GroupStep;
    var r := ParsePrimary(ts);
    assert ParseAt(10, ts) == r;
    if r.Parsed? {
      if ts[0] == LParen {
        GroupEnough(ts[1..]);
      } else if ts[0] == LBracket {
        ArrayEnough(ts[1..]);
      } else {
        OfBody(r.value, 10);
      }
    }
  }

  lemma {:induction false} GroupEnough(ts: seq<Token>)
    ensures Enough(10, GroupStep(ts), |ts| + 1)
    decreases |ts|, 14
  {
    hide PrintAt, WellFormed, ParseAt;
    AtEnough(0, ts);
    var r := ParseAt(0, ts);
    if r.Parsed? { InParens(r.value); }
  }

  lemma {:induction false} ArrayEnough(ts: seq<Token>)
    ensures Enough(10, ArrayStep(ts), |ts| + 1)
    decreases |ts|, 14
  {
    hide PrintAt, WellFormed, ParseElems;
    var r := ArrayStep(ts);
    if r.Parsed? {
      OfBody(r.value, 10);
      if !NextIs(ts, RBracket) { ElemsEnough(ts); }
    }
  }

  lemma {:induction false} InParens(e: Expr)
    ensures |PrintAt(e, 10)| <= |PrintAt(e, 0)| + 2
  {
  }

  lemma {:induction false} ArgsEnough(ts: seq<Token>)
    ensures var r := ParseArgs(ts); r.Parsed? ==> |PrintArgs(r.value)| + |r.rest| <= |ts|
    decreases |ts|, 12
  {
    hide PrintAt, WellFormed, ParseAt;
    AtEnough(0, ts);
    var r := ParseAt(0, ts);
    if r.Parsed? && NextIs(r.rest, Comma) {
      ArgsEnough(r.rest[1..]);
      var more := ParseArgs(r.rest[1..]);
      if more.Parsed? { assert ([r.value] + more.value)[1..] == more.value; }
    }
  }

  lemma {:induction false} ElemEnough(ts: seq<Token>)
    ensures var r := ParseElem(ts); r.Parsed? ==> |PrintElem(r.value)| + |r.rest| <= |ts|
    decreases |ts|, 12
  {
    hide PrintAt, WellFormed, ParseAt;
    if NextIs(ts, DotDotDot) {
      AtEnough(0, ts[1..]);
    } else {
      AtEnough(0, ts);
    }
  }

  lemma {:induction false} ElemsEnough(ts: seq<Token>)
    ensures var r := ParseElems(ts); r.Parsed? ==> |PrintElems(r.value)| + |r.rest| <= |ts|
    decreases |ts|, 13
  {
    hide PrintElem, WellFormed, ParseElem;
    ElemEnough(ts);
    var r := ParseElem(ts);
    if r.Parsed? && NextIs(r.rest, Comma) {
      ElemsEnough(r.rest[1..]);
      var more := ParseElems(r.rest[1..]);
      if more.Parsed? { assert ([r.value] + more.value)[1..] == more.value; }
    }
  }

  lemma {:induction false} FieldsEnough(ts: seq<Token>)
    ensures var r := ParseFields(ts); r.Parsed? ==> |PrintFields(r.value)| + |r.rest| <= |ts|
    decreases |ts|, 13
  {
    hide PrintAt, WellFormed, ParseAt;
    if NextIsIdent(ts) && NextIs(ts[1..], Colon) {
      AtEnough(0, ts[2..]);
      var r := ParseAt(0, ts[2..]);
      if r.Parsed? && NextIs(r.rest, Comma) {
        FieldsEnough(r.rest[1..]);
        var more := ParseFields(r.rest[1..]);
        if more.Parsed? { assert ([FieldInit(ts[0].name, r.value)] + more.value)[1..] == more.value; }
      }
    }
  }

  /** The printed form is a shortest token list for its tree. */
  lemma {:induction false} PrintIsShortest(ts: seq<Token>, rest: seq<Token>, e: Expr)
    requires ParseAt(0, ts) == Parsed(e, rest)
    ensures |PrintAt(e, 0)| + |rest| <= |ts|
  {
    AtEnough(0, ts);
  }

  /** Without its parentheses an operand of too low a level is read as something else. */
  lemma {:induction false} ParensAreNeeded(e: Expr, level: nat, rest: seq<Token>)
    requires level <= 10 && Level(e) < level
    ensures ParseAt(level, Body(e) + rest) != Parsed(e, rest)
  {
    hide ParseAt, WellFormed;
    AtEnough(level, Body(e) + rest);
  }
}
