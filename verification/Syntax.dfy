/** Tokens, expression trees and the grammar of expressions (src/core/parser.c), with the
    ladder of precedence levels written as one table-driven parser. */
module Syntax {

  datatype Token =
    | TInt(n: nat) | TFloat(r: real) | TString(s: string) | TTrue | TFalse | TNull
    | TIdent(name: string)
    | TArrayWord | TStrWord                    // type keywords that double as module names
    | LBracket | RBracket | LParen | RParen | LBrace | RBrace
    | Comma | Colon | Dot | QuestionDot | DotDotDot
    | Equal | DotDot | QuestionQuestion | OrOr | AndAnd
    | EqualEqual | BangEqual | Less | LessEqual | Greater | GreaterEqual
    | Plus | Minus | Star | Slash | Percent
    | Bang | Typeof
    | Other(kind: nat)                         // every token no expression contains

  datatype UnOp = Not | Neg

  datatype BinOp =
    | Range | Nullish | Or | And
    | Eq | Neq | Lt | Lte | Gt | Gte
    | Add | Sub | Mul | Div | Mod

  datatype Expr =
    | IntLit(n: nat) | FloatLit(r: real) | StrLit(s: string) | BoolLit(b: bool) | NullLit
    | Ident(name: string)
    | ArrayLit(elems: seq<Elem>)
    | StructLit(name: string, fields: seq<FieldInit>)
    | Call(callee: Expr, args: seq<Expr>)
    | Member(object: Expr, name: string)
    | Index(object: Expr, index: Expr)
    | OptMember(object: Expr, name: string)
    | OptIndex(object: Expr, index: Expr)
    | Unary(uop: UnOp, operand: Expr)
    | TypeOf(operand: Expr)
    | Binary(op: BinOp, left: Expr, right: Expr)
    | Assign(target: Expr, value: Expr)

  datatype Elem = Item(e: Expr) | Spread(e: Expr)
  datatype FieldInit = FieldInit(name: string, value: Expr)

  // ---------- The ladder ----------

  // Level 0 is assignment, 1 range, 2 to 7 the left-associative operators, 8 the prefix
  // operators, 9 the postfix loop and 10 the primary expressions.

  function LevelOfOp(op: BinOp): nat {
    match op
    case Range => 1
    case Nullish => 2
    case Or => 3
    case And => 4
    case Eq | Neq | Lt | Lte | Gt | Gte => 5
    case Add | Sub => 6
    case Mul | Div | Mod => 7
  }

  function TokenOfOp(op: BinOp): Token {
    match op
    case Range => DotDot
    case Nullish => QuestionQuestion
    case Or => OrOr
    case And => AndAnd
    case Eq => EqualEqual
    case Neq => BangEqual
    case Lt => Less
    case Lte => LessEqual
    case Gt => Greater
    case Gte => GreaterEqual
    case Add => Plus
    case Sub => Minus
    case Mul => Star
    case Div => Slash
    case Mod => Percent
  }

  datatype Parsed<+T> = Failed | Parsed(value: T, rest: seq<Token>)

  /** The operator that token `t` stands for between two operands, if it is one of `level`. */
  predicate IsOp(level: nat, t: Token) {
    match t
    case DotDot => level == 1
    case QuestionQuestion => level == 2
    case OrOr => level == 3
    case AndAnd => level == 4
    case EqualEqual | BangEqual | Less | LessEqual | Greater | GreaterEqual => level == 5
    case Plus | Minus => level == 6
    case Star | Slash | Percent => level == 7
    case _ => false
  }

  function OpOfToken(level: nat, t: Token): (op: BinOp)
    requires IsOp(level, t)
    ensures TokenOfOp(op) == t && LevelOfOp(op) == level
  {
    match t
    case DotDot => Range
    case QuestionQuestion => Nullish
    case OrOr => Or
    case AndAnd => And
    case EqualEqual => Eq
    case BangEqual => Neq
    case Less => Lt
    case LessEqual => Lte
    case Greater => Gt
    case GreaterEqual => Gte
    case Plus => Add
    case Minus => Sub
    case Star => Mul
    case Slash => Div
    case Percent => Mod
  }

  predicate Assignable(e: Expr) {
    e.Ident? || e.Index? || e.Member?
  }

  predicate NextIs(ts: seq<Token>, t: Token) {
    |ts| > 0 && ts[0] == t
  }

  predicate NextIsIdent(ts: seq<Token>) {
    |ts| > 0 && ts[0].TIdent?
  }

  function ParseAt(level: nat, ts: seq<Token>): (r: Parsed<Expr>)
    requires level <= 10
    ensures r.Parsed? ==> |r.rest| < |ts| && WellFormed(r.value)
    decreases |ts|, 11 - level
  {
    if level == 0 then
      var r := ParseAt(1, ts);
      if r.Parsed? && NextIs(r.rest, Equal) then
        var v := ParseAt(0, r.rest[1..]);
        if v.Parsed? && Assignable(r.value) then Parsed(Assign(r.value, v.value), v.rest) else Failed
      else r
    else if level == 1 then
      var r := ParseAt(2, ts);
      if r.Parsed? && NextIs(r.rest, DotDot) then
        var v := ParseAt(2, r.rest[1..]);
        if v.Parsed? then Parsed(Binary(Range, r.value, v.value), v.rest) else Failed
      else r
    else if level <= 7 then
      var r := ParseAt(level + 1, ts);
      if r.Parsed? then BinLoop(level, r.value, r.rest) else Failed
    else if level == 8 then
      if NextIs(ts, Bang) || NextIs(ts, Minus) || NextIs(ts, Typeof) then
        var r := ParseAt(8, ts[1..]);
        if r.Failed? then Failed
        else Parsed(if ts[0] == Bang then Unary(Not, r.value)
                    else if ts[0] == Minus then Unary(Neg, r.value)
                    else TypeOf(r.value), r.rest)
      else ParseAt(9, ts)
    else if level == 9 then
      var r := ParseAt(10, ts);
      if r.Parsed? then PostfixLoop(r.value, r.rest) else Failed
    else ParsePrimary(ts)
  }

  function BinLoop(level: nat, left: Expr, ts: seq<Token>): (r: Parsed<Expr>)
    requires 2 <= level <= 7
    ensures r.Parsed? ==> |r.rest| <= |ts| && (WellFormed(left) ==> WellFormed(r.value))
    decreases |ts|, 0
  {
    if |ts| > 0 && IsOp(level, ts[0]) then
      var r := ParseAt(level + 1, ts[1..]);
      if r.Parsed? then BinLoop(level, Binary(OpOfToken(level, ts[0]), left, r.value), r.rest) else Failed
    else Parsed(left, ts)
  }

  predicate StartsPostfix(t: Token) {
    t == LBrace || t == LParen || t == QuestionDot || t == Dot || t == LBracket
  }

  function PostfixLoop(e: Expr, ts: seq<Token>): (r: Parsed<Expr>)
    ensures r.Parsed? ==> |r.rest| <= |ts| && (WellFormed(e) ==> WellFormed(r.value))
    decreases |ts|, 3
  {
    if |ts| > 0 && StartsPostfix(ts[0]) then
      var r := PostfixStep(e, ts[0], ts[1..]);
      if r.Parsed? then PostfixLoop(r.value, r.rest) else Failed
    else Parsed(e, ts)
  }

  /** One postfix that starts with token `t`, which is followed by `ts`. */
  function PostfixStep(e: Expr, t: Token, ts: seq<Token>): (r: Parsed<Expr>)
    requires StartsPostfix(t)
    ensures r.Parsed? ==> |r.rest| <= |ts| && (WellFormed(e) ==> WellFormed(r.value))
    decreases |ts|, 15
  {
    match t
    case LBrace => if e.Ident? then StructStep(e.name, ts) else Failed
    case LParen => CallStep(e, ts)
    case Dot => if NextIsIdent(ts) then Parsed(Member(e, ts[0].name), ts[1..]) else Failed
    case LBracket =>
      var i := IndexStep(ts);
      if i.Parsed? then Parsed(Index(e, i.value), i.rest) else Failed
    case QuestionDot =>
      if NextIsIdent(ts) then Parsed(OptMember(e, ts[0].name), ts[1..])
      else if NextIs(ts, LBracket) then
        var i := IndexStep(ts[1..]);
        if i.Parsed? then Parsed(OptIndex(e, i.value), i.rest) else Failed
      else Failed
  }

  function StructStep(name: string, ts: seq<Token>): (r: Parsed<Expr>)
    ensures r.Parsed? ==> |r.rest| <= |ts| && WellFormed(r.value)
    decreases |ts|, 14
  {
    if NextIs(ts, RBrace) then Parsed(StructLit(name, []), ts[1..])
    else
      var r := ParseFields(ts);
      if r.Parsed? && NextIs(r.rest, RBrace) then Parsed(StructLit(name, r.value), r.rest[1..]) else Failed
  }

  function CallStep(e: Expr, ts: seq<Token>): (r: Parsed<Expr>)
    ensures r.Parsed? ==> |r.rest| <= |ts| && (WellFormed(e) ==> WellFormed(r.value))
    decreases |ts|, 14
  {
    if NextIs(ts, RParen) then Parsed(Call(e, []), ts[1..])
    else
      var r := ParseArgs(ts);
      if r.Parsed? && NextIs(r.rest, RParen) then Parsed(Call(e, r.value), r.rest[1..]) else Failed
  }

  /** An index and its closing bracket. */
  function IndexStep(ts: seq<Token>): (r: Parsed<Expr>)
    ensures r.Parsed? ==> |r.rest| < |ts| && WellFormed(r.value)
    decreases |ts|, 14
  {
    var r := ParseAt(0, ts);
    if r.Parsed? && NextIs(r.rest, RBracket) then Parsed(r.value, r.rest[1..]) else Failed
  }

  function ParsePrimary(ts: seq<Token>): (r: Parsed<Expr>)
    ensures r.Parsed? ==> |r.rest| < |ts| && WellFormed(r.value)
    decreases |ts|, 0
  {
    if ts == [] then Failed
    else
      match ts[0]
      case TInt(n) => Parsed(IntLit(n), ts[1..])
      case TFloat(x) => Parsed(FloatLit(x), ts[1..])
      case TString(s) => Parsed(StrLit(s), ts[1..])
      case TTrue => Parsed(BoolLit(true), ts[1..])
      case TFalse => Parsed(BoolLit(false), ts[1..])
      case TNull => Parsed(NullLit, ts[1..])
      case TIdent(name) => Parsed(Ident(name), ts[1..])
      case TArrayWord => Parsed(Ident("array"), ts[1..])
      case TStrWord => Parsed(Ident("str"), ts[1..])
      case LBracket => ArrayStep(ts[1..])
      case LParen => GroupStep(ts[1..])
      case _ => Failed
  }

  /** The elements and the closing bracket of an array literal. */
  function ArrayStep(ts: seq<Token>): (r: Parsed<Expr>)
    ensures r.Parsed? ==> |r.rest| <= |ts| && WellFormed(r.value)
    decreases |ts|, 14
  {
    if NextIs(ts, RBracket) then Parsed(ArrayLit([]), ts[1..])
    else
      var r := ParseElems(ts);
      if r.Parsed? && NextIs(r.rest, RBracket) then Parsed(ArrayLit(r.value), r.rest[1..]) else Failed
  }

  /** A parenthesised expression and its closing parenthesis. */
  function GroupStep(ts: seq<Token>): (r: Parsed<Expr>)
    ensures r.Parsed? ==> |r.rest| < |ts| && WellFormed(r.value)
    decreases |ts|, 14
  {
    var r := ParseAt(0, ts);
    if r.Parsed? && NextIs(r.rest, RParen) then Parsed(r.value, r.rest[1..]) else Failed
  }

  function ParseArgs(ts: seq<Token>): (r: Parsed<seq<Expr>>)
    ensures r.Parsed? ==> |r.rest| < |ts| && forall i | 0 <= i < |r.value| :: WellFormed(r.value[i])
    decreases |ts|, 12
  {
    var r := ParseAt(0, ts);
    if r.Failed? then Failed
    else if NextIs(r.rest, Comma) then
      var more := ParseArgs(r.rest[1..]);
      if more.Parsed? then Parsed([r.value] + more.value, more.rest) else Failed
    else Parsed([r.value], r.rest)
  }

  function ParseElem(ts: seq<Token>): (r: Parsed<Elem>)
    ensures r.Parsed? ==> |r.rest| < |ts| && WellFormed(r.value.e)
    decreases |ts|, 12
  {
    if NextIs(ts, DotDotDot) then
      var r := ParseAt(0, ts[1..]);
      if r.Parsed? then Parsed(Spread(r.value), r.rest) else Failed
    else
      var r := ParseAt(0, ts);
      if r.Parsed? then Parsed(Item(r.value), r.rest) else Failed
  }

  function ParseElems(ts: seq<Token>): (r: Parsed<seq<Elem>>)
    ensures r.Parsed? ==> |r.rest| < |ts| && forall i | 0 <= i < |r.value| :: WellFormed(r.value[i].e)
    decreases |ts|, 13
  {
    var r := ParseElem(ts);
    if r.Failed? then Failed
    else if NextIs(r.rest, Comma) then
      var more := ParseElems(r.rest[1..]);
      if more.Parsed? then Parsed([r.value] + more.value, more.rest) else Failed
    else Parsed([r.value], r.rest)
  }

  function ParseFields(ts: seq<Token>): (r: Parsed<seq<FieldInit>>)
    ensures r.Parsed? ==> |r.rest| < |ts| && forall i | 0 <= i < |r.value| :: WellFormed(r.value[i].value)
    decreases |ts|, 13
  {
    if NextIsIdent(ts) && NextIs(ts[1..], Colon) then
      var r := ParseAt(0, ts[2..]);
      if r.Failed? then Failed
      else if NextIs(r.rest, Comma) then
        var more := ParseFields(r.rest[1..]);
        if more.Parsed? then Parsed([FieldInit(ts[0].name, r.value)] + more.value, more.rest) else Failed
      else Parsed([FieldInit(ts[0].name, r.value)], r.rest)
    else Failed
  }

  // ---------- Printing ----------

  function Level(e: Expr): (n: nat)
    ensures n <= 10
  {
    match e
    case Assign(_, _) => 0
    case Binary(op, _, _) => LevelOfOp(op)
    case Unary(_, _) | TypeOf(_) => 8
    case Call(_, _) | Member(_, _) | Index(_, _) | OptMember(_, _) | OptIndex(_, _) | StructLit(_, _) => 9
    case _ => 10
  }

  /** The tokens of `e` where the grammar wants an expression of at least this level: in
      parentheses exactly when the level of `e` is too low. */
  function PrintAt(e: Expr, level: nat): seq<Token>
    decreases e, 1
  {
    if Level(e) >= level then Body(e) else [LParen] + Body(e) + [RParen]
  }

  function Body(e: Expr): seq<Token>
    decreases e, 0
  {
    match e
    case IntLit(n) => [TInt(n)]
    case FloatLit(r) => [TFloat(r)]
    case StrLit(s) => [TString(s)]
    case BoolLit(b) => [if b then TTrue else TFalse]
    case NullLit => [TNull]
    case Ident(name) => [TIdent(name)]
    case ArrayLit(elems) => [LBracket] + PrintElems(elems) + [RBracket]
    case StructLit(name, fields) => [TIdent(name), LBrace] + PrintFields(fields) + [RBrace]
    case Call(f, args) => PrintAt(f, 9) + ([LParen] + PrintArgs(args) + [RParen])
    case Member(o, name) => PrintAt(o, 9) + [Dot, TIdent(name)]
    case Index(o, i) => PrintAt(o, 9) + ([LBracket] + PrintAt(i, 0) + [RBracket])
    case OptMember(o, name) => PrintAt(o, 9) + [QuestionDot, TIdent(name)]
    case OptIndex(o, i) => PrintAt(o, 9) + ([QuestionDot, LBracket] + PrintAt(i, 0) + [RBracket])
    case Unary(op, x) => [if op == Not then Bang else Minus] + PrintAt(x, 8)
    case TypeOf(x) => [Typeof] + PrintAt(x, 8)
    case Binary(op, l, r) =>
      PrintAt(l, if op == Range then 2 else LevelOfOp(op)) + ([TokenOfOp(op)] + PrintAt(r, LevelOfOp(op) + 1))
    case Assign(t, v) => PrintAt(t, 1) + ([Equal] + PrintAt(v, 0))
  }

  function PrintArgs(args: seq<Expr>): seq<Token>
    decreases args, 0
  {
    if args == [] then []
    else PrintAt(args[0], 0) + (if |args| == 1 then [] else [Comma] + PrintArgs(args[1..]))
  }

  function PrintElem(x: Elem): seq<Token>
    decreases x, 0
  {
    match x
    case Item(e) => PrintAt(e, 0)
    case Spread(e) => [DotDotDot] + PrintAt(e, 0)
  }

  function PrintElems(elems: seq<Elem>): seq<Token>
    decreases elems, 0
  {
    if elems == [] then []
    else PrintElem(elems[0]) + (if |elems| == 1 then [] else [Comma] + PrintElems(elems[1..]))
  }

  function PrintFields(fields: seq<FieldInit>): seq<Token>
    decreases fields, 0
  {
    if fields == [] then []
    else
      [TIdent(fields[0].name), Colon] + PrintAt(fields[0].value, 0)
      + (if |fields| == 1 then [] else [Comma] + PrintFields(fields[1..]))
  }

  /** Trees the parser can produce: only identifiers, indexing and members are assigned to. */
  predicate WellFormed(e: Expr)
    decreases e, 0
  {
    match e
    case ArrayLit(elems) => forall i | 0 <= i < |elems| :: WellFormed(elems[i].e)
    case StructLit(_, fields) => forall i | 0 <= i < |fields| :: WellFormed(fields[i].value)
    case Call(f, args) => WellFormed(f) && forall i | 0 <= i < |args| :: WellFormed(args[i])
    case Member(o, _) => WellFormed(o)
    case OptMember(o, _) => WellFormed(o)
    case Index(o, i) => WellFormed(o) && WellFormed(i)
    case OptIndex(o, i) => WellFormed(o) && WellFormed(i)
    case Unary(_, x) => WellFormed(x)
    case TypeOf(x) => WellFormed(x)
    case Binary(_, l, r) => WellFormed(l) && WellFormed(r)
    case Assign(t, v) => Assignable(t) && WellFormed(t) && WellFormed(v)
    case _ => true
  }
}
