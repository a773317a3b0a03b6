/** The lexer's cursor over a NUL-free source (src/core/lexer.c), agreeing with the functions of
    `Lexing`, and the line numbers it keeps. Columns are left out. The cursor answers '\0' at the end
    of its source, as the terminated string does, and the source itself contains none. */
module Lexer {
  import opened Options
  import opened Lexing

  function Newlines(s: string): nat {
    if s == "" then 0 else (if s[0] == '\n' then 1 else 0) + Newlines(s[1..])
  }

  lemma {:induction false} NewlinesConcat(a: string, b: string)
    ensures Newlines(a + b) == Newlines(a) + Newlines(b)
  {
    if a == "" {
      assert a + b == b;
    } else {
      assert (a + b)[1..] == a[1..] + b;
      NewlinesConcat(a[1..], b);
    }
  }

  lemma {:induction false} NewlinesBetween(s: string, i: nat, j: nat, k: nat)
    requires i <= j <= k <= |s|
    ensures Newlines(s[i..k]) == Newlines(s[i..j]) + Newlines(s[j..k])
  {
    assert s[i..k] == s[i..j] + s[j..k];
    NewlinesConcat(s[i..j], s[j..k]);
  }

  lemma {:induction false} OneNewline(s: string, i: nat, j: nat)
    requires i <= j < |s|
    ensures Newlines(s[i..j + 1]) == Newlines(s[i..j]) + if s[j] == '\n' then 1 else 0
  {
    NewlinesBetween(s, i, j, j + 1);
    assert s[j..j + 1][1..] == "";
  }

  lemma {:induction false} ClosingLines(s: string, i: nat, j: nat)
    requires i <= j && j + 2 <= |s| && s[j] == '*' && s[j + 1] == '/'
    ensures Newlines(s[i..j + 2]) == Newlines(s[i..j])
  {
    NewlinesBetween(s, i, j, j + 2);
    NoNewlines(s[j..j + 2]);
  }

  lemma {:induction false} OpeningLines(s: string, i: nat, j: nat)
    requires i + 2 <= j <= |s| && s[i] == '/' && s[i + 1] == '*'
    ensures Newlines(s[i..j]) == Newlines(s[i + 2..j])
  {
    NewlinesBetween(s, i, i + 2, j);
    NoNewlines(s[i..i + 2]);
  }

  lemma {:induction false} BlockStep(s: string)
    ensures BlockCommentLength(s)
         == if s == "" then 0 else if s[0] == '*' && |s| > 1 && s[1] == '/' then 2
            else 1 + BlockCommentLength(s[1..])
  {
  }

  lemma {:induction false} GapBlank(s: string)
    requires s != "" && (s[0] == ' ' || s[0] == '\r' || s[0] == '\t' || s[0] == '\n')
    ensures GapLength(s) == 1 + GapLength(s[1..])
  {
  }

  lemma {:induction false} GapOver(s: string)
    requires s != "" ==> s[0] != ' ' && s[0] != '\r' && s[0] != '\t' && s[0] != '\n'
    requires |s| > 1 && s[0] == '/' ==> s[1] != '/' && s[1] != '*'
    ensures GapLength(s) == 0
  {
  }

  lemma {:induction false} NoNewlines(s: string)
    requires '\n' !in s
    ensures Newlines(s) == 0
  {
    if s != "" { NoNewlines(s[1..]); }
  }

  /** The line ends counted in the body of a string: not those that an escape takes along. */
  function StringLines(s: string): nat {
    if s == "" || s[0] == '"' then 0
    else if s[0] == '\\' && |s| > 1 then StringLines(s[2..])
    else (if s[0] == '\n' then 1 else 0) + StringLines(s[1..])
  }

  /** The line ends counted in the token at the start of `s`. */
  function ScanLines(s: string): nat
    requires s != ""
  {
    if s[0] == '"' then StringLines(s[1..]) else 0
  }

  /** A string body with an escape right before a line end. */
  predicate EscapesNewline(s: string) {
    if s == "" || s[0] == '"' then false
    else if s[0] == '\\' && |s| > 1 then s[1] == '\n' || EscapesNewline(s[2..])
    else EscapesNewline(s[1..])
  }

  /** The count falls short exactly when an escape hides a line end. */
  lemma {:induction false} StringLinesExact(s: string)
    ensures StringLines(s) <= Newlines(s[..ScanString(s).length])
    ensures StringLines(s) == Newlines(s[..ScanString(s).length]) <==> !EscapesNewline(s)
  {
    if s == "" {
    } else if s[0] == '"' {
      assert s[..1] == "\"";
      NoNewlines("\"");
    } else {
      var k := if s[0] == '\\' && |s| > 1 then 2 else 1;
      var rest := s[k..];
      StringLinesExact(rest);
      var m := ScanString(rest).length;
      assert s[..k + m] == s[..k] + rest[..m];
      NewlinesConcat(s[..k], rest[..m]);
      NewlinesOfFew(s, k);
    }
  }

  lemma {:induction false} NewlinesOfFew(s: string, k: nat)
    requires 1 <= k <= 2 && k <= |s|
    ensures Newlines(s[..k]) == (if s[0] == '\n' then 1 else 0) + (if k == 2 && s[1] == '\n' then 1 else 0)
  {
    assert s[..k][1..] == s[1..k];
    if k == 2 {
      assert s[1..2][1..] == "";
      assert Newlines(s[1..2]) == if s[1] == '\n' then 1 else 0;
    }
  }

  /** The token at the start of `s` contains a line end that is not counted. */
  predicate HidesNewline(s: string)
    requires s != ""
  {
    || (s[0] == '"' && EscapesNewline(s[1..]))
    || (s[0] == '\'' && '\n' in s[..Scan(s).length])
  }

  lemma {:induction false} WordHasNoNewline(s: string)
    ensures '\n' !in s[..WordLength(s)]
  {
    if s != "" && IsWordChar(s[0]) {
      WordHasNoNewline(s[1..]);
      assert s[..1 + WordLength(s[1..])] == [s[0]] + s[1..][..WordLength(s[1..])];
    }
  }

  lemma {:induction false} DigitsHaveNoNewline(s: string)
    ensures '\n' !in s[..DigitsLength(s)]
  {
    if s != "" && IsDigit(s[0]) {
      DigitsHaveNoNewline(s[1..]);
      assert s[..1 + DigitsLength(s[1..])] == [s[0]] + s[1..][..DigitsLength(s[1..])];
    }
  }

  lemma {:induction false} NumberHasNoNewline(s: string)
    ensures '\n' !in s[..ScanNumber(s).length]
  {
    var n := DigitsLength(s);
    DigitsHaveNoNewline(s);
    if ScanNumber(s).kind == Float {
      DigitsHaveNoNewline(s[n + 1..]);
      assert s[..ScanNumber(s).length] == s[..n] + "." + s[n + 1..][..DigitsLength(s[n + 1..])];
    }
  }

  lemma {:induction false} SymbolHasNoNewline(s: string)
    requires s != "" && s[0] != '\n'
    ensures '\n' !in s[..ScanSymbol(s).length]
  {
  }

  lemma {:induction false} SomeNewlines(s: string)
    requires '\n' in s
    ensures Newlines(s) > 0
  {
    if s[0] != '\n' {
      assert s == [s[0]] + s[1..];
      SomeNewlines(s[1..]);
    }
  }

  /** Every line end of a token is counted exactly when none is escaped in a string or stands in
      a character literal. */
  lemma {:induction false} LinesExact(s: string)
    requires s != "" && GapLength(s) == 0
    ensures ScanLines(s) <= Newlines(s[..Scan(s).length])
    ensures ScanLines(s) == Newlines(s[..Scan(s).length]) <==> !HidesNewline(s)
  {
    var rest := s[1..];
    var text := s[..Scan(s).length];
    assert text == [s[0]] + rest[..Scan(s).length - 1];
    if s[0] == '"' {
      StringLinesExact(rest);
    } else if s[0] == '\'' {
      if '\n' in text { SomeNewlines(text); } else { NoNewlines(text); }
    } else {
      if IsAlpha(s[0]) || s[0] == '_' {
        WordHasNoNewline(rest);
      } else if IsDigit(s[0]) {
        NumberHasNoNewline(rest);
      } else {
        SymbolHasNoNewline(s);
      }
      NoNewlines(text);
    }
  }

  // ---------- Whole sources ----------

  datatype Token = Token(kind: Kind, start: nat, length: nat, line: nat)

  /** The tokens from `at` on, each with its place and the line that is counted by its end. */
  function Tokens(source: string, at: nat, line: nat): (r: seq<Token>)
    requires at <= |source|
    decreases |source| - at
  {
    var from := at + GapLength(source[at..]);
    var rest := source[from..];
    var before := line + Newlines(source[at..from]);
    if rest == "" then [Token(Eof, from, 0, before)]
    else
      var t := Scan(rest);
      var after := before + ScanLines(rest);
      [Token(t.kind, from, t.length, after)] + Tokens(source, from + t.length, after)
  }

  function Good(ts: seq<Token>): seq<Token> {
    if ts == [] then [] else (if ts[0].kind != Error then [ts[0]] else []) + Good(ts[1..])
  }

  function Bad(ts: seq<Token>): seq<Token> {
    if ts == [] then [] else (if ts[0].kind == Error then [ts[0]] else []) + Bad(ts[1..])
  }

  predicate OnlyErrors(ts: seq<Token>) {
    forall t :: t in ts ==> t.kind == Error
  }

  lemma {:induction false} SplitNothing()
    ensures Good([]) == [] && Bad([]) == []
  {
  }

  lemma {:induction false} SplitCons(t: Token, ts: seq<Token>)
    ensures Good([t] + ts) == (if t.kind != Error then [t] else []) + Good(ts)
    ensures Bad([t] + ts) == (if t.kind == Error then [t] else []) + Bad(ts)
  {
    assert ([t] + ts)[1..] == ts;
  }

  lemma {:induction false} Regroup(a: seq<Token>, b: seq<Token>, c: seq<Token>)
    ensures a + (b + c) == (a + b) + c
  {
  }

  lemma {:induction false} SplitConcat(a: seq<Token>, b: seq<Token>)
    ensures Good(a + b) == Good(a) + Good(b) && Bad(a + b) == Bad(a) + Bad(b)
  {
    if a == [] {
      assert a + b == b;
    } else {
      hide Good, Bad;
      var t, rest := a[0], a[1..];
      assert a == [t] + rest;
      Regroup([t], rest, b);
      SplitConcat(rest, b);
      SplitCons(t, rest);
      SplitCons(t, rest + b);
      Regroup(if t.kind != Error then [t] else [], Good(rest), Good(b));
      Regroup(if t.kind == Error then [t] else [], Bad(rest), Bad(b));
    }
  }

  lemma {:induction false} SplitErrors(errors: seq<Token>, t: Token)
    requires OnlyErrors(errors) && t.kind != Error
    ensures Good(errors + [t]) == [t] && Bad(errors + [t]) == errors
  {
    if errors == [] {
      assert errors + [t] == [t] && [t][1..] == [];
    } else {
      assert errors == [errors[0]] + errors[1..];
      assert (errors + [t])[1..] == errors[1..] + [t];
      assert errors[0] in errors;
      SplitErrors(errors[1..], t);
    }
  }

  predicate SameText(source: string, t: Token, x: Lexeme) {
    t.kind == x.kind && t.start + t.length <= |source| && source[t.start..t.start + t.length] == x.text
  }

  predicate SameTexts(source: string, ts: seq<Token>, xs: seq<Lexeme>) {
    |ts| == |xs| && forall i :: 0 <= i < |ts| ==> SameText(source, ts[i], xs[i])
  }

  lemma {:induction false} TextsCons(source: string, t: Token, ts: seq<Token>, x: Lexeme, xs: seq<Lexeme>)
    requires SameText(source, t, x) && SameTexts(source, ts, xs)
    ensures SameTexts(source, [t] + ts, [x] + xs)
  {
    hide SameText;
  }

  lemma {:induction false} OnlyText(source: string, ts: seq<Token>, xs: seq<Lexeme>)
    requires |ts| == |xs| == 1 && SameText(source, ts[0], xs[0])
    ensures SameTexts(source, ts, xs)
  {
  }

  lemma {:induction false} TokensUnfold(source: string, at: nat, line: nat)
    requires at <= |source|
    ensures var from := at + GapLength(source[at..]);
      var rest := source[from..];
      var before := line + Newlines(source[at..from]);
      Tokens(source, at, line)
        == if rest == "" then [Token(Eof, from, 0, before)]
           else [Token(Scan(rest).kind, from, Scan(rest).length, before + ScanLines(rest))]
                + Tokens(source, from + Scan(rest).length, before + ScanLines(rest))
  {
    hide GapLength, Scan, ScanLines, Newlines;
  }

  /** They are the tokens of the lexing of the source. */
  lemma {:induction false} TokensAreLexemes(source: string, at: nat, line: nat)
    requires at <= |source|
    ensures var ts, xs := Tokens(source, at, line), Lex(source[at..]);
      SameTexts(source, ts, xs)
    decreases |source| - at
  {
    hide GapLength, Scan, ScanLines, Newlines, SameTexts, Lex, Tokens;
    TokensUnfold(source, at, line);
    var g := GapLength(source[at..]);
    var from := at + g;
    var rest := source[from..];
    assert source[at..][g..] == rest;
    LexUnfolds(source[at..]);
    if rest == "" {
      OnlyText(source, Tokens(source, at, line), Lex(source[at..]));
    } else {
      var n := Scan(rest).length;
      var after := line + Newlines(source[at..from]) + ScanLines(rest);
      TokensAreLexemes(source, from + n, after);
      assert rest[n..] == source[from + n..];
      assert source[from..from + n] == rest[..n];
      TextsCons(source, Token(Scan(rest).kind, from, n, after), Tokens(source, from + n, after),
               Lexeme(source[at..][..g], rest[..n], Scan(rest).kind), Lex(source[from + n..]));
    }
  }

  predicate Hides(source: string, t: Token) {
    t.start < |source| && HidesNewline(source[t.start..])
  }

  /** None of the tokens up to the one at `k` hides a line end. */
  predicate NoneHides(source: string, ts: seq<Token>, k: nat)
    requires k < |ts|
  {
    forall i :: 0 <= i <= k ==> !Hides(source, ts[i])
  }

  lemma {:induction false} NoneHidesCons(source: string, t: Token, ts: seq<Token>, k: nat)
    requires k < |ts|
    ensures NoneHides(source, [t] + ts, k + 1) <==> !Hides(source, t) && NoneHides(source, ts, k)
  {
    hide Hides;
    var all := [t] + ts;
    if NoneHides(source, all, k + 1) {
      assert !Hides(source, all[0]);
      forall i | 0 <= i <= k ensures !Hides(source, ts[i]) { assert !Hides(source, all[i + 1]); }
    }
  }

  /** The first token after `at`: where it ends, and how the lines up to there compare. */
  lemma {:induction false} FirstLines(source: string, at: nat)
    requires at <= |source| && at + GapLength(source[at..]) < |source|
    ensures var from := at + GapLength(source[at..]);
      var end := from + Scan(source[from..]).length;
      var counted := Newlines(source[at..from]) + ScanLines(source[from..]);
      && end <= |source| && counted <= Newlines(source[at..end])
      && (counted == Newlines(source[at..end]) <==> !HidesNewline(source[from..]))
  {
    hide GapLength, Scan, ScanLines, Newlines, HidesNewline;
    var g := GapLength(source[at..]);
    var from := at + g;
    var rest := source[from..];
    SkipGap(source[at..]);
    assert source[at..][g..] == rest;
    LinesExact(rest);
    var end := from + Scan(rest).length;
    assert source[from..end] == rest[..end - from];
    NewlinesBetween(source, at, from, end);
  }

  lemma {:induction false} LinesThrough(source: string, at: nat, line: nat, k: nat)
    requires at <= |source| && k < |Tokens(source, at, line)|
    ensures var ts := Tokens(source, at, line);
      var end := ts[k].start + ts[k].length;
      && at <= end <= |source| && ts[k].line <= line + Newlines(source[at..end])
      && (ts[k].line == line + Newlines(source[at..end]) <==> NoneHides(source, ts, k))
    decreases k
  {
    hide GapLength, Scan, ScanLines, Newlines, HidesNewline, NoneHides;
    var ts := Tokens(source, at, line);
    var from := at + GapLength(source[at..]);
    if source[from..] == "" {
      OnlyToken(source, ts);
    } else {
      FirstLines(source, at);
      var next := from + Scan(source[from..]).length;
      var after := line + Newlines(source[at..from]) + ScanLines(source[from..]);
      var more := Tokens(source, next, after);
      assert ts == [ts[0]] + more;
      if k == 0 {
        OnlyToken(source, ts);
      } else {
        LinesThrough(source, next, after, k - 1);
        NoneHidesCons(source, ts[0], more, k - 1);
        NewlinesBetween(source, at, next, ts[k].start + ts[k].length);
      }
    }
  }

  lemma {:induction false} OnlyToken(source: string, ts: seq<Token>)
    requires ts != []
    ensures NoneHides(source, ts, 0) <==> !Hides(source, ts[0])
  {
    hide Hides;
  }

  /** In every source the line given with a token is the line its text ends on if and only if
      neither it nor any token before it hides a line end; it is never too high. */
  lemma {:induction false} LineNumbersExact(source: string, k: nat)
    requires k < |Tokens(source, 0, 1)|
    ensures var ts := Tokens(source, 0, 1);
      var end := ts[k].start + ts[k].length;
      && end <= |source| && ts[k].line <= 1 + Newlines(source[..end])
      && (ts[k].line == 1 + Newlines(source[..end]) <==> NoneHides(source, ts, k))
  {
    hide Tokens, NoneHides, Newlines;
    LinesThrough(source, 0, 1, k);
    var end := Tokens(source, 0, 1)[k].start + Tokens(source, 0, 1)[k].length;
    assert source[0..end] == source[..end];
  }

  const ESCAPED := ['"', '\\', '\n', '"']

  lemma {:induction false} EscapedScan()
    ensures GapLength(ESCAPED) == 0 && Scan(ESCAPED) == Scanned(StringLiteral, 4)
    ensures ScanLines(ESCAPED) == 0 && HidesNewline(ESCAPED)
  {
    var body := ['\\', '\n', '"'];
    assert ESCAPED[1..] == body && body[2..] == ['"'];
    assert ScanString(body) == Scanned(StringLiteral, 3);
    assert StringLines(body) == 0;
  }

  lemma {:induction false} EscapedNewlines()
    ensures Newlines(ESCAPED) == 1
  {
    assert ESCAPED == ['"', '\\'] + ['\n', '"'];
    NewlinesConcat(['"', '\\'], ['\n', '"']);
    NoNewlines(['"', '\\']);
    NewlinesOfFew(['\n', '"'], 2);
    assert ['\n', '"'][..2] == ['\n', '"'];
  }

  /** A string of a backslash and a line end: it ends on line 2 and is given line 1. */
  lemma {:induction false} EscapedLineEnd()
    ensures Tokens(ESCAPED, 0, 1)[0] == Token(StringLiteral, 0, 4, 1)
    ensures 1 + Newlines(ESCAPED[..4]) == 2 && Hides(ESCAPED, Tokens(ESCAPED, 0, 1)[0])
  {
    hide GapLength, Scan, ScanLines, HidesNewline;
    EscapedScan();
    EscapedNewlines();
    assert ESCAPED[0..] == ESCAPED && ESCAPED[..4] == ESCAPED && ESCAPED[0..0] == "";
  }

  // ---------- The cursor ----------

  class Lexer {
    const source: string
    var start: nat
    var current: nat
    var line: nat

    predicate Valid()
      reads this
    {
      start <= current <= |source| && '\0' !in source
    }

    function Rest(): string
      requires Valid()
      reads this
    {
      source[current..]
    }

    constructor (source: string)
      requires '\0' !in source
      ensures Valid() && this.source == source && current == 0 && line == 1
    {
      this.source := source;
      start, current, line := 0, 0, 1;
    }

    function Peek(): (c: char)
      requires Valid()
      reads this
      ensures c == '\0' <==> current == |source|
    {
      if current < |source| then AtIn(source, current) else '\0'
    }

    function PeekNext(): (c: char)
      requires Valid()
      reads this
      ensures c == '\0' <==> current + 1 >= |source|
    {
      if current + 1 < |source| then AtIn(source, current + 1) else '\0'
    }

    method Advance()
      requires Valid() && current < |source|
      modifies this`current
      ensures Valid() && current == old(current) + 1
    {
      current := current + 1;
    }

    method SkipLineComment()
      requires Valid()
      modifies this`current
      ensures Valid() && current == old(current) + LineCommentLength(old(Rest()))
    {
      ghost var from := current;
      while Peek() != '\n' && Peek() != '\0'
        invariant from <= current && Valid()
        invariant LineCommentLength(source[from..]) == current - from + LineCommentLength(Rest())
        decreases |source| - current
      {
        assert Rest()[1..] == source[current + 1..];
        Advance();
      }
    }

    /** After the opening of a block comment. */
    method SkipBlockComment()
      requires Valid()
      modifies this`current, this`line
      ensures Valid() && current == old(current) + BlockCommentLength(old(Rest()))
      ensures line == old(line) + Newlines(source[old(current)..current])
    {
      hide Newlines, BlockCommentLength;
      ghost var from := current;
      NoNewlines(source[from..from]);
      BlockStep(Rest());
      while Peek() != '\0'
        invariant from <= current && Valid()
        invariant BlockCommentLength(source[from..]) == current - from + BlockCommentLength(Rest())
        invariant line == old(line) + Newlines(source[from..current])
        decreases |source| - current
      {
        BlockStep(Rest());
        BlockStep(source[current + 1..]);
        assert Rest()[1..] == source[current + 1..];
        if Peek() == '*' && PeekNext() == '/' {
          ClosingLines(source, from, current);
          Advance();
          Advance();
          return;
        }
        if Peek() == '\n' { line := line + 1; }
        OneNewline(source, from, current);
        Advance();
      }
    }

    method SkipWhitespace()
      requires Valid()
      modifies this`current, this`line
      ensures Valid() && current == old(current) + GapLength(old(Rest()))
      ensures line == old(line) + Newlines(source[old(current)..current])
    {
      hide GapLength, Newlines;
      ghost var from := current;
      NoNewlines(source[from..from]);
      while true
        invariant from <= current && Valid()
        invariant GapLength(source[from..]) == current - from + GapLength(Rest())
        invariant line == old(line) + Newlines(source[from..current])
        decreases |source| - current
      {
        var c := Peek();
        ghost var at := current;
        if c == ' ' || c == '\r' || c == '\t' || c == '\n' {
          if c == '\n' { line := line + 1; }
          OneNewline(source, from, at);
          GapBlank(Rest());
          Advance();
          assert source[at..][1..] == Rest();
        } else if c == '/' && PeekNext() == '/' {
          SkipComment(true);
          NewlinesBetween(source, from, at, current);
        } else if c == '/' && PeekNext() == '*' {
          SkipComment(false);
          NewlinesBetween(source, from, at, current);
        } else {
          GapOver(Rest());
          return;
        }
      }
    }

    method SkipComment(lineComment: bool)
      requires Valid() && current + 1 < |source| && source[current] == '/'
      requires source[current + 1] == if lineComment then '/' else '*'
      modifies this`current, this`line
      ensures Valid() && current > old(current)
      ensures GapLength(old(Rest())) == current - old(current) + GapLength(Rest())
      ensures line == old(line) + Newlines(source[old(current)..current])
    {
      hide Newlines;
      ghost var at := current;
      ghost var rest := Rest();
      Advance();
      Advance();
      assert rest[2..] == Rest();
      if lineComment {
        SkipLineComment();
        LineCommentLines(source, at, current);
      } else {
        SkipBlockComment();
        OpeningLines(source, at, current);
      }
      assert rest[current - at..] == Rest();
    }

    method Identifier() returns (kind: Kind)
      requires Valid()
      modifies this`current
      ensures Valid() && kind == Word && current == old(current) + WordLength(old(Rest()))
    {
      ghost var from := current;
      while IsWordChar(Peek())
        invariant from <= current && Valid()
        invariant WordLength(source[from..]) == current - from + WordLength(Rest())
        decreases |source| - current
      {
        assert Rest()[1..] == source[current + 1..];
        Advance();
      }
      kind := Word;
    }

    method Digits()
      requires Valid()
      modifies this`current
      ensures Valid() && current == old(current) + DigitsLength(old(Rest()))
    {
      ghost var from := current;
      while IsDigit(Peek())
        invariant from <= current && Valid()
        invariant DigitsLength(source[from..]) == current - from + DigitsLength(Rest())
        decreases |source| - current
      {
        assert Rest()[1..] == source[current + 1..];
        Advance();
      }
    }

    method NumberToken() returns (kind: Kind)
      requires Valid()
      modifies this`current
      ensures Valid()
      ensures var r := ScanNumber(old(Rest())); kind == r.kind && current == old(current) + r.length
    {
      ghost var rest := Rest();
      Digits();
      if Peek() == '.' && IsDigit(PeekNext()) {
        Advance();
        assert rest[DigitsLength(rest) + 1..] == Rest();
        Digits();
        return Float;
      }
      kind := Integer;
    }

    method StringToken() returns (kind: Kind)
      requires Valid()
      modifies this`current, this`line
      ensures Valid()
      ensures var r := ScanString(old(Rest())); kind == r.kind && current == old(current) + r.length
      ensures line == old(line) + StringLines(old(Rest()))
    {
      ghost var from := current;
      while Peek() != '"' && Peek() != '\0'
        invariant from <= current && Valid()
        invariant ScanString(source[from..])
          == Scanned(ScanString(Rest()).kind, current - from + ScanString(Rest()).length)
        invariant old(line) + StringLines(source[from..]) == line + StringLines(Rest())
        decreases |source| - current
      {
        ghost var rest := Rest();
        if Peek() == '\n' { line := line + 1; }
        if Peek() == '\\' {
          Advance();
          if Peek() != '\0' {
            Advance();
            assert rest[2..] == Rest();
          } else {
            assert rest[1..] == Rest();
          }
        } else {
          Advance();
          assert rest[1..] == Rest();
        }
      }
      if Peek() == '\0' { return Error; }
      Advance();
      kind := StringLiteral;
    }

    method CharToken() returns (kind: Kind)
      requires Valid()
      modifies this`current
      ensures Valid()
      ensures var r := ScanChar(old(Rest())); kind == r.kind && current == old(current) + r.length
    {
      if Peek() == '\0' { return Error; }
      if Peek() == '\\' {
        Advance();
        if Peek() != '\0' { Advance(); }
      } else {
        Advance();
      }
      if Peek() != '\'' { return Error; }
      Advance();
      kind := CharLiteral;
    }

    /** The rest of a symbol whose first character has been consumed. */
    method SymbolToken(c: char) returns (kind: Kind)
      requires Valid() && current == start + 1 && source[start] == c
      modifies this`current
      ensures Valid()
      ensures var r := ScanSymbol(source[start..]); kind == r.kind && current == start + r.length
    {
      ghost var s := source[start..];
      if Peek() != '\0' && Joins(c, Peek()) {
        Advance();
        if c == '.' && Peek() == '.' {
          Advance();
        }
        assert source[start..current] == s[..current - start];
        return Symbol(source[start..current]);
      }
      if SingleSymbol(c) {
        assert source[start..current] == s[..1];
        return Symbol(source[start..current]);
      }
      kind := Error;
    }

    /** Skips the gap and consumes one token: its place, its kind and the line it ends on. */
    method NextToken() returns (t: Token)
      requires Valid()
      modifies this
      ensures Valid()
      ensures var gap := GapLength(old(Rest()));
        var from := old(current) + gap;
        var rest := source[from..];
        if rest == "" then t == Token(Eof, |source|, 0, line) && current == |source|
        else t == Token(Scan(rest).kind, from, Scan(rest).length, line) && current == from + Scan(rest).length
      ensures line == old(line) + Newlines(source[old(current)..t.start])
        + if t.kind == Eof then 0 else ScanLines(source[t.start..])
    {
      hide GapLength, Newlines, WordLength, ScanNumber, ScanString, ScanChar, ScanSymbol, StringLines;
      SkipWhitespace();
      start := current;
      if current == |source| {
        return Token(Eof, start, 0, line);
      }
      ghost var rest := Rest();
      ScanNotEof(rest);
      var c := Peek();
      Advance();
      assert rest[1..] == Rest();
      var kind: Kind;
      if IsAlpha(c) || c == '_' {
        kind := Identifier();
      } else if IsDigit(c) {
        kind := NumberToken();
      } else if c == '"' {
        kind := StringToken();
      } else if c == '\'' {
        kind := CharToken();
      } else {
        kind := SymbolToken(c);
      }
      t := Token(kind, start, current - start, line);
    }

    /** The next token that is no error; the errors on the way are reported. */
    method AdvanceToken() returns (t: Token, reported: seq<Token>)
      requires Valid()
      modifies this
      ensures Valid() && OnlyErrors(reported) && t.kind != Error
      ensures Tokens(source, old(current), old(line))
        == reported + ([t] + if t.kind == Eof then [] else Tokens(source, current, line))
      ensures current >= old(current) && (t.kind != Eof ==> current > old(current))
    {
      hide Tokens;
      reported := [];
      ghost var all := Tokens(source, current, line);
      assert [] + all == all;
      while true
        invariant Valid() && OnlyErrors(reported) && current >= old(current)
        invariant all == reported + Tokens(source, current, line)
        decreases |source| - current
      {
        t := TokenAfter();
        if t.kind != Error { return; }
        assert reported + ([t] + Tokens(source, current, line)) == (reported + [t]) + Tokens(source, current, line);
        reported := reported + [t];
      }
    }

    /** NextToken in terms of the list of tokens. */
    method TokenAfter() returns (t: Token)
      requires Valid()
      modifies this
      ensures Valid() && current >= old(current) && (t.kind != Eof ==> current > old(current))
      ensures Tokens(source, old(current), old(line))
        == [t] + if t.kind == Eof then [] else Tokens(source, current, line)
    {
      hide GapLength, Scan, ScanLines, Newlines;
      ghost var from := current + GapLength(source[current..]);
      if source[from..] != "" { ScanNotEof(source[from..]); }
      t := NextToken();
    }

    /** All the tokens the parser sees, and all errors the lexer reports on the way. */
    method AllTokens() returns (ts: seq<Token>, errors: seq<Token>)
      requires Valid()
      modifies this
      ensures Valid() && ts == Good(Tokens(source, old(current), old(line)))
      ensures errors == Bad(Tokens(source, old(current), old(line)))
    {
      hide Tokens, Good, Bad, OnlyErrors;
      ts, errors := [], [];
      ghost var all := Tokens(source, current, line);
      ghost var seen: seq<Token> := [];
      SplitNothing();
      assert [] + all == all;
      while true
        invariant Valid() && all == seen + Tokens(source, current, line)
        invariant ts == Good(seen) && errors == Bad(seen)
        decreases |source| - current
      {
        ghost var rest := Tokens(source, current, line);
        var t, reported := AdvanceToken();
        SplitConcat(seen, reported + [t]);
        SplitErrors(reported, t);
        ts, errors := ts + [t], errors + reported;
        assert seen + (reported + ([t] + Tokens(source, current, line)))
          == (seen + (reported + [t])) + Tokens(source, current, line);
        assert seen + (reported + ([t] + [])) == seen + (reported + [t]);
        seen := seen + (reported + [t]);
        if t.kind == Eof { return; }
      }
    }
  }

  function AtIn(s: string, i: nat): (c: char)
    requires i < |s| && '\0' !in s
    ensures c == s[i] && c != '\0'
  {
    assert s[i] in s;
    s[i]
  }

  lemma {:induction false} LineCommentLines(s: string, at: nat, end: nat)
    requires at + 2 <= end <= |s| && s[at] == '/' && s[at + 1] == '/'
    requires end - at - 2 == LineCommentLength(s[at + 2..])
    ensures Newlines(s[at..end]) == 0
  {
    assert s[at..end] == s[at..at + 2] + s[at + 2..][..end - at - 2];
    NoNewlines(s[at..end]);
  }
}
