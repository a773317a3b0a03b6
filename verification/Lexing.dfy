/** Lexing as a function of the source text (src/core/lexer.c). */
module Lexing {
  import opened Options

  // How it tiles its source, and that blanks and comments do not matter. Words are not told apart
  // from keywords here.

  predicate IsDigit(c: char) {
    '0' <= c <= '9'
  }

  predicate IsAlpha(c: char) {
    'a' <= c <= 'z' || 'A' <= c <= 'Z'
  }

  predicate IsWordChar(c: char) {
    IsAlpha(c) || IsDigit(c) || c == '_'
  }

  // ---------- Gaps ----------

  /** Up to the end of the line, which is left for the next piece. */
  function LineCommentLength(s: string): (n: nat)
    ensures n <= |s| && '\n' !in s[..n] && (n < |s| ==> s[n] == '\n')
  {
    if s == "" || s[0] == '\n' then 0
    else
      var n := LineCommentLength(s[1..]);
      assert s[..n + 1] == [s[0]] + s[1..][..n];
      n + 1
  }

  /** The rest of a block comment: through its end, or all there is. */
  function BlockCommentLength(s: string): (n: nat)
    ensures n <= |s|
  {
    if s == "" then 0
    else if s[0] == '*' && |s| > 1 && s[1] == '/' then 2
    else 1 + BlockCommentLength(s[1..])
  }

  /** The blanks and comments that start `s`. */
  function GapLength(s: string): (n: nat)
    ensures n <= |s|
  {
    if s == "" then 0
    else if s[0] == ' ' || s[0] == '\r' || s[0] == '\t' || s[0] == '\n' then 1 + GapLength(s[1..])
    else if |s| > 1 && s[0] == '/' && s[1] == '/' then
      var n := 2 + LineCommentLength(s[2..]);
      n + GapLength(s[n..])
    else if |s| > 1 && s[0] == '/' && s[1] == '*' then
      var n := 2 + BlockCommentLength(s[2..]);
      n + GapLength(s[n..])
    else 0
  }

  // ---------- Tokens ----------

  /** The type of an operator or bracket is named by its text. */
  datatype Kind = Eof | Word | Integer | Float | StringLiteral | CharLiteral | Symbol(text: string) | Error

  datatype Scanned = Scanned(kind: Kind, length: nat)

  function WordLength(s: string): (n: nat)
    ensures n <= |s|
  {
    if s != "" && IsWordChar(s[0]) then 1 + WordLength(s[1..]) else 0
  }

  function DigitsLength(s: string): (n: nat)
    ensures n <= |s|
  {
    if s != "" && IsDigit(s[0]) then 1 + DigitsLength(s[1..]) else 0
  }

  function ScanNumber(s: string): (r: Scanned)
    ensures r.length <= |s|
  {
    var n := DigitsLength(s);
    if n + 1 < |s| && s[n] == '.' && IsDigit(s[n + 1]) then
      Scanned(Float, n + 1 + DigitsLength(s[n + 1..]))
    else Scanned(Integer, n)
  }

  /** The body of a string after its opening quote: an escape takes the next character along. */
  function ScanString(s: string): (r: Scanned)
    ensures r.length <= |s|
  {
    if s == "" then Scanned(Error, 0)
    else if s[0] == '"' then Scanned(StringLiteral, 1)
    else
      var k := if s[0] == '\\' && |s| > 1 then 2 else 1;
      var r := ScanString(s[k..]);
      Scanned(r.kind, k + r.length)
  }

  function ScanChar(s: string): (r: Scanned)
    ensures r.length <= |s|
  {
    if s == "" then Scanned(Error, 0)
    else
      var k := if s[0] == '\\' && |s| > 1 then 2 else 1;
      if |s| > k && s[k] == '\'' then Scanned(CharLiteral, k + 1) else Scanned(Error, k)
  }

  /** The character after the first may join the first to one symbol. */
  predicate Joins(c: char, d: char) {
    match c
    case '-' => d == '>'
    case '!' => d == '='
    case '=' => d == '='
    case '<' => d == '=' || d == '<'
    case '>' => d == '=' || d == '>'
    case '&' => d == '&'
    case '|' => d == '|'
    case '?' => d == '.' || d == '?'
    case '.' => d == '.'
    case ':' => d == ':'
    case _ => false
  }

  predicate SingleSymbol(c: char) {
    c in "(){}[],;+*%~^-!=<>&|.:/"
  }

  function ScanSymbol(s: string): (r: Scanned)
    requires s != ""
    ensures 1 <= r.length <= |s|
  {
    if |s| > 1 && Joins(s[0], s[1]) then
      if s[0] == '.' && |s| > 2 && s[2] == '.' then Scanned(Symbol(s[..3]), 3) else Scanned(Symbol(s[..2]), 2)
    else if SingleSymbol(s[0]) then Scanned(Symbol(s[..1]), 1)
    else Scanned(Error, 1)
  }

  /** The token at the start of a text that is not blank there. */
  function Scan(s: string): (r: Scanned)
    requires s != ""
    ensures 1 <= r.length <= |s|
  {
    var rest := s[1..];
    if IsAlpha(s[0]) || s[0] == '_' then Scanned(Word, 1 + WordLength(rest))
    else if IsDigit(s[0]) then
      var r := ScanNumber(rest);
      Scanned(r.kind, 1 + r.length)
    else if s[0] == '"' then
      var r := ScanString(rest);
      Scanned(r.kind, 1 + r.length)
    else if s[0] == '\'' then
      var r := ScanChar(rest);
      Scanned(r.kind, 1 + r.length)
    else ScanSymbol(s)
  }

  // ---------- Whole sources ----------

  datatype Lexeme = Lexeme(gap: string, text: string, kind: Kind)

  function Lex(s: string): (r: seq<Lexeme>)
    decreases |s|
  {
    var g := GapLength(s);
    var rest := s[g..];
    if rest == "" then [Lexeme(s[..g], "", Eof)]
    else
      var t := Scan(rest);
      [Lexeme(s[..g], rest[..t.length], t.kind)] + Lex(rest[t.length..])
  }

  function TextOf(lexemes: seq<Lexeme>): string {
    if lexemes == [] then "" else lexemes[0].gap + lexemes[0].text + TextOf(lexemes[1..])
  }

  /** The gaps and the tokens, in order, are exactly the source; every token but the last has
      some text, the last is the end, and there are at most one more tokens than characters. */
  lemma {:induction false} LexTiles(s: string)
    ensures TextOf(Lex(s)) == s
    ensures var r := Lex(s);
      && 1 <= |r| <= |s| + 1
      && r[|r| - 1].kind == Eof && r[|r| - 1].text == ""
      && forall i :: 0 <= i < |r| - 1 ==> r[i].text != "" && r[i].kind != Eof
    decreases |s|
  {
    hide GapLength, Scan;
    var g := GapLength(s);
    var rest := s[g..];
    assert s == s[..g] + rest;
    if rest == "" {
      assert TextOf([Lexeme(s[..g], "", Eof)]) == s by { OneText(Lexeme(s[..g], "", Eof)); }
    } else {
      var t := Scan(rest);
      var tail := rest[t.length..];
      LexTiles(tail);
      ScanNotEof(rest);
      var first := Lexeme(s[..g], rest[..t.length], t.kind);
      assert Lex(s) == [first] + Lex(tail);
      TextCons(first, Lex(tail));
      assert rest == rest[..t.length] + tail;
      assert s == s[..g] + rest[..t.length] + tail;
    }
  }

  lemma {:induction false} OneText(x: Lexeme)
    ensures TextOf([x]) == x.gap + x.text
  {
    assert [x][1..] == [];
  }

  lemma {:induction false} TextCons(x: Lexeme, xs: seq<Lexeme>)
    ensures TextOf([x] + xs) == x.gap + x.text + TextOf(xs)
  {
    assert ([x] + xs)[1..] == xs;
  }

  lemma {:induction false} ScanNotEof(s: string)
    requires s != ""
    ensures Scan(s).kind != Eof
  {
    StringNotEof(s[1..]);
  }

  lemma {:induction false} StringNotEof(s: string)
    ensures ScanString(s).kind == StringLiteral || ScanString(s).kind == Error
  {
    if s != "" && s[0] != '"' {
      StringNotEof(s[if s[0] == '\\' && |s| > 1 then 2 else 1..]);
    }
  }

  // ---------- What gaps are made of ----------

  datatype Piece = Blank(c: char) | LineComment(body: string) | BlockComment(body: string)

  function PieceText(p: Piece): string {
    match p
    case Blank(c) => [c]
    case LineComment(body) => "//" + body
    case BlockComment(body) => "/*" + body
  }

  function PiecesText(ps: seq<Piece>): string {
    if ps == [] then "" else PieceText(ps[0]) + PiecesText(ps[1..])
  }

  /** The first end of a block comment in its body, if it has one, is at the very end. */
  predicate EndsOnce(body: string) {
    forall i :: 0 <= i < |body| - 2 ==> !(body[i] == '*' && body[i + 1] == '/')
  }

  predicate Closed(body: string) {
    |body| >= 2 && body[|body| - 2] == '*' && body[|body| - 1] == '/'
  }

  /** A piece of a gap with what follows it: a comment stops at the end of its line, and only the
      end of the source leaves a block comment open. */
  predicate GoodPiece(p: Piece, after: string) {
    match p
    case Blank(c) => c == ' ' || c == '\r' || c == '\t' || c == '\n'
    case LineComment(body) => '\n' !in body && (after == "" || after[0] == '\n')
    case BlockComment(body) => EndsOnce(body) && (Closed(body) || after == "")
  }

  /** Pieces of a gap that `tail` follows. */
  predicate GoodPieces(ps: seq<Piece>, tail: string) {
    ps == [] ||
    (GoodPieces(ps[1..], tail) && GoodPiece(ps[0], PiecesText(ps[1..]) + tail))
  }

  lemma {:induction false} BlockCommentEnds(s: string)
    ensures var n := BlockCommentLength(s);
      EndsOnce(s[..n]) && (Closed(s[..n]) || n == |s|)
  {
    if s != "" && !(s[0] == '*' && |s| > 1 && s[1] == '/') {
      var rest := s[1..];
      var n := BlockCommentLength(rest);
      BlockCommentEnds(rest);
      var body := s[..n + 1];
      assert body == [s[0]] + rest[..n];
      forall i | 0 <= i < |body| - 2 ensures !(body[i] == '*' && body[i + 1] == '/') {
        if i > 0 { assert body[i] == rest[..n][i - 1] && body[i + 1] == rest[..n][i]; }
      }
    }
  }

  lemma {:induction false} MorePieces(p: Piece, ps: seq<Piece>, tail: string)
    requires GoodPieces(ps, tail) && GoodPiece(p, PiecesText(ps) + tail)
    ensures PiecesText([p] + ps) == PieceText(p) + PiecesText(ps) && GoodPieces([p] + ps, tail)
  {
    hide EndsOnce, Closed, PieceText;
    assert ([p] + ps)[1..] == ps;
  }

  /** A gap is nothing but blanks and comments. */
  lemma {:induction false} GapIsBlank(s: string) returns (ps: seq<Piece>)
    ensures s[..GapLength(s)] == PiecesText(ps) && GoodPieces(ps, s[GapLength(s)..])
    decreases |s|
  {
    var g := GapLength(s);
    if g == 0 {
      ps := [];
    } else {
      hide GapLength, GoodPiece, PiecesText, GoodPieces, PieceText;
      var first, n := FirstPiece(s);
      var rest := s[n..];
      var more := GapIsBlank(rest);
      Slices(s, n, g);
      assert rest == PiecesText(more) + s[g..] by { Slices(rest, 0, g - n); }
      MorePieces(first, more, s[g..]);
      ps := [first] + more;
    }
  }

  lemma {:induction false} Slices(s: string, n: nat, g: nat)
    requires n <= g <= |s|
    ensures s[..g] == s[..n] + s[n..][..g - n] && s[n..][g - n..] == s[g..]
    ensures s[n..] == s[n..][..g - n] + s[g..]
  {
  }

  lemma {:induction false} FirstPiece(s: string) returns (p: Piece, n: nat)
    requires GapLength(s) > 0
    ensures 0 < n <= |s| && s[..n] == PieceText(p) && GapLength(s) == n + GapLength(s[n..])
    ensures GoodPiece(p, s[n..])
  {
    if s[0] == ' ' || s[0] == '\r' || s[0] == '\t' || s[0] == '\n' {
      p, n := Blank(s[0]), 1;
      assert s[..1] == [s[0]];
    } else if s[1] == '/' {
      var k := LineCommentLength(s[2..]);
      p, n := LineComment(s[2..][..k]), 2 + k;
      assert s[..n] == "//" + s[2..][..k];
    } else {
      var k := BlockCommentLength(s[2..]);
      BlockCommentEnds(s[2..]);
      p, n := BlockComment(s[2..][..k]), 2 + k;
      assert s[..n] == "/*" + s[2..][..k];
    }
  }

  // ---------- Blanks and comments do not matter ----------

  lemma {:induction false} TextTail(s: string, n: nat, tail: string)
    requires n < |s|
    ensures (s[..n + 1] + tail)[0] == s[0] && (s[..n + 1] + tail)[1..] == s[1..][..n] + tail
  {
  }

  /** No token is followed directly by a space of its own. */
  lemma {:induction false} WordStops(s: string, tail: string)
    ensures WordLength(s[..WordLength(s)] + (" " + tail)) == WordLength(s)
  {
    if s != "" && IsWordChar(s[0]) {
      WordStops(s[1..], tail);
      TextTail(s, WordLength(s[1..]), " " + tail);
    } else {
      assert "" + (" " + tail) == " " + tail;
    }
  }

  lemma {:induction false} DigitsStop(s: string, tail: string)
    requires tail != "" ==> !IsDigit(tail[0])
    ensures DigitsLength(s[..DigitsLength(s)] + tail) == DigitsLength(s)
  {
    if s != "" && IsDigit(s[0]) {
      DigitsStop(s[1..], tail);
      TextTail(s, DigitsLength(s[1..]), tail);
    } else {
      assert "" + tail == tail;
    }
  }

  lemma {:induction false} NumberStops(s: string, tail: string)
    ensures ScanNumber(s[..ScanNumber(s).length] + " " + tail) == ScanNumber(s)
  {
    var n := DigitsLength(s);
    var r := ScanNumber(s);
    if r.kind == Integer {
      DigitsStop(s, " " + tail);
      assert s[..n] + " " + tail == s[..n] + (" " + tail);
    } else {
      FloatStops(s, tail);
    }
  }

  lemma {:induction false} FloatStops(s: string, tail: string)
    requires ScanNumber(s).kind == Float
    ensures ScanNumber(s[..ScanNumber(s).length] + " " + tail) == ScanNumber(s)
  {
    hide DigitsLength;
    var n := DigitsLength(s);
    var fraction := s[n + 1..];
    var m := DigitsLength(fraction);
    var after := fraction[..m] + (" " + tail);
    DigitsStop(fraction, " " + tail);
    DigitsStop(s, "." + after);
    FractionStarts(fraction);
    var text := s[..n + 1 + m] + " " + tail;
    assert s[..n + 1 + m] == s[..n] + ("." + fraction[..m]);
    assert text == s[..n] + ("." + after);
    assert text[n + 1..] == after;
    assert text[n + 1] == fraction[0];
  }

  lemma {:induction false} FractionStarts(s: string)
    requires s != "" && IsDigit(s[0])
    ensures DigitsLength(s) > 0
  {
  }

  lemma {:induction false} StringStops(s: string, tail: string)
    requires ScanString(s).kind == StringLiteral
    ensures ScanString(s[..ScanString(s).length] + tail) == ScanString(s)
  {
    var r := ScanString(s);
    var text := s[..r.length] + tail;
    if s[0] != '"' {
      var k := if s[0] == '\\' && |s| > 1 then 2 else 1;
      StringStops(s[k..], tail);
      LiteralNotEmpty(s[k..]);
      assert text[k..] == s[k..][..r.length - k] + tail;
    }
  }

  lemma {:induction false} LiteralNotEmpty(s: string)
    requires ScanString(s).kind == StringLiteral
    ensures ScanString(s).length > 0
  {
  }

  /** A token that is no error is scanned the same from its own text and a space. */
  lemma {:induction false} ScanStops(s: string, tail: string)
    requires s != "" && Scan(s).kind != Error
    ensures Scan(s[..Scan(s).length] + " " + tail) == Scan(s)
  {
    var r := Scan(s);
    var rest := s[1..];
    var text := s[..r.length] + " " + tail;
    assert text[1..] == rest[..r.length - 1] + " " + tail;
    if IsAlpha(s[0]) || s[0] == '_' {
      WordStops(rest, tail);
      assert rest[..r.length - 1] + " " + tail == rest[..r.length - 1] + (" " + tail);
    } else if IsDigit(s[0]) {
      NumberStops(rest, tail);
    } else if s[0] == '"' {
      StringNotEof(rest);
      StringStops(rest, " " + tail);
      assert rest[..r.length - 1] + " " + tail == rest[..r.length - 1] + (" " + tail);
    } else if s[0] == '\'' {
      assert |rest| > 0;
    } else {
      SymbolStops(s, tail);
    }
  }

  lemma {:induction false} SymbolStops(s: string, tail: string)
    requires s != "" && ScanSymbol(s).kind != Error
    ensures ScanSymbol(s[..ScanSymbol(s).length] + " " + tail) == ScanSymbol(s)
  {
    hide SingleSymbol;
    var n := ScanSymbol(s).length;
    var text := s[..n] + " " + tail;
    assert text[0] == s[0] && text[n] == ' ';
    if n == 1 {
      assert !Joins(s[0], ' ');
      assert text[..1] == s[..1];
    } else if n == 2 {
      assert text[1] == s[1] && text[..2] == s[..2];
    } else {
      assert text[1] == s[1] && text[2] == s[2] && text[..3] == s[..3];
    }
  }

  /** The tokens one after the other, each followed by one space. */
  function Spaced(lexemes: seq<Lexeme>): string {
    if lexemes == [] || lexemes[0].kind == Eof then ""
    else lexemes[0].text + " " + Spaced(lexemes[1..])
  }

  predicate NoErrors(lexemes: seq<Lexeme>) {
    forall i :: 0 <= i < |lexemes| ==> lexemes[i].kind != Error
  }

  predicate SameTokens(a: seq<Lexeme>, b: seq<Lexeme>) {
    |a| == |b| && forall i :: 0 <= i < |a| ==> a[i].text == b[i].text && a[i].kind == b[i].kind
  }

  /** A token does not begin like a gap. */
  lemma {:induction false} TokenStartsNoGap(s: string, tail: string)
    requires s != "" && GapLength(s) == 0
    ensures GapLength(s[..Scan(s).length] + " " + tail) == 0
  {
    var n := Scan(s).length;
    var text := s[..n] + " " + tail;
    assert text[0] == s[0];
    if n > 1 { assert text[1] == s[1]; }
  }

  lemma {:induction false} SkipGap(s: string)
    ensures GapLength(s[GapLength(s)..]) == 0
    decreases |s|
  {
    var g := GapLength(s);
    if g > 0 {
      var p, n := FirstPiece(s);
      SkipGap(s[n..]);
      assert s[n..][GapLength(s[n..])..] == s[g..];
    }
  }

  lemma {:induction false} LeadingSpace(s: string)
    ensures SameTokens(Lex(" " + s), Lex(s))
  {
    hide Lex, Scan, GapLength, SameTokens;
    SpaceGap(s);
    LexUnfolds(s);
    LexUnfolds(" " + s);
    var g := GapLength(s);
    var rest := s[g..];
    SameSelf(if rest == "" then [] else Lex(rest[Scan(rest).length..]));
    if rest == "" {
      SameCons([], [], Lexeme((" " + s)[..g + 1], "", Eof), Lexeme(s[..g], "", Eof));
      assert [Lexeme(s[..g], "", Eof)] + [] == [Lexeme(s[..g], "", Eof)];
      assert [Lexeme((" " + s)[..g + 1], "", Eof)] + [] == [Lexeme((" " + s)[..g + 1], "", Eof)];
    } else {
      var t := Scan(rest);
      var more := Lex(rest[t.length..]);
      SameCons(more, more, Lexeme((" " + s)[..g + 1], rest[..t.length], t.kind),
               Lexeme(s[..g], rest[..t.length], t.kind));
    }
  }

  lemma {:induction false} SameSelf(a: seq<Lexeme>)
    ensures SameTokens(a, a)
  {
  }

  lemma {:induction false} LexUnfolds(s: string)
    ensures var g := GapLength(s);
      var rest := s[g..];
      Lex(s) == if rest == "" then [Lexeme(s[..g], "", Eof)]
                else [Lexeme(s[..g], rest[..Scan(rest).length], Scan(rest).kind)] + Lex(rest[Scan(rest).length..])
  {
    hide GapLength, Scan;
  }

  lemma {:induction false} SpaceGap(s: string)
    ensures GapLength(" " + s) == 1 + GapLength(s)
    ensures (" " + s)[GapLength(" " + s)..] == s[GapLength(s)..]
  {
    assert (" " + s)[1..] == s;
  }

  lemma {:induction false} SameCons(a: seq<Lexeme>, b: seq<Lexeme>, x: Lexeme, y: Lexeme)
    requires SameTokens(a, b) && x.text == y.text && x.kind == y.kind
    ensures SameTokens([x] + a, [y] + b)
  {
  }

  lemma {:induction false} SameTrans(a: seq<Lexeme>, b: seq<Lexeme>, c: seq<Lexeme>)
    requires SameTokens(a, b) && SameTokens(b, c)
    ensures SameTokens(a, c)
  {
  }

  /** Replacing every gap by a single space, and dropping those at the ends, leaves the tokens
      of an error-free source as they are. */
  lemma {:induction false} GapsDoNotMatter(s: string)
    requires NoErrors(Lex(s))
    ensures SameTokens(Lex(Spaced(Lex(s))), Lex(s))
    decreases |s|
  {
    hide GapLength, Scan, NoErrors, SameTokens;
    var g := GapLength(s);
    var rest := s[g..];
    if rest == "" {
      EmptySource(s);
    } else {
      var t := Scan(rest);
      var text, after := rest[..t.length], rest[t.length..];
      var first, more := Lexeme(s[..g], text, t.kind), Lex(after);
      ScanNotEof(rest);
      FirstLexeme(s, first, more);
      GapsDoNotMatter(after);
      var tail := Spaced(more);
      SkipGap(s);
      OneMore(rest, tail);
      LeadingSpace(tail);
      SameTrans(Lex(" " + tail), Lex(tail), more);
      SameCons(Lex(" " + tail), more, Lexeme("", text, t.kind), first);
    }
  }

  lemma {:induction false} EmptySource(s: string)
    requires s[GapLength(s)..] == ""
    ensures SameTokens(Lex(Spaced(Lex(s))), Lex(s))
  {
    hide GapLength;
    assert Spaced(Lex(s)) == "";
    EmptyLex();
  }

  lemma {:induction false} FirstLexeme(s: string, first: Lexeme, more: seq<Lexeme>)
    requires Lex(s) == [first] + more && NoErrors(Lex(s)) && first.kind != Eof
    ensures first.kind != Error && NoErrors(more)
    ensures Spaced(Lex(s)) == first.text + " " + Spaced(more)
  {
    hide Lex;
    assert Lex(s)[0] == first && Lex(s)[1..] == more;
    assert forall i :: 0 <= i < |more| ==> more[i] == Lex(s)[i + 1];
  }

  lemma {:induction false} EmptyLex()
    ensures Lex("") == [Lexeme("", "", Eof)]
  {
  }

  /** The first token of its own text, a space and `tail`. */
  lemma {:induction false} OneMore(s: string, tail: string)
    requires s != "" && GapLength(s) == 0 && Scan(s).kind != Error
    ensures var t := Scan(s);
      Lex(s[..t.length] + " " + tail) == [Lexeme("", s[..t.length], t.kind)] + Lex(" " + tail)
  {
    hide GapLength, Scan;
    var t := Scan(s);
    var text := s[..t.length] + " " + tail;
    ScanStops(s, tail);
    TokenStartsNoGap(s, tail);
    assert text[0..] == text && text[..0] == "";
    assert text[..t.length] == s[..t.length];
    assert text[t.length..] == " " + tail;
  }
}
