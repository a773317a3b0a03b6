/** What the tokens and gaps of a source look like (src/core/lexer.c), said without scanning. */
module LexTokens {
  import opened Lexing

  predicate Letter(c: char) {
    'a' <= c <= 'z' || 'A' <= c <= 'Z' || c == '_'
  }

  predicate Digit(c: char) {
    '0' <= c <= '9'
  }

  // ---------- Shapes of tokens ----------

  // Each says that the first `n` characters of `s` are such a token and that it ends there.

  predicate DigitRun(s: string, from: nat, n: nat) {
    from < n <= |s| && (forall i :: from <= i < n ==> Digit(s[i])) && (n < |s| ==> !Digit(s[n]))
  }

  predicate WordAt(s: string, n: nat) {
    && 0 < n <= |s| && Letter(s[0]) && (forall i :: 0 < i < n ==> Letter(s[i]) || Digit(s[i]))
    && (n < |s| ==> !Letter(s[n]) && !Digit(s[n]))
  }

  /** A point belongs to a number only when a digit follows it. */
  predicate PointAt(s: string, n: nat) {
    n + 1 < |s| && s[n] == '.' && Digit(s[n + 1])
  }

  predicate IntegerAt(s: string, n: nat) {
    DigitRun(s, 0, n) && !PointAt(s, n)
  }

  predicate FloatAt(s: string, n: nat) {
    exists k: nat :: k < n && DigitRun(s, 0, k) && PointAt(s, k) && DigitRun(s, k + 1, n)
  }

  /** No quote in it but escaped ones; a backslash takes the next character along. */
  predicate StringBody(s: string) {
    if s == "" then true
    else if s[0] == '\\' then |s| > 1 && StringBody(s[2..])
    else s[0] != '"' && StringBody(s[1..])
  }

  predicate StringAt(s: string, n: nat) {
    2 <= n <= |s| && s[0] == '"' && StringBody(s[1..n - 1]) && s[n - 1] == '"'
  }

  predicate CharAt(s: string, n: nat) {
    && n <= |s|
    && (|| (n == 3 && s[0] == '\'' && s[1] != '\\' && s[2] == '\'')
        || (n == 4 && s[0] == '\'' && s[1] == '\\' && s[3] == '\''))
  }

  predicate Pair(s: string) {
    s in ["->", "!=", "==", "<=", "<<", ">=", ">>", "&&", "||", "?.", "??", "..", "::"]
  }

  predicate Single(c: char) {
    c in ['(', ')', '{', '}', '[', ']', ',', ';', '+', '*', '%', '~', '^', '-', '!', '=', '<', '>',
          '&', '|', '.', ':', '/']
  }

  /** The longest symbol that starts the text. */
  predicate SymbolAt(s: string, n: nat) {
    if |s| >= 3 && s[..3] == "..." then n == 3
    else if |s| >= 2 && Pair(s[..2]) then n == 2
    else n == 1 && |s| >= 1 && Single(s[0])
  }

  // What cannot be a token is an error of a certain length: all there is for a string that does not
  // end, up to the character that should have been a quote, or a single character.

  predicate BadStringAt(s: string, n: nat) {
    s != "" && s[0] == '"' && n == |s| && forall m | 2 <= m <= |s| :: !StringAt(s, m)
  }

  predicate BadCharAt(s: string, n: nat) {
    && s != "" && s[0] == '\'' && !CharAt(s, 3) && !CharAt(s, 4)
    && n == if |s| == 1 then 1 else if s[1] == '\\' && |s| > 2 then 3 else 2
  }

  predicate StrayAt(s: string, n: nat) {
    && s != "" && n == 1 && !Letter(s[0]) && !Digit(s[0]) && s[0] != '"' && s[0] != '\'' && !SymbolAt(s, 1)
    && !SymbolAt(s, 2) && !SymbolAt(s, 3)
  }

  predicate TokenAt(kind: Kind, s: string, n: nat) {
    match kind
    case Word => WordAt(s, n)
    case Integer => IntegerAt(s, n)
    case Float => FloatAt(s, n)
    case StringLiteral => StringAt(s, n)
    case CharLiteral => CharAt(s, n)
    case Symbol(text) => SymbolAt(s, n) && text == s[..n]
    case Error => BadStringAt(s, n) || BadCharAt(s, n) || StrayAt(s, n)
    case Eof => false
  }

  // ---------- Scanning finds them ----------

  lemma {:induction false} WordRun(s: string)
    ensures var n := WordLength(s);
      && (forall i :: 0 <= i < n ==> Letter(s[i]) || Digit(s[i]))
      && (n < |s| ==> !Letter(s[n]) && !Digit(s[n]))
  {
    if s != "" && IsWordChar(s[0]) {
      WordRun(s[1..]);
      var n := WordLength(s[1..]);
      forall i | 0 <= i < n + 1 ensures Letter(s[i]) || Digit(s[i]) {
        if i > 0 { assert s[i] == s[1..][i - 1]; }
      }
    }
  }

  lemma {:induction false} DigitsRun(s: string)
    ensures var n := DigitsLength(s);
      && (forall i :: 0 <= i < n ==> Digit(s[i]))
      && (n < |s| ==> !Digit(s[n]))
  {
    if s != "" && IsDigit(s[0]) {
      DigitsRun(s[1..]);
      var n := DigitsLength(s[1..]);
      forall i | 0 <= i < n + 1 ensures Digit(s[i]) {
        if i > 0 { assert s[i] == s[1..][i - 1]; }
      }
    }
  }

  lemma {:induction false} WordScanned(s: string, n: nat)
    requires s != "" && Letter(s[0])
    ensures Scan(s).kind == Word && (Scan(s).length == n <==> WordAt(s, n))
  {
    hide WordLength;
    var rest := s[1..];
    WordRun(rest);
    var m := 1 + WordLength(rest);
    forall i | 0 < i < m ensures Letter(s[i]) || Digit(s[i]) { assert s[i] == rest[i - 1]; }
    assert m < |s| ==> s[m] == rest[m - 1];
  }

  lemma {:induction false} DigitRunIs(s: string, from: nat, n: nat, k: nat)
    requires from < |s| && Digit(s[from]) && k == from + 1 + DigitsLength(s[from + 1..])
    ensures DigitRun(s, from, n) <==> n == k
  {
    hide DigitsLength;
    var rest := s[from + 1..];
    DigitsRun(rest);
    forall i | from < i < k ensures Digit(s[i]) { assert s[i] == rest[i - from - 1]; }
    assert k < |s| ==> s[k] == rest[k - from - 1];
  }

  /** Where the digits at the start end, and those after a point, and what the scanner makes of
      them. */
  lemma {:induction false} NumberParts(s: string) returns (k: nat, after: nat, m: nat)
    requires s != "" && Digit(s[0])
    ensures after == k + 1 && forall n: nat :: DigitRun(s, 0, n) <==> n == k
    ensures PointAt(s, k) ==> forall n: nat :: DigitRun(s, after, n) <==> n == m
    ensures Scan(s) == if PointAt(s, k) then Scanned(Float, m) else Scanned(Integer, k)
  {
    var rest := s[1..];
    k, m := 1 + DigitsLength(rest), 0;
    after := k + 1;
    forall n: nat ensures DigitRun(s, 0, n) <==> n == k { DigitRunIs(s, 0, n, k); }
    assert Scan(s) == Scanned(ScanNumber(rest).kind, 1 + ScanNumber(rest).length);
    if PointAt(s, k) {
      m := after + 1 + DigitsLength(s[after + 1..]);
      assert rest[k..] == s[after..] && s[after..][1..] == s[after + 1..];
      forall n: nat ensures DigitRun(s, after, n) <==> n == m { DigitRunIs(s, after, n, m); }
    }
  }

  lemma {:induction false} NumberScanned(s: string, n: nat)
    requires s != "" && Digit(s[0])
    ensures IntegerAt(s, n) <==> Scan(s) == Scanned(Integer, n)
    ensures FloatAt(s, n) <==> Scan(s) == Scanned(Float, n)
    ensures Scan(s).kind == Integer || Scan(s).kind == Float
  {
    hide Scan, DigitRun, PointAt;
    var k, after, m := NumberParts(s);
    if PointAt(s, k) && n == m { RunIsLonger(s, after, n); }
  }

  lemma {:induction false} RunIsLonger(s: string, from: nat, n: nat)
    requires DigitRun(s, from, n)
    ensures from < n
  {
  }

  lemma {:induction false} StringScanned(s: string, n: nat)
    ensures ScanString(s) == Scanned(StringLiteral, n)
      <==> 1 <= n <= |s| && StringBody(s[..n - 1]) && s[n - 1] == '"'
  {
    if s != "" && s[0] != '"' && n >= 1 {
      var k := if s[0] == '\\' && |s| > 1 then 2 else 1;
      var rest := s[k..];
      if n > k {
        StringScanned(rest, n - k);
        if n <= |s| {
          assert s[..n - 1][k..] == rest[..n - 1 - k];
          assert s[n - 1] == rest[n - k - 1];
        }
      } else {
        StringPositive(rest);
      }
    }
  }

  lemma {:induction false} StringPositive(s: string)
    ensures ScanString(s).kind == StringLiteral ==> ScanString(s).length > 0
  {
  }

  lemma {:induction false} SymbolScanned(s: string, n: nat, kind: Kind)
    requires s != ""
    ensures ScanSymbol(s) == Scanned(kind, n) && kind != Error <==> SymbolAt(s, n) && kind == Symbol(s[..n])
  {
    if |s| > 1 {
      JoinsIff(s[0], s[1]);
      assert s[..2] == [s[0], s[1]];
      if |s| > 2 { assert s[..3] == [s[0], s[1], s[2]]; }
    }
    SingleIff(s[0]);
  }

  lemma {:induction false} JoinsIff(c: char, d: char)
    ensures Joins(c, d) <==> Pair([c, d])
  {
  }

  lemma {:induction false} SingleIff(c: char)
    ensures SingleSymbol(c) <==> Single(c)
  {
  }

  lemma {:induction false} CharScanned(s: string, n: nat)
    requires s != "" && s[0] == '\''
    ensures Scan(s) == Scanned(CharLiteral, n) <==> CharAt(s, n)
    ensures Scan(s) == Scanned(Error, n) <==> BadCharAt(s, n)
    ensures Scan(s).kind == CharLiteral || Scan(s).kind == Error
  {
    var rest := s[1..];
    assert forall i :: 0 <= i < |rest| ==> rest[i] == s[i + 1];
  }

  lemma {:induction false} StringTokenScanned(s: string, n: nat)
    requires s != "" && s[0] == '"'
    ensures Scan(s) == Scanned(StringLiteral, n) <==> StringAt(s, n)
    ensures Scan(s) == Scanned(Error, n) <==> BadStringAt(s, n)
    ensures Scan(s).kind == StringLiteral || Scan(s).kind == Error
  {
    hide ScanString, StringBody;
    var rest := s[1..];
    var r := ScanString(rest);
    assert Scan(s) == Scanned(r.kind, 1 + r.length);
    StringNotEof(rest);
    StringEnds(rest);
    forall m: nat | 2 <= m <= |s| ensures StringAt(s, m) <==> r == Scanned(StringLiteral, m - 1) {
      StringScanned(rest, m - 1);
      assert s[1..m - 1] == rest[..m - 2];
    }
    if r.kind == StringLiteral {
      StringPositive(rest);
      assert StringAt(s, 1 + r.length);
    }
  }

  /** An unfinished string takes all there is. */
  lemma {:induction false} StringEnds(s: string)
    ensures ScanString(s).kind == Error ==> ScanString(s).length == |s|
  {
    if s != "" && s[0] != '"' { StringEnds(s[if s[0] == '\\' && |s| > 1 then 2 else 1..]); }
  }

  /** A token is told by its first character. */
  lemma {:induction false} StartsAlone(s: string, n: nat)
    requires s != ""
    ensures WordAt(s, n) ==> Letter(s[0])
    ensures IntegerAt(s, n) || FloatAt(s, n) ==> Digit(s[0])
    ensures SymbolAt(s, n) ==> !Letter(s[0]) && !Digit(s[0]) && s[0] != '"' && s[0] != '\''
  {
    hide PointAt, Pair, Single;
    if SymbolAt(s, n) {
      if |s| >= 2 {
        assert s[..2] == [s[0], s[1]];
        PairStarts(s[0], s[1]);
      }
      if |s| >= 3 { assert s[..3][0] == s[0] && "..."[0] == '.'; }
      SingleStarts(s[0]);
    }
  }

  lemma {:induction false} PairStarts(c: char, d: char)
    ensures Pair([c, d]) ==> !Letter(c) && !Digit(c) && c != '"' && c != '\''
  {
    JoinsIff(c, d);
  }

  lemma {:induction false} SingleStarts(c: char)
    ensures Single(c) ==> !Letter(c) && !Digit(c) && c != '"' && c != '\''
  {
  }

  lemma {:induction false} SymbolOrStray(s: string, kind: Kind, n: nat)
    requires s != "" && !Letter(s[0]) && !Digit(s[0]) && s[0] != '"' && s[0] != '\''
    ensures Scan(s) == Scanned(kind, n)
      <==> (StrayAt(s, n) && kind == Error) || (SymbolAt(s, n) && kind == Symbol(s[..n]))
  {
    hide Pair, Single, Joins, SingleSymbol;
    var r := ScanSymbol(s);
    assert Scan(s) == r;
    SymbolScanned(s, n, kind);
    SymbolScanned(s, r.length, r.kind);
    SymbolScanned(s, 1, r.kind);
    SymbolScanned(s, 2, r.kind);
    SymbolScanned(s, 3, r.kind);
    SymbolScanned(s, 1, Symbol(s[..1]));
    if |s| > 1 { SymbolScanned(s, 2, Symbol(s[..2])); }
    if |s| > 2 { SymbolScanned(s, 3, Symbol(s[..3])); }
  }

  /** A text that is not empty starts with exactly one token, and the scanner finds it. */
  lemma {:induction false} ScanIff(s: string, kind: Kind, n: nat)
    requires s != ""
    ensures Scan(s) == Scanned(kind, n) <==> TokenAt(kind, s, n)
  {
    var c := s[0];
    StartsAlone(s, n);
    hide Scan, WordAt, IntegerAt, FloatAt, SymbolAt;
    if Letter(c) {
      WordScanned(s, n);
    } else if Digit(c) {
      NumberScanned(s, n);
    } else if c == '"' {
      StringTokenScanned(s, n);
    } else if c == '\'' {
      CharScanned(s, n);
    } else {
      SymbolOrStray(s, kind, n);
    }
  }

  // ---------- Gaps and whole sources ----------

  predicate StartsGap(s: string) {
    || (s != "" && s[0] in [' ', '\r', '\t', '\n'])
    || (|s| >= 2 && s[0] == '/' && (s[1] == '/' || s[1] == '*'))
  }

  /** The first `n` characters are blanks and comments and nothing of that kind follows. */
  ghost predicate GapAt(s: string, n: nat) {
    && n <= |s| && !StartsGap(s[n..])
    && exists ps :: s[..n] == PiecesText(ps) && GoodPieces(ps, s[n..])
  }

  lemma {:induction false} GapStops(s: string)
    ensures !StartsGap(s[GapLength(s)..])
    decreases |s|
  {
    if GapLength(s) > 0 {
      var p, n := FirstPiece(s);
      hide GapLength, StartsGap, GoodPiece;
      GapStops(s[n..]);
      Slices(s, n, GapLength(s));
    }
  }

  lemma {:induction false} LineEnd(s: string, n: nat)
    requires n <= |s| && (forall i :: 0 <= i < n ==> s[i] != '\n') && (n == |s| || s[n] == '\n')
    ensures LineCommentLength(s) == n
  {
    if n > 0 { LineEnd(s[1..], n - 1); }
  }

  /** A line comment goes up to the end of its line, a block comment to its first end. */
  lemma {:induction false} CommentLengths(body: string, after: string)
    ensures GoodPiece(LineComment(body), after) ==> LineCommentLength(body + after) == |body|
    ensures GoodPiece(BlockComment(body), after) ==> BlockCommentLength(body + after) == |body|
  {
    var s := body + after;
    if GoodPiece(LineComment(body), after) {
      forall i | 0 <= i < |body| ensures s[i] != '\n' { assert s[i] == body[i]; }
      LineEnd(s, |body|);
    }
    if GoodPiece(BlockComment(body), after) { BlockCommentIs(body, after); }
  }

  lemma {:induction false} BlockCommentIs(body: string, after: string)
    requires EndsOnce(body) && (Closed(body) || after == "")
    ensures BlockCommentLength(body + after) == |body|
  {
    var s := body + after;
    if body == "" {
      assert s == after;
    } else if |body| > 2 || (|body| == 2 && !Closed(body)) || |body| == 1 {
      var less := body[1..];
      assert s[1..] == less + after;
      if |body| > 2 || after == "" {
        assert s[0] == body[0] && (|body| > 1 ==> s[1] == body[1]);
        forall i | 0 <= i < |less| - 2 ensures !(less[i] == '*' && less[i + 1] == '/') {
          assert less[i] == body[i + 1] && less[i + 1] == body[i + 1 + 1];
        }
        BlockCommentIs(less, after);
      }
    }
  }

  lemma {:induction false} PiecesLength(ps: seq<Piece>, tail: string)
    requires GoodPieces(ps, tail) && !StartsGap(tail)
    ensures GapLength(PiecesText(ps) + tail) == |PiecesText(ps)|
  {
    if ps == [] {
      assert PiecesText(ps) + tail == tail;
    } else {
      var after := PiecesText(ps[1..]) + tail;
      PiecesLength(ps[1..], tail);
      assert PiecesText(ps) + tail == PieceText(ps[0]) + after;
      PieceLength(ps[0], after);
    }
  }

  lemma {:induction false} PieceLength(p: Piece, after: string)
    requires GoodPiece(p, after)
    ensures GapLength(PieceText(p) + after) == |PieceText(p)| + GapLength(after)
  {
    if p.Blank? {
      BlankIs(p.c, after);
      assert ([p.c] + after)[1..] == after;
      hide GapLength;
      GapUnfolds([p.c] + after);
    } else {
      CommentLength(p, after);
    }
  }

  lemma {:induction false} CommentLength(p: Piece, after: string)
    requires !p.Blank? && GoodPiece(p, after)
    ensures GapLength(PieceText(p) + after) == 2 + |p.body| + GapLength(after)
  {
    hide GoodPiece, GapLength, LineCommentLength, BlockCommentLength;
    var s, front := PieceText(p) + after, if p.LineComment? then "//" else "/*";
    assert s == front + (p.body + after);
    assert s[2..] == p.body + after && s[2 + |p.body|..] == after;
    CommentLengths(p.body, after);
    GapUnfolds(s);
  }

  lemma {:induction false} GapUnfolds(s: string)
    requires s != ""
    ensures s[0] == ' ' || s[0] == '\r' || s[0] == '\t' || s[0] == '\n' ==> GapLength(s) == 1 + GapLength(s[1..])
    ensures |s| > 1 && s[0] == '/' && s[1] == '/' ==>
      var n := 2 + LineCommentLength(s[2..]); GapLength(s) == n + GapLength(s[n..])
    ensures |s| > 1 && s[0] == '/' && s[1] == '*' ==>
      var n := 2 + BlockCommentLength(s[2..]); GapLength(s) == n + GapLength(s[n..])
  {
  }

  lemma {:induction false} BlankIs(c: char, after: string)
    requires GoodPiece(Blank(c), after)
    ensures c == ' ' || c == '\r' || c == '\t' || c == '\n'
  {
  }

  /** Every text starts with exactly one gap, which may be empty. */
  lemma {:induction false} GapIff(s: string, n: nat)
    ensures GapLength(s) == n <==> GapAt(s, n)
  {
    hide GapLength, StartsGap, GoodPieces, PiecesText;
    if GapLength(s) == n {
      var ps := GapIsBlank(s);
      GapStops(s);
    }
    if GapAt(s, n) {
      var ps :| s[..n] == PiecesText(ps) && GoodPieces(ps, s[n..]);
      PiecesLength(ps, s[n..]);
      assert s == s[..n] + s[n..];
    }
  }

  /** `r` cuts `s` into gaps and tokens up to its end. */
  ghost predicate Tokenized(s: string, r: seq<Lexeme>)
    decreases |r|
  {
    && r != []
    && var (gap, text, kind) := (r[0].gap, r[0].text, r[0].kind);
    && GapAt(s, |gap|) && gap == s[..|gap|]
    && var rest := s[|gap|..];
    if |r| == 1 then rest == "" && text == "" && kind == Eof
    else TokenAt(kind, rest, |text|) && |text| <= |rest| && text == rest[..|text|] && Tokenized(rest[|text|..], r[1..])
  }

  lemma {:induction false} NoTokenInNothing(kind: Kind, n: nat)
    ensures !TokenAt(kind, "", n)
  {
  }

  /** There is exactly one way to cut a source into gaps and tokens, and it is what lexing gives. */
  lemma {:induction false} LexIff(s: string, r: seq<Lexeme>)
    ensures Lex(s) == r <==> Tokenized(s, r)
    decreases |s|
  {
    hide GapLength, GapAt, Scan, TokenAt;
    var g := GapLength(s);
    var rest := s[g..];
    GapIff(s, g);
    if r != [] { GapIff(s, |r[0].gap|); }
    if rest == "" {
      if r != [] { NoTokenInNothing(r[0].kind, |r[0].text|); }
    } else {
      var t := Scan(rest);
      var tail := rest[t.length..];
      ScanIff(rest, t.kind, t.length);
      LexIff(tail, Lex(tail));
      if |r| > 1 {
        ScanIff(rest, r[0].kind, |r[0].text|);
        LexIff(tail, r[1..]);
        assert r == [r[0]] + r[1..];
      }
      LexTiles(tail);
      assert Lex(s) == [Lexeme(s[..g], rest[..t.length], t.kind)] + Lex(tail);
      if |r| == 1 { assert |Lex(s)| > 1; }
    }
  }
}
