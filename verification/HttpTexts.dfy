/** The bytes of HTTP messages (src/stdlib/stdlib_net.c) and the C string functions behind them,
    written out. */
module HttpTexts {
  import opened Options
  import opened CText
  import opened HttpMessages
  import opened Http

  // ---------- Numbers and names ----------

  /** Decimal digits, the highest first and without leading zeros. */
  lemma {:induction false} DecimalDigits(k: nat, d: nat)
    requires d < 10
    ensures Decimal(d) == ["0123456789"[d]]
    ensures k > 0 ==> Decimal(10 * k + d) == Decimal(k) + ["0123456789"[d]]
    ensures DecimalInt(k) == Decimal(k) && (k > 0 ==> DecimalInt(0 - k) == "-" + Decimal(k))
  {
  }

  predicate BlankChar(c: char) {
    c as int in {9, 10, 11, 12, 13, 32}
  }

  predicate Blank(s: string) {
    forall i :: 0 <= i < |s| ==> BlankChar(s[i])
  }

  lemma {:induction false} BlanksSkipped(blank: string, s: string)
    requires Blank(blank) && (s == "" || !BlankChar(s[0]))
    ensures SkipBlank(blank + s) == s
  {
    if blank == "" {
      assert blank + s == s;
    } else {
      assert BlankChar(blank[0]);
      assert (blank + s)[1..] == blank[1..] + s;
      BlanksSkipped(blank[1..], s);
    }
  }

  predicate EndsNumber(s: string) {
    s == "" || s[0] < '0' || s[0] > '9'
  }

  lemma {:induction false} DigitsEnd(n: nat, rest: string)
    requires EndsNumber(rest)
    ensures Digits(Decimal(n) + rest, 0) == n
  {
    DigitsThen(Decimal(n), rest, 0);
    DigitsOfDecimal(n);
  }

  lemma {:induction false} NumberStart(n: nat, rest: string)
    ensures var s := Decimal(n) + rest; '0' <= s[0] <= '9' && !BlankChar(s[0])
  {
    var s := Decimal(n) + rest;
    assert s[0] == Decimal(n)[0] && Decimal(n)[0] in Decimal(n);
  }

  /** Numbers are read behind blanks, with or without a sign, up to the first character that is no
      digit. Unsigned ones too large read as the largest; negative ones wrap around. */
  lemma {:induction false} NumbersRead(blank: string, n: nat, rest: string)
    requires Blank(blank) && EndsNumber(rest)
    ensures var s := Decimal(n) + rest;
      && Strtoul(blank + s) == Strtoul(blank + ("+" + s)) == (if n <= ULONG_MAX then n else ULONG_MAX)
      && Strtoul(blank + ("-" + s)) == (if n > ULONG_MAX then ULONG_MAX else if n == 0 then 0 else ULONG_MAX + 1 - n)
      && Atoi(blank + s) == Atoi(blank + ("+" + s)) == n
      && Atoi(blank + ("-" + s)) == 0 - n
  {
    var s := Decimal(n) + rest;
    hide Decimal, Digits, SkipBlank;
    NumberStart(n, rest);
    DigitsEnd(n, rest);
    BlanksSkipped(blank, s);
    forall sign: char | sign == '+' || sign == '-'
      ensures SkipBlank(blank + ([sign] + s)) == [sign] + s && ([sign] + s)[1..] == s
    {
      BlanksSkipped(blank, [sign] + s);
    }
  }

  lemma {:induction false} ReadsNothing(blank: string, rest: string)
    requires Blank(blank) && (rest == "" || !BlankChar(rest[0])) && EndsNumber(rest)
    requires rest == "" || (rest[0] != '+' && rest[0] != '-')
    ensures Strtoul(blank + rest) == 0 && Atoi(blank + rest) == 0
  {
    BlanksSkipped(blank, rest);
  }

  predicate SameLetter(c: char, d: char) {
    || c == d
    || ('A' <= c <= 'Z' && d as int == c as int + 32)
    || ('A' <= d <= 'Z' && c as int == d as int + 32)
  }

  /** Header names differ at most in the case of their letters. */
  lemma {:induction false} SameNameIff(a: string, b: string)
    ensures SameName(a, b) <==> |a| == |b| && forall i :: 0 <= i < |a| ==> SameLetter(a[i], b[i])
  {
    var x, y := Lower(a), Lower(b);
    if |a| == |b| {
      forall i | 0 <= i < |a| ensures x[i] == y[i] <==> SameLetter(a[i], b[i]) { }
      if x != y {
        var i :| 0 <= i < |a| && x[i] != y[i];
        assert !SameLetter(a[i], b[i]);
      }
    }
  }

  /** Of several headers with one name the first counts. */
  lemma {:induction false} FirstHeaderCounts(headers: seq<Header>, name: string, i: nat)
    requires i < |headers| && SameName(headers[i].name, name)
    requires forall j :: 0 <= j < i ==> !SameName(headers[j].name, name)
    ensures GetHeader(headers, name) == Some(headers[i].value)
  {
    hide SameName;
    if i > 0 { FirstHeaderCounts(headers[1..], name, i - 1); }
  }

  // ---------- What is sent ----------

  lemma {:induction false} LinesOf(a: Header, headers: seq<Header>)
    ensures Lines([]) == "" && Lines([a] + headers) == a.name + ": " + a.value + "\r\n" + Lines(headers)
  {
    assert ([a] + headers)[1..] == headers;
  }

  function Field(name: string, value: string): string {
    name + ": " + value + "\r\n"
  }

  lemma {:induction false} OneLine(last: seq<Header>)
    requires |last| <= 1
    ensures Lines(last) == if last == [] then "" else Field(last[0].name, last[0].value)
  {
    if last != [] {
      LinesOf(last[0], []);
      assert last == [last[0]] + [];
    }
  }

  lemma {:induction false} FourLines(a: Header, b: Header, c: Header, last: seq<Header>)
    requires |last| <= 1
    ensures Lines([a, b, c] + last)
         == Field(a.name, a.value) + Field(b.name, b.value) + Field(c.name, c.value)
          + if last == [] then "" else Field(last[0].name, last[0].value)
  {
    hide Lines;
    LinesOf(a, [b, c] + last);
    LinesOf(b, [c] + last);
    LinesOf(c, last);
    OneLine(last);
    assert [a, b, c] + last == [a] + ([b, c] + last) && [b, c] + last == [b] + ([c] + last);
    var (fa, fb, fc) := (Field(a.name, a.value), Field(b.name, b.value), Field(c.name, c.value));
    assert Lines([a, b, c] + last) == fa + (fb + (fc + Lines(last)));
    hide Field;
    assert fa + (fb + (fc + Lines(last))) == fa + fb + fc + Lines(last);
  }

  /** A request without headers of its own. */
  lemma {:induction false} PlainRequest(verb: string, host: string, port: nat, path: string, body: string)
    ensures RequestHead(Request(verb, host, port, path, [], body))
         == verb + " " + path + " HTTP/1.1\r\n" + (Field("Host", host + ":" + Decimal(port))
          + Field("User-Agent", "RADS/1.0") + Field("Connection", "close")
          + (if body == "" then "" else Field("Content-Length", Decimal(|body|)))) + "\r\n"
  {
    var req := Request(verb, host, port, path, [], body);
    var own := if body == "" then [] else [Header("Content-Length", Decimal(|body|))];
    var a, b := Header("Host", host + ":" + Decimal(port)), Header("User-Agent", "RADS/1.0");
    var c := Header("Connection", "close");
    assert SentHeaders(req) == [a, b, c] + own;
    FourLines(a, b, c, own);
    hide SentHeaders, Lines, Decimal, Field;
    assert verb + " " + (path + " " + "HTTP/1.1") + "\r\n" == verb + " " + path + " HTTP/1.1\r\n";
  }

  /** Such a request fits its buffer exactly when its variable parts are this short. */
  lemma {:induction false} PlainRequestFits(verb: string, host: string, port: nat, path: string, body: string)
    ensures var req := Request(verb, host, port, path, [], body);
      var length := |verb| + |path| + |host| + |Decimal(port)|;
      |RequestHead(req)| < RequestCap(req) <==>
        (if body == "" then length < 192 else length + |Decimal(|body|)| < 174 + |body|)
  {
    PlainRequest(verb, host, port, path, body);
    hide RequestHead, Decimal;
  }

  /** A response without headers of its own. */
  lemma {:induction false} PlainResponse(status: int, text: string, body: string)
    ensures ResponseHead(Response(status, text, [], body))
         == "HTTP/1.1 " + DecimalInt(status) + " " + text + "\r\n" + (Field("Content-Length", Decimal(|body|))
          + Field("Server", "RADS/1.0") + Field("Connection", "close") + "") + "\r\n"
  {
    var resp := Response(status, text, [], body);
    var a, b := Header("Content-Length", Decimal(|body|)), Header("Server", "RADS/1.0");
    var c := Header("Connection", "close");
    assert SentResponseHeaders(resp) == [a, b, c] + [];
    FourLines(a, b, c, []);
    hide SentResponseHeaders, Lines, Decimal, Field, DecimalInt;
    assert "HTTP/1.1" + " " + (DecimalInt(status) + " " + text) == "HTTP/1.1 " + DecimalInt(status) + " " + text;
  }

  lemma {:induction false} PlainResponseFits(status: int, text: string, body: string)
    ensures var resp := Response(status, text, [], body);
      |ResponseHead(resp)| < ResponseCap(resp) <==> |DecimalInt(status)| + |text| + |Decimal(|body|)| < 379
  {
    PlainResponse(status, text, body);
    hide ResponseHead, Decimal, DecimalInt;
  }

  /** The caller's headers come last in a request and first in a response. None is added that the
      caller has under the same name in any case, and the essential ones are always there. */
  lemma {:induction false} DefaultsGiveWay(req: Request, resp: Response)
    ensures var sent, own := SentHeaders(req), req.headers;
      && |sent| >= |own| && sent[|sent| - |own|..] == own
      && (forall i :: 0 <= i < |sent| - |own| ==> !HasHeader(own, sent[i].name))
      && HasHeader(sent, "Host") && HasHeader(sent, "User-Agent") && HasHeader(sent, "Connection")
      && (req.body != "" ==> HasHeader(sent, "Content-Length"))
    ensures var sent, own := SentResponseHeaders(resp), resp.headers;
      && |sent| >= |own| && sent[..|own|] == own
      && (forall i :: |own| <= i < |sent| - 1 ==> !HasHeader(own, sent[i].name))
      && HasHeader(sent, "Content-Length") && HasHeader(sent, "Server")
      && sent[|sent| - 1] == Header("Connection", "close")
  {
    RequestDefaults(req);
    ResponseDefaults(resp);
  }

  lemma {:induction false} HasSome(headers: seq<Header>, i: nat, name: string)
    requires i < |headers| && headers[i].name == name
    ensures HasHeader(headers, name)
  {
  }

  /** A name with a default is there, the caller's or the default's. */
  lemma {:induction false} DefaultThere(own: seq<Header>, name: string, value: string, front: seq<Header>,
          back: seq<Header>)
    ensures HasHeader(front + Default(own, name, value) + back + own, name)
    ensures HasHeader(own + front + Default(own, name, value) + back, name)
    ensures forall h :: h in Default(own, name, value) ==> !HasHeader(own, h.name)
  {
    hide SameName;
    var sent, sent' := front + Default(own, name, value) + back + own, own + front + Default(own, name, value) + back;
    if HasHeader(own, name) {
      var i :| 0 <= i < |own| && SameName(own[i].name, name);
      assert sent[|sent| - |own| + i] == own[i] && sent'[i] == own[i];
    } else {
      HasSome(sent, |front|, name);
      HasSome(sent', |own| + |front|, name);
    }
  }

  lemma {:induction false} RequestDefaults(req: Request)
    ensures var sent, own := SentHeaders(req), req.headers;
      && |sent| >= |own| && sent[|sent| - |own|..] == own
      && (forall i :: 0 <= i < |sent| - |own| ==> !HasHeader(own, sent[i].name))
      && HasHeader(sent, "Host") && HasHeader(sent, "User-Agent") && HasHeader(sent, "Connection")
      && (req.body != "" ==> HasHeader(sent, "Content-Length"))
  {
    var own, body := req.headers, OwnLength(req);
    var a := Default(own, "Host", req.host + ":" + Decimal(req.port));
    var b, c := Default(own, "User-Agent", "RADS/1.0"), Default(own, "Connection", "close");
    var sent := SentHeaders(req);
    assert sent == [] + a + (b + c + body) + own == a + b + (c + body) + own == a + b + c + body + own;
    assert sent == a + b + c + body + [] + own;
    DefaultThere(own, "Host", req.host + ":" + Decimal(req.port), [], b + c + body);
    DefaultThere(own, "User-Agent", "RADS/1.0", a, c + body);
    DefaultThere(own, "Connection", "close", a + b, body);
    if req.body != "" { DefaultThere(own, "Content-Length", Decimal(|req.body|), a + b + c, []); }
    hide HasHeader, Default, OwnLength, SentHeaders;
    forall i | 0 <= i < |sent| - |own| ensures !HasHeader(own, sent[i].name) {
      assert sent[i] in a + b + c + body;
    }
  }

  lemma {:induction false} ResponseDefaults(resp: Response)
    ensures var sent, own := SentResponseHeaders(resp), resp.headers;
      && |sent| >= |own| && sent[..|own|] == own
      && (forall i :: |own| <= i < |sent| - 1 ==> !HasHeader(own, sent[i].name))
      && HasHeader(sent, "Content-Length") && HasHeader(sent, "Server")
      && sent[|sent| - 1] == Header("Connection", "close")
  {
    var own := resp.headers;
    var a, b := Default(own, "Content-Length", Decimal(|resp.body|)), Default(own, "Server", "RADS/1.0");
    var c := [Header("Connection", "close")];
    var sent := SentResponseHeaders(resp);
    assert sent == own + [] + a + (b + c) == own + a + b + c;
    DefaultThere(own, "Content-Length", Decimal(|resp.body|), [], b + c);
    DefaultThere(own, "Server", "RADS/1.0", a, c);
    hide HasHeader, Default, SentResponseHeaders;
    forall i | |own| <= i < |sent| - 1 ensures !HasHeader(own, sent[i].name) {
      assert sent[i] in a + b;
    }
  }

  // ---------- What is read ----------

  predicate TokenChar(c: char) {
    'a' <= c <= 'z' || 'A' <= c <= 'Z' || '0' <= c <= '9' || c in "!#$%&'*+-.^_`|~"
  }

  predicate FieldChar(c: char) {
    33 <= c as int <= 126 || 128 <= c as int <= 255
  }

  /** Every field of section 5 of RFC 9110 survives the trip: a name of token characters, and a value
      of visible characters with blanks between them. */
  lemma {:induction false} FieldsAreGood(name: string, value: string)
    requires forall c :: c in name ==> TokenChar(c)
    requires forall c :: c in value ==> FieldChar(c) || c == ' ' || c == '\t'
    requires value != "" ==> FieldChar(value[0])
    ensures GoodHeader(Header(name, value))
  {
    assert !TokenChar(':') && !TokenChar('\r') && !TokenChar('\0') by { NoToken(); }
    assert !FieldChar('\r') && !FieldChar('\0');
  }

  lemma {:induction false} NoToken()
    ensures ':' !in "!#$%&'*+-.^_`|~" && '\r' !in "!#$%&'*+-.^_`|~" && '\0' !in "!#$%&'*+-.^_`|~"
  {
  }

  /** A header line is split at its first colon and blanks before the value are dropped; a line
      without a colon is dropped whole. */
  lemma {:induction false} HeaderLines(name: string, blank: string, value: string)
    requires ':' !in name && Blank(blank) && (value == "" || !BlankChar(value[0]))
    ensures ParseHeaderLine(name + ":" + blank + value) == [Header(name, value)]
    ensures ParseHeaderLine(name) == []
  {
    var line := name + ":" + blank + value;
    assert line == name + (":" + blank + value);
    IndexOfIs(name, ':', ":" + blank + value);
    assert line[..|name|] == name && line[|name| + 1..] == blank + value;
    BlanksSkipped(blank, value);
    IndexOfIs(name, ':', "");
    assert name + "" == name;
  }

  function Joined(lines: seq<string>): string {
    if lines == [] then "" else lines[0] + CRLF + Joined(lines[1..])
  }

  function Kept(lines: seq<string>): seq<Header> {
    if lines == [] then [] else ParseHeaderLine(lines[0]) + Kept(lines[1..])
  }

  /** A header block is read line by line, each on its own, up to the line end before the blank
      line; what a line without a colon says is lost and nothing else. */
  lemma {:induction false} AnyLinesRead(lines: seq<string>, pre: string, rest: string)
    requires forall i :: 0 <= i < |lines| ==> '\r' !in lines[i]
    ensures var end: int := |pre| + |Joined(lines)| - 2;
      ParseHeaders(pre + Joined(lines) + rest, |pre|, if lines == [] then |pre| else end) == Kept(lines)
    decreases |lines|
  {
    hide ParseHeaderLine, Find, Joined;
    if lines != [] {
      var (line, more) := (lines[0], Joined(lines[1..]));
      var text := pre + Joined(lines) + rest;
      var end := |pre| + |Joined(lines)| - 2;
      var pre' := pre + (line + CRLF);
      JoinedText(lines, pre, rest);
      AnyLinesRead(lines[1..], pre', rest);
      if end > |pre| {
        ParseHeadersStep(text, |pre|, end, line, more + rest);
        if lines[1..] == [] { assert ParseHeaders(text, |pre'|, end) == []; }
      } else {
        EmptyLine();
        JoinedLength(lines[1..]);
      }
    }
  }

  lemma {:induction false} JoinedText(lines: seq<string>, pre: string, rest: string)
    requires lines != []
    ensures var (line, more) := (lines[0], Joined(lines[1..]));
      var text := pre + Joined(lines) + rest;
      && text == pre + (line + CRLF) + more + rest && text[|pre|..] == line + (CRLF + (more + rest))
      && |Joined(lines)| == |line| + 2 + |more| && (lines[1..] == [] ==> more == "")
  {
    assert Joined(lines) == lines[0] + CRLF + Joined(lines[1..]);
  }

  lemma {:induction false} JoinedLength(lines: seq<string>)
    ensures lines == [] || |Joined(lines)| >= 2
  {
  }

  lemma {:induction false} EmptyLine()
    ensures ParseHeaderLine("") == []
  {
  }

  /** A body is cut to the announced length, waited for when shorter, and taken as it is when no
      length is announced, unless it is empty. */
  lemma {:induction false} BodiesRead(headers: seq<Header>, n: nat, rest: string)
    requires n <= ULONG_MAX
    ensures GetHeader(headers, "Content-Length") == Some(Decimal(n)) ==>
      ReadBody(headers, rest) == if n <= |rest| then Some(rest[..n]) else None
    ensures !HasHeader(headers, "Content-Length") ==> ReadBody(headers, rest) == if rest == "" then None else Some(rest)
  {
    NumbersReadBack(n);
  }

  /** Messages without the end of their first line, or without the blank line, are refused. */
  lemma {:induction false} IncompleteMessages(data: string)
    requires forall i :: !At(UpToNul(data), "\r\n\r\n", i)
    ensures ParseRequest(data).None? && ParseResponse(data).None?
  {
    var text := UpToNul(data);
    var eol := Find(text, CRLF);
    if eol.Some? {
      var start := eol.value + 2;
      forall i ensures !At(text[start..], BLANK, i) {
        if 0 <= i && start + i + 4 <= |text| {
          assert text[start..][i..i + 4] == text[start + i..start + i + 4];
          assert !At(text, "\r\n\r\n", start + i);
        }
      }
      assert ReadBlock(data, start).None?;
    }
    hide Find, ReadBlock, NextWord, UpToNul, ReadBody, SplitTarget, Atoi;
  }

  function Spaces(n: nat): string {
    if n == 0 then "" else [' '] + Spaces(n - 1)
  }

  lemma {:induction false} SpacesSkipped(n: nat, s: string)
    ensures NextWord(Spaces(n) + s) == NextWord(s)
  {
    hide NextWord;
    if n == 0 {
      assert Spaces(n) + s == s;
    } else {
      var fewer := Spaces(n - 1);
      assert Spaces(n) == [' '] + fewer;
      hide Spaces;
      SpacesSkipped(n - 1, s);
      SpaceSkipped(fewer + s);
      assert [' '] + fewer + s == [' '] + (fewer + s);
    }
  }

  lemma {:induction false} SpaceSkipped(s: string)
    ensures NextWord([' '] + s) == NextWord(s)
  {
    assert ([' '] + s)[1..] == s;
  }

  /** Words are separated by one or more spaces. */
  lemma {:induction false} WordsRead(n: nat, w: string, rest: string)
    requires w != "" && ' ' !in w
    ensures NextWord(Spaces(n) + (w + " " + rest)) == Some((w, rest))
    ensures NextWord(Spaces(n) + w) == Some((w, "")) && NextWord(Spaces(n)) == None
  {
    hide Spaces;
    SpacesSkipped(n, w + " " + rest);
    SpacesSkipped(n, w);
    SpacesSkipped(n, "");
    WordThenSpace(w, rest);
    LastWord(w);
    assert Spaces(n) + "" == Spaces(n);
  }
}
