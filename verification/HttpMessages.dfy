/** HTTP/1.1 messages as the client builds them and the server reads them, and the other way
    round (src/stdlib/stdlib_net.c; RFC 9112, sections 2.1, 3, 4, 5 and 6). Building and parsing are
    functions on strings here; module Http has the objects and loops. Strings are byte sequences
    that may contain NULs wherever the source does not search them. */
module HttpMessages {
  import opened Options
  import opened CText

  datatype Header = Header(name: string, value: string)

  // ---------- Header lines ----------

  function LineOf(h: Header): string {
    h.name + ": " + h.value
  }

  function Lines(headers: seq<Header>): string {
    if headers == [] then "" else LineOf(headers[0]) + CRLF + Lines(headers[1..])
  }

  predicate HasHeader(headers: seq<Header>, name: string) {
    exists i :: 0 <= i < |headers| && SameName(headers[i].name, name)
  }

  lemma {:induction false} HasHeaderBelow(headers: seq<Header>, name: string)
    requires headers != [] && !SameName(headers[0].name, name)
    ensures HasHeader(headers, name) <==> HasHeader(headers[1..], name)
  {
    if HasHeader(headers[1..], name) {
      var i :| 0 <= i < |headers[1..]| && SameName(headers[1..][i].name, name);
      assert headers[i + 1] == headers[1..][i];
    }
    if HasHeader(headers, name) {
      var i :| 0 <= i < |headers| && SameName(headers[i].name, name);
      assert headers[i] == headers[1..][i - 1];
    }
  }

  function GetHeader(headers: seq<Header>, name: string): (r: Option<string>)
    ensures r.Some? <==> HasHeader(headers, name)
  {
    if headers == [] then None
    else if SameName(headers[0].name, name) then Some(headers[0].value)
    else
      assert HasHeader(headers, name) <==> HasHeader(headers[1..], name) by {
        HasHeaderBelow(headers, name);
      }
      GetHeader(headers[1..], name)
  }

  /** One line between line ends; a line without a colon is dropped. */
  function ParseHeaderLine(line: string): seq<Header> {
    var i := IndexOf(line, ':');
    if i == |line| then [] else [Header(line[..i], SkipBlank(line[i + 1..]))]
  }

  /** The lines of `text` from `cursor` up to the line end at `end`. */
  function ParseHeaders(text: string, cursor: nat, end: nat): seq<Header>
    decreases end - cursor
  {
    if cursor >= end || cursor > |text| then []
    else
      var eol := Find(text[cursor..], CRLF);
      if eol.None? || cursor + eol.value > end then []
      else ParseHeaderLine(text[cursor..cursor + eol.value]) + ParseHeaders(text, cursor + eol.value + 2, end)
  }

  /** Headers that survive the trip; every field name and value of RFC 9112 does. */
  predicate GoodHeader(h: Header) {
    && ':' !in h.name && '\r' !in h.name && '\0' !in h.name
    && '\r' !in h.value && '\0' !in h.value && (h.value != "" ==> !IsSpace(h.value[0]))
  }

  predicate GoodHeaders(headers: seq<Header>) {
    forall i :: 0 <= i < |headers| ==> GoodHeader(headers[i])
  }

  lemma {:induction false} LineParses(h: Header)
    requires GoodHeader(h)
    ensures ParseHeaderLine(LineOf(h)) == [h]
  {
    var line := LineOf(h);
    var after := " " + h.value;
    assert line == h.name + (":" + after);
    IndexOfIs(h.name, ':', ":" + after);
    assert line[..|h.name|] == h.name;
    assert line[|h.name| + 1..] == after;
    BlankSkipped(h.value);
  }

  lemma {:induction false} BlankSkipped(value: string)
    requires value == "" || !IsSpace(value[0])
    ensures SkipBlank(" " + value) == value
  {
    assert (" " + value)[1..] == value;
  }

  lemma {:induction false} LineChars(h: Header)
    requires GoodHeader(h)
    ensures '\r' !in LineOf(h) && '\0' !in LineOf(h) && |LineOf(h)| >= 2
  {
    assert '\r' !in ": " && '\0' !in ": ";
  }

  /** Nothing that begins with the end of a line is found inside one. */
  lemma {:induction false} NotInLine(line: string, tail: string, pat: string)
    requires '\r' !in line && pat != "" && pat[0] == '\r'
    ensures forall j :: 0 <= j < |line| ==> !At(line + CRLF + tail, pat, j)
  {
    forall j | 0 <= j < |line| ensures !At(line + CRLF + tail, pat, j) {
      assert line[j] in line;
      NotAt(line + CRLF + tail, pat, j, 0);
    }
  }

  lemma {:induction false} LineEnds(line: string, rest: string)
    requires '\r' !in line
    ensures Find(line + CRLF + rest, CRLF) == Some(|line|)
  {
    var s := line + CRLF + rest;
    NotInLine(line, rest, CRLF);
    assert s[|line|..|line| + 2] == CRLF;
    FindIs(s, CRLF, |line|);
  }

  lemma {:induction false} ParseHeadersStep(text: string, cursor: nat, end: nat, line: string, rest: string)
    requires cursor < end <= |text| && text[cursor..] == line + (CRLF + rest)
    requires '\r' !in line && cursor + |line| <= end
    ensures ParseHeaders(text, cursor, end)
         == ParseHeaderLine(line) + ParseHeaders(text, cursor + |line| + 2, end)
  {
    hide Find, ParseHeaderLine;
    assert Find(line + (CRLF + rest), CRLF) == Some(|line|) by {
      LineEnds(line, rest);
      assert line + CRLF + rest == line + (CRLF + rest);
    }
    LineSlice(text, cursor, line, CRLF + rest);
  }

  lemma {:induction false} LineSlice(text: string, cursor: nat, line: string, rest: string)
    requires cursor <= |text| && text[cursor..] == line + rest
    ensures cursor + |line| <= |text| && text[cursor..cursor + |line|] == line
  {
    assert text[cursor..][..|line|] == line;
  }

  /** Reading the lines of good headers gives the headers back. */
  lemma {:induction false} LinesParse(headers: seq<Header>, pre: string, rest: string, end: int)
    requires GoodHeaders(headers)
    requires end == |pre| + |Lines(headers)| - 2
    ensures ParseHeaders(pre + Lines(headers) + rest, |pre|, if end < 0 then 0 else end) == headers
    decreases |headers|
  {
    if headers == [] {
      assert Lines(headers) == "";
    } else {
      hide Lines, LineOf, ParseHeaders, GoodHeader;
      LinesLength(headers);
      FirstParses(headers, pre, rest, end);
      LinesParse(headers[1..], pre + (LineOf(headers[0]) + CRLF), rest, end);
      assert [headers[0]] + headers[1..] == headers;
    }
  }

  lemma {:induction false} FirstParses(headers: seq<Header>, pre: string, rest: string, end: nat)
    requires headers != [] && GoodHeader(headers[0])
    requires end == |pre| + |Lines(headers)| - 2
    ensures var pre', more := pre + (LineOf(headers[0]) + CRLF), Lines(headers[1..]);
      ParseHeaders(pre + Lines(headers) + rest, |pre|, end)
        == [headers[0]] + ParseHeaders(pre' + more + rest, |pre'|, end)
  {
    hide Lines, LineOf, ParseHeaders, ParseHeaderLine, GoodHeader;
    LineParses(headers[0]);
    LineChars(headers[0]);
    LinesLength(headers);
    FirstLine(pre, headers, rest);
    ParseHeadersStep(pre + Lines(headers) + rest, |pre|, end, LineOf(headers[0]), Lines(headers[1..]) + rest);
  }

  lemma {:induction false} FirstLine(pre: string, headers: seq<Header>, rest: string)
    requires headers != []
    ensures var text := pre + Lines(headers) + rest;
      var line, more := LineOf(headers[0]), Lines(headers[1..]);
      && text[|pre|..] == line + (CRLF + (more + rest))
      && text == pre + (line + CRLF) + more + rest
  {
    hide LineOf;
    assert Lines(headers) == LineOf(headers[0]) + CRLF + Lines(headers[1..]);
  }

  lemma {:induction false} LinesLength(headers: seq<Header>)
    requires headers != []
    ensures |Lines(headers)| == |LineOf(headers[0])| + 2 + |Lines(headers[1..])|
    ensures |LineOf(headers[0])| >= 2
  {
  }

  lemma {:induction false} LinesText(headers: seq<Header>, rest: string)
    requires headers != []
    ensures Lines(headers) + CRLF + rest == LineOf(headers[0]) + CRLF + (Lines(headers[1..]) + CRLF + rest)
    ensures |headers| == 1 ==> Lines(headers) + CRLF + rest == LineOf(headers[0]) + CRLF + (CRLF + rest)
  {
    hide LineOf;
    if |headers| == 1 { assert Lines(headers[1..]) == ""; }
  }

  const BLANK: string := ['\r', '\n', '\r', '\n']

  /** The blank line is found right after the header lines, however the body looks. */
  lemma {:induction false} BlockEnds(headers: seq<Header>, rest: string)
    requires headers != [] && GoodHeaders(headers)
    ensures |Lines(headers)| >= 2
    ensures Find(Lines(headers) + CRLF + rest, BLANK) == Some(|Lines(headers)| - 2)
    decreases |headers|
  {
    hide Lines, LineOf;
    var line := LineOf(headers[0]);
    var more := headers[1..];
    var tail := Lines(more) + CRLF + rest;
    LineChars(headers[0]);
    LinesLength(headers);
    LinesText(headers, rest);
    if |headers| == 1 {
      LastLineEnds(line, rest);
    } else {
      BlockEnds(more, rest);
      LinesStart(more);
      NotAcrossLines(line, tail);
      FindAfter(line + CRLF, tail, BLANK, |Lines(more)| - 2);
    }
  }

  lemma {:induction false} LastLineEnds(line: string, rest: string)
    requires '\r' !in line
    ensures Find(line + CRLF + (CRLF + rest), BLANK) == Some(|line|)
  {
    var s := line + CRLF + (CRLF + rest);
    NotInLine(line, CRLF + rest, BLANK);
    assert s[|line|..|line| + 4] == BLANK;
    FindIs(s, BLANK, |line|);
  }

  lemma {:induction false} LinesStart(headers: seq<Header>)
    requires headers != [] && GoodHeaders(headers)
    ensures |Lines(headers)| > 0 && Lines(headers)[0] != '\r'
  {
    var line := LineOf(headers[0]);
    LineChars(headers[0]);
    assert line[0] in line;
  }

  lemma {:induction false} NotAcrossLines(line: string, tail: string)
    requires '\r' !in line && tail != "" && tail[0] != '\r'
    ensures forall j :: 0 <= j < |line + CRLF| ==> !At(line + CRLF + tail, BLANK, j)
  {
    var s := line + CRLF + tail;
    NotInLine(line, tail, BLANK);
    NotAt(s, BLANK, |line|, 2);
    NotAt(s, BLANK, |line| + 1, 0);
  }

  lemma {:induction false} LinesNulFree(headers: seq<Header>)
    requires GoodHeaders(headers)
    ensures '\0' !in Lines(headers)
  {
    if headers != [] {
      LineChars(headers[0]);
      LinesNulFree(headers[1..]);
    }
  }

  // ---------- Reading a message ----------

  /** The header lines and what follows the blank line after them. */
  datatype Block = Block(headers: seq<Header>, rest: string)

  /** Reads header lines from `start` of a buffer; the searches stop at a NUL. */
  function ReadBlock(data: string, start: nat): Option<Block> {
    var text := UpToNul(data);
    if start > |text| then None
    else
      var blank := Find(text[start..], BLANK);
      if blank.None? then None
      else
        var end := start + blank.value;
        Some(Block(ParseHeaders(text, start, end), data[end + 4..]))
  }

  /** The body that the headers announce: nothing when it has not all arrived. */
  function ReadBody(headers: seq<Header>, rest: string): Option<string> {
    var cl := GetHeader(headers, "Content-Length");
    if cl.Some? then
      var n := Strtoul(cl.value);
      if n <= |rest| then Some(rest[..n]) else None
    else if rest != "" then Some(rest)
    else None
  }

  /** A message whose first line is `line` reads back as its headers and what follows them. */
  lemma {:induction false} BlockReads(line: string, headers: seq<Header>, body: string)
    requires '\r' !in line && '\0' !in line
    requires headers != [] && GoodHeaders(headers)
    ensures var data := line + CRLF + Lines(headers) + CRLF + body;
      && Find(UpToNul(data), CRLF) == Some(|line|)
      && UpToNul(data)[..|line|] == line
      && ReadBlock(data, |line| + 2) == Some(Block(headers, body))
  {
    hide Lines, ParseHeaders;
    var block := Lines(headers);
    var data := line + CRLF + block + CRLF + body;
    var start := line + CRLF;
    LinesNulFree(headers);
    var rest := UpToNul(body);
    TextOf(line, block, body);
    LineEnds(line, block + CRLF + rest);
    BlockEnds(headers, rest);
    LinesParse(headers, start, CRLF + rest, |start| + |block| - 2);
    assert data[|start| + |block| - 2 + 4..] == body;
  }

  /** The searches see the whole of a NUL-free front. */
  lemma {:induction false} TextOf(line: string, block: string, body: string)
    requires '\0' !in line && '\0' !in block
    ensures var text := UpToNul(line + CRLF + block + CRLF + body);
      var rest := UpToNul(body);
      && text == line + CRLF + (block + CRLF + rest)
      && text == line + CRLF + block + (CRLF + rest)
      && text[..|line|] == line
      && text[|line| + 2..] == block + CRLF + rest
  {
    var front := line + CRLF + block + CRLF;
    UpToNulPrefix(front, body);
    assert line + CRLF + block + CRLF + body == front + body;
  }

  // ---------- Requests ----------

  datatype Request = Request(verb: string, host: string, port: nat, path: string,
                             headers: seq<Header>, body: string)

  datatype ParsedRequest = ParsedRequest(verb: string, path: string, query: Option<string>, version: string,
                                         headers: seq<Header>, body: Option<string>)

  /** A header the caller may have left out. */
  function Default(headers: seq<Header>, name: string, value: string): seq<Header> {
    if HasHeader(headers, name) then [] else [Header(name, value)]
  }

  /** The headers a request is sent with: defaults for those the caller left out, first. */
  function SentHeaders(req: Request): seq<Header> {
    Defaults(req) + (OwnLength(req) + req.headers)
  }

  function Defaults(req: Request): seq<Header> {
    Default(req.headers, "Host", req.host + ":" + Decimal(req.port))
    + Default(req.headers, "User-Agent", "RADS/1.0")
    + Default(req.headers, "Connection", "close")
  }

  function OwnLength(req: Request): seq<Header> {
    if req.body == "" then [] else Default(req.headers, "Content-Length", Decimal(|req.body|))
  }

  function RequestLine(req: Request): string {
    req.verb + " " + (req.path + " " + "HTTP/1.1")
  }

  function RequestHead(req: Request): string {
    RequestLine(req) + CRLF + Lines(SentHeaders(req)) + CRLF
  }

  function RequestText(req: Request): string {
    RequestHead(req) + req.body
  }

  /** Splits a request target at its first question mark. */
  function SplitTarget(target: string): (string, Option<string>) {
    var q := IndexOf(target, '?');
    if q == |target| then (target, None) else (target[..q], Some(target[q + 1..]))
  }

  function JoinTarget(path: string, query: Option<string>): string {
    if query.None? then path else path + "?" + query.value
  }

  function ParseRequest(data: string): Option<ParsedRequest> {
    if data == "" then None
    else
      var text := UpToNul(data);
      var eol := Find(text, CRLF);
      if eol.None? then None
      else
        var m := NextWord(text[..eol.value]);
        if m.None? then None
        else
          var p := NextWord(m.value.1);
          if p.None? then None
          else
            var v := NextWord(p.value.1);
            if v.None? then None
            else
              var (path, query) := SplitTarget(p.value.0);
              var block := ReadBlock(data, eol.value + 2);
              if block.None? then None
              else
                Some(ParsedRequest(m.value.0, path, query, v.value.0, block.value.headers,
                                   ReadBody(block.value.headers, block.value.rest)))
  }

  predicate GoodRequest(req: Request) {
    && IsWord(req.verb) && IsWord(req.path)
    && '\r' !in req.host && '\0' !in req.host && (req.host != "" && !IsSpace(req.host[0]))
    && GoodHeaders(req.headers) && |req.body| <= ULONG_MAX
  }

  /** The Content-Length that the caller set, if any, is the length of the body. */
  predicate LengthAgrees(headers: seq<Header>, body: string) {
    var cl := GetHeader(headers, "Content-Length");
    cl.Some? ==> Strtoul(cl.value) == |body|
  }

  lemma {:induction false} DecimalChars(n: nat)
    ensures var s := Decimal(n); !IsSpace(s[0]) && '\r' !in s && '\0' !in s
  {
    var s := Decimal(n);
    assert s[0] in s;
  }

  lemma {:induction false} LengthIsGood(n: nat)
    ensures GoodHeader(Header("Content-Length", Decimal(n)))
  {
    DecimalChars(n);
    assert ':' !in "Content-Length" && '\r' !in "Content-Length" && '\0' !in "Content-Length";
  }

  lemma {:induction false} HostIsGood(host: string, port: nat)
    requires '\r' !in host && '\0' !in host && host != "" && !IsSpace(host[0])
    ensures GoodHeader(Header("Host", host + ":" + Decimal(port)))
  {
    var value := host + ":" + Decimal(port);
    DecimalChars(port);
    assert value[0] == host[0];
    assert ':' !in "Host" && '\r' !in "Host" && '\0' !in "Host";
  }

  lemma {:induction false} GoodConcat(a: seq<Header>, b: seq<Header>)
    requires GoodHeaders(a) && GoodHeaders(b)
    ensures GoodHeaders(a + b)
  {
  }

  lemma {:induction false} SentHeadersAreGood(req: Request)
    requires GoodRequest(req)
    ensures GoodHeaders(SentHeaders(req)) && SentHeaders(req) != []
  {
    DefaultsAreGood(req);
    LengthIsGood(|req.body|);
    hide GoodHeader, HasHeader, Defaults;
    assert GoodHeaders(OwnLength(req));
    GoodConcat(OwnLength(req), req.headers);
    GoodConcat(Defaults(req), OwnLength(req) + req.headers);
  }

  lemma {:induction false} DefaultsAreGood(req: Request)
    requires GoodRequest(req)
    ensures GoodHeaders(Defaults(req)) && (req.headers == [] ==> Defaults(req) != [])
  {
    HostIsGood(req.host, req.port);
    FixedAreGood();
    hide GoodHeader, HasHeader;
    var a := Default(req.headers, "Host", req.host + ":" + Decimal(req.port));
    var b := Default(req.headers, "User-Agent", "RADS/1.0");
    var c := Default(req.headers, "Connection", "close");
    GoodConcat(a, b);
    GoodConcat(a + b, c);
    if req.headers == [] { NoHeaders("Host"); }
  }

  lemma {:induction false} FixedAreGood()
    ensures GoodHeader(Header("User-Agent", "RADS/1.0"))
    ensures GoodHeader(Header("Connection", "close"))
    ensures GoodHeader(Header("Server", "RADS/1.0"))
  {
    PlainIsGood("User-Agent", "RADS/1.0");
    PlainIsGood("Connection", "close");
    PlainIsGood("Server", "RADS/1.0");
  }

  lemma {:induction false} PlainIsGood(name: string, value: string)
    requires (forall c :: c in name ==> c == '-' || 'A' <= c <= 'z')
    requires value != "" && forall c :: c in value ==> '.' <= c <= 'z'
    ensures GoodHeader(Header(name, value))
  {
    assert value[0] in value;
  }

  lemma {:induction false} NoHeaders(name: string)
    ensures !HasHeader([], name)
  {
  }

  lemma {:induction false} GetHeaderSkips(front: seq<Header>, rest: seq<Header>, name: string)
    requires forall i :: 0 <= i < |front| ==> !SameName(front[i].name, name)
    ensures GetHeader(front + rest, name) == GetHeader(rest, name)
  {
    if front == [] {
      assert front + rest == rest;
    } else {
      assert (front + rest)[1..] == front[1..] + rest;
      GetHeaderSkips(front[1..], rest, name);
    }
  }

  /** The Content-Length that is sent. */
  lemma {:induction false} SentLength(req: Request)
    ensures GetHeader(SentHeaders(req), "Content-Length")
      == if HasHeader(req.headers, "Content-Length") then GetHeader(req.headers, "Content-Length")
         else if req.body == "" then None
         else Some(Decimal(|req.body|))
  {
    NotLength("Host");
    NotLength("User-Agent");
    NotLength("Connection");
    hide SameName, HasHeader;
    GetHeaderSkips(Defaults(req), OwnLength(req) + req.headers, "Content-Length");
    if OwnLength(req) == [] { assert OwnLength(req) + req.headers == req.headers; }
    assert SameName("Content-Length", "Content-Length") by { IsLength(); }
  }

  lemma {:induction false} NotLength(name: string)
    requires |name| != 14
    ensures !SameName(name, "Content-Length")
  {
    assert |"Content-Length"| == 14;
  }

  lemma {:induction false} IsLength()
    ensures SameName("Content-Length", "Content-Length")
  {
  }

  lemma {:induction false} TargetJoins(target: string)
    ensures var (path, query) := SplitTarget(target); JoinTarget(path, query) == target
  {
    var q := IndexOf(target, '?');
    if q < |target| { assert target == target[..q] + "?" + target[q + 1..]; }
  }

  /** Parsing the bytes of a request gives back its method, its target as path and query, the
      headers it was sent with, in order, and, exactly when a Content-Length supplied by the
      caller agrees with the body or there is no body, its body. */
  lemma {:induction false} RequestRoundTrip(req: Request)
    requires GoodRequest(req)
    ensures var r := ParseRequest(RequestText(req));
      && r.Some?
      && r.value.verb == req.verb
      && JoinTarget(r.value.path, r.value.query) == req.path && '?' !in r.value.path
      && r.value.version == "HTTP/1.1"
      && r.value.headers == SentHeaders(req)
      && (BodyText(r.value.body) == req.body <==> LengthAgrees(req.headers, req.body) || req.body == "")
  {
    hide Lines, Find, UpToNul, NextWord, Defaults, OwnLength, HasHeader, GetHeader, GoodHeader, RequestLine;
    hide LengthAgrees, ReadBody, ReadBlock;
    var line := RequestLine(req);
    var sent := SentHeaders(req);
    SentHeadersAreGood(req);
    assert RequestText(req) == line + CRLF + Lines(sent) + CRLF + req.body;
    RequestLineChars(req);
    BlockReads(line, sent, req.body);
    RequestWords(req);
    TargetJoins(req.path);
    RequestBody(req);
  }

  lemma {:induction false} RequestLineChars(req: Request)
    requires GoodRequest(req)
    ensures '\r' !in RequestLine(req) && '\0' !in RequestLine(req)
  {
    assert '\r' !in "HTTP/1.1" && '\0' !in "HTTP/1.1";
  }

  function BodyText(body: Option<string>): string {
    if body.None? then "" else body.value
  }

  lemma {:induction false} RequestWords(req: Request)
    requires IsWord(req.verb) && IsWord(req.path)
    ensures NextWord(RequestLine(req)) == Some((req.verb, req.path + " " + "HTTP/1.1"))
    ensures NextWord(req.path + " " + "HTTP/1.1") == Some((req.path, "HTTP/1.1"))
    ensures NextWord("HTTP/1.1") == Some(("HTTP/1.1", ""))
  {
    WordThenSpace(req.verb, req.path + " " + "HTTP/1.1");
    WordThenSpace(req.path, "HTTP/1.1");
    LastWord("HTTP/1.1");
  }

  lemma {:induction false} RequestBody(req: Request)
    requires |req.body| <= ULONG_MAX
    ensures BodyText(ReadBody(SentHeaders(req), req.body)) == req.body
      <==> LengthAgrees(req.headers, req.body) || req.body == ""
  {
    SentLength(req);
    NumbersReadBack(|req.body|);
    assert req.body[..|req.body|] == req.body;
  }

  // ---------- Responses ----------

  datatype Response = Response(status: int, text: string, headers: seq<Header>, body: string)

  /** The headers a response is sent with: those it lacked are added behind its own. */
  function SentResponseHeaders(resp: Response): seq<Header> {
    resp.headers + AddedHeaders(resp)
  }

  function AddedHeaders(resp: Response): seq<Header> {
    Default(resp.headers, "Content-Length", Decimal(|resp.body|))
    + Default(resp.headers, "Server", "RADS/1.0")
    + [Header("Connection", "close")]
  }

  function StatusLine(resp: Response): string {
    "HTTP/1.1" + " " + (DecimalInt(resp.status) + " " + resp.text)
  }

  function ResponseHead(resp: Response): string {
    StatusLine(resp) + CRLF + Lines(SentResponseHeaders(resp)) + CRLF
  }

  function ResponseText(resp: Response): string {
    ResponseHead(resp) + resp.body
  }

  /** A response is complete, and only then reported, once its body can be read. */
  function ParseResponse(data: string): Option<Response> {
    if data == "" then None
    else
      var text := UpToNul(data);
      var eol := Find(text, CRLF);
      if eol.None? then None
      else
        var v := NextWord(text[..eol.value]);
        if v.None? then None
        else
          var c := NextWord(v.value.1);
          if c.None? then None
          else
            var block := ReadBlock(data, eol.value + 2);
            if block.None? then None
            else
              var body := ReadBody(block.value.headers, block.value.rest);
              if body.None? then None
              else Some(Response(Atoi(c.value.0), c.value.1, block.value.headers, body.value))
  }

  predicate GoodResponse(resp: Response) {
    '\r' !in resp.text && '\0' !in resp.text && GoodHeaders(resp.headers) && |resp.body| <= ULONG_MAX
  }

  lemma {:induction false} AddedAreGood(resp: Response)
    ensures GoodHeaders(AddedHeaders(resp))
  {
    LengthIsGood(|resp.body|);
    FixedAreGood();
    hide GoodHeader, HasHeader;
    var a := Default(resp.headers, "Content-Length", Decimal(|resp.body|));
    var b := Default(resp.headers, "Server", "RADS/1.0");
    GoodConcat(a, b);
    GoodConcat(a + b, [Header("Connection", "close")]);
  }

  lemma {:induction false} GetHeaderInFront(front: seq<Header>, rest: seq<Header>, name: string)
    requires HasHeader(front, name)
    ensures GetHeader(front + rest, name) == GetHeader(front, name)
  {
    if !SameName(front[0].name, name) {
      HasHeaderBelow(front, name);
      assert (front + rest)[1..] == front[1..] + rest;
      GetHeaderInFront(front[1..], rest, name);
    }
  }

  lemma {:induction false} SentResponseLength(resp: Response)
    ensures GetHeader(SentResponseHeaders(resp), "Content-Length")
      == if HasHeader(resp.headers, "Content-Length") then GetHeader(resp.headers, "Content-Length")
         else Some(Decimal(|resp.body|))
  {
    if HasHeader(resp.headers, "Content-Length") {
      GetHeaderInFront(resp.headers, AddedHeaders(resp), "Content-Length");
    } else {
      GetHeaderSkips(resp.headers, AddedHeaders(resp), "Content-Length");
      IsLength();
      hide SameName;
      assert AddedHeaders(resp)[0] == Header("Content-Length", Decimal(|resp.body|));
    }
  }

  lemma {:induction false} StatusWords(resp: Response)
    ensures NextWord(StatusLine(resp)) == Some(("HTTP/1.1", DecimalInt(resp.status) + " " + resp.text))
    ensures NextWord(DecimalInt(resp.status) + " " + resp.text) == Some((DecimalInt(resp.status), resp.text))
    ensures Atoi(DecimalInt(resp.status)) == resp.status
    ensures '\r' !in DecimalInt(resp.status) && '\0' !in DecimalInt(resp.status)
  {
    WordThenSpace("HTTP/1.1", DecimalInt(resp.status) + " " + resp.text);
    NumbersReadBack(if resp.status < 0 then 0 - resp.status else resp.status);
    DecimalIntChars(resp.status);
    WordThenSpace(DecimalInt(resp.status), resp.text);
  }

  lemma {:induction false} DecimalIntChars(n: int)
    ensures var s := DecimalInt(n); s != "" && ' ' !in s && '\r' !in s && '\0' !in s
  {
  }

  lemma {:induction false} ResponseBody(resp: Response)
    requires |resp.body| <= ULONG_MAX
    ensures ReadBody(SentResponseHeaders(resp), resp.body) == Some(resp.body)
      <==> LengthAgrees(resp.headers, resp.body)
  {
    SentResponseLength(resp);
    NumbersReadBack(|resp.body|);
    assert resp.body[..|resp.body|] == resp.body;
  }

  /** Parsing the bytes of a response gives back its status, its text, the headers it was sent
      with and its body exactly when a Content-Length it already had agrees with the body. */
  lemma {:induction false} ResponseRoundTrip(resp: Response)
    requires GoodResponse(resp)
    ensures ParseResponse(ResponseText(resp)) == Some(resp.(headers := SentResponseHeaders(resp)))
      <==> LengthAgrees(resp.headers, resp.body)
  {
    hide Lines, Find, UpToNul, NextWord, AddedHeaders, HasHeader, GetHeader, GoodHeader, Atoi, DecimalInt;
    hide StatusLine, LengthAgrees, ReadBody, ReadBlock;
    var line := StatusLine(resp);
    var sent := SentResponseHeaders(resp);
    AddedAreGood(resp);
    GoodConcat(resp.headers, AddedHeaders(resp));
    AddedSome(resp);
    assert ResponseText(resp) == line + CRLF + Lines(sent) + CRLF + resp.body;
    StatusWords(resp);
    StatusLineChars(resp);
    BlockReads(line, sent, resp.body);
    ResponseBody(resp);
  }

  lemma {:induction false} AddedSome(resp: Response)
    ensures SentResponseHeaders(resp) != []
  {
  }

  lemma {:induction false} StatusLineChars(resp: Response)
    requires GoodResponse(resp)
    ensures '\r' !in StatusLine(resp) && '\0' !in StatusLine(resp)
  {
    DecimalIntChars(resp.status);
    assert '\r' !in "HTTP/1.1" && '\0' !in "HTTP/1.1";
  }
}
