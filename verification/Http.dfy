/** The message objects of the HTTP client and server and the two parsers, step by step
    (src/stdlib/stdlib_net.c), agreeing with module HttpMessages. */
module Http {
  import opened Options
  import opened CText
  import opened HttpMessages

  /** Searches the headers as the builders do, one by one. */
  method FindHeader(headers: seq<Header>, name: string) returns (value: Option<string>)
    ensures value == GetHeader(headers, name)
  {
    var i := 0;
    while i < |headers|
      invariant i <= |headers|
      invariant GetHeader(headers, name) == GetHeader(headers[i..], name)
    {
      assert headers[i..][0] == headers[i] && headers[i..][1..] == headers[i + 1..];
      if SameName(headers[i].name, name) { return Some(headers[i].value); }
      i := i + 1;
    }
    value := None;
  }

  /** Appends a header unless the caller already has one of that name. */
  method WithDefault(front: seq<Header>, headers: seq<Header>, name: string, value: string) returns (r: seq<Header>)
    ensures r == front + Default(headers, name, value)
  {
    hide HasHeader, GetHeader, SameName;
    var found := FindHeader(headers, name);
    r := if found.None? then front + [Header(name, value)] else front;
  }

  // The head of a message is formatted into a buffer of a size fixed beforehand. The source does not
  // look at what snprintf answers: once a piece does not fit, with the zero behind it, it goes on
  // behind the buffer and sends what it finds there. Here the message is lost then.

  function Fit(text: string, cap: nat): Option<string> {
    if |text| < cap then Some(text) else None
  }

  method Format(front: Option<string>, text: string, cap: nat) returns (out: Option<string>)
    ensures out == if front.None? then None else Fit(front.value + text, cap)
  {
    if front.None? || |front.value| + |text| >= cap { return None; }
    out := Some(front.value + text);
  }

  method WriteLines(front: Option<string>, headers: seq<Header>, cap: nat) returns (out: Option<string>)
    requires front.Some? ==> |front.value| < cap
    ensures out == if front.None? then None else Fit(front.value + Lines(headers), cap)
  {
    hide LineOf;
    if front.None? { return None; }
    out := front;
    assert headers[0..] == headers;
    for i := 0 to |headers|
      invariant out.Some? && |out.value| < cap && out.value + Lines(headers[i..]) == front.value + Lines(headers)
    {
      assert headers[i..][0] == headers[i] && headers[i..][1..] == headers[i + 1..];
      var line, before := LineOf(headers[i]) + CRLF, out.value;
      assert before + (line + Lines(headers[i + 1..])) == (before + line) + Lines(headers[i + 1..]);
      out := Format(out, line, cap);
      if out.None? { return None; }
    }
    assert Lines(headers[|headers|..]) == "" && out.value + "" == out.value;
  }

  /** The start line, the header lines and the blank line. */
  method WriteHead(start: string, headers: seq<Header>, cap: nat) returns (out: Option<string>)
    ensures out == Fit(start + CRLF + Lines(headers) + CRLF, cap)
  {
    var line := Format(Some(""), start + CRLF, cap);
    assert "" + (start + CRLF) == start + CRLF;
    var block := WriteLines(line, headers, cap);
    out := Format(block, CRLF, cap);
  }

  function RequestCap(req: Request): nat {
    256 + |req.headers| * 64 + |req.body|
  }

  function ResponseCap(resp: Response): nat {
    256 + |SentResponseHeaders(resp)| * 64
  }

  /** Without headers and a body, a path of 256 characters does not fit. */
  lemma {:induction false} LongPathDoesNotFit(req: Request)
    requires |req.path| >= 256 && req.headers == [] && req.body == ""
    ensures |RequestHead(req)| >= RequestCap(req)
  {
    hide Lines, SentHeaders;
  }

  class ClientRequest {
    var verb: string
    var host: string
    var port: nat
    var path: string
    var headers: seq<Header>
    var body: string

    constructor (verb: string, host: string, port: nat, path: string)
      ensures Value() == Request(verb, host, port, path, [], "")
    {
      this.verb, this.host, this.port, this.path := verb, host, port, path;
      headers := [];
      body := "";
    }

    function Value(): Request
      reads this
    {
      Request(verb, host, port, path, headers, body)
    }

    method AddHeader(name: string, value: string)
      modifies this`headers
      ensures headers == old(headers) + [Header(name, value)]
    {
      headers := headers + [Header(name, value)];
    }

    /** A non-empty body announces its length, so the first body set always agrees. */
    method SetBody(newBody: string)
      requires |newBody| <= ULONG_MAX
      modifies this`headers, this`body
      ensures body == newBody
      ensures headers == old(headers)
        + if newBody == "" then [] else [Header("Content-Length", Decimal(|newBody|))]
      ensures !HasHeader(old(headers), "Content-Length") ==> LengthAgrees(headers, body)
    {
      body := newBody;
      if |body| > 0 {
        AddHeader("Content-Length", Decimal(|body|));
      }
      if !HasHeader(old(headers), "Content-Length") {
        NumbersReadBack(|newBody|);
        GetHeaderSkips(old(headers), headers[|old(headers)|..], "Content-Length");
        assert headers == old(headers) + headers[|old(headers)|..];
        IsLength();
      }
    }

    /** Defaults for the headers the caller left out, then the caller's own. */
    method CompleteHeaders() returns (sent: seq<Header>)
      ensures sent == SentHeaders(Value())
    {
      hide HasHeader, Default;
      sent := WithDefault([], headers, "Host", host + ":" + Decimal(port));
      sent := WithDefault(sent, headers, "User-Agent", "RADS/1.0");
      sent := WithDefault(sent, headers, "Connection", "close");
      assert sent == Defaults(Value());
      ghost var front := sent;
      if |body| > 0 {
        sent := WithDefault(sent, headers, "Content-Length", Decimal(|body|));
      }
      assert sent == front + OwnLength(Value());
      assert (front + OwnLength(Value())) + headers == front + (OwnLength(Value()) + headers);
      sent := sent + headers;
    }

    /** The bytes of the request, if the head fits its buffer. */
    method Build() returns (out: Option<string>)
      ensures out == if |RequestHead(Value())| < RequestCap(Value()) then Some(RequestText(Value())) else None
    {
      hide Lines, SentHeaders;
      var sent := CompleteHeaders();
      var head := WriteHead(verb + " " + (path + " " + "HTTP/1.1"), sent, 256 + |headers| * 64 + |body|);
      out := if head.Some? then Some(head.value + body) else None;
    }
  }

  class ServerResponse {
    var status: int
    var text: string
    var headers: seq<Header>
    var body: string

    constructor (status: int, text: string)
      ensures Value() == Response(status, text, [], "")
    {
      this.status, this.text := status, text;
      headers := [];
      body := "";
    }

    function Value(): Response
      reads this
    {
      Response(status, text, headers, body)
    }

    method AddHeader(name: string, value: string)
      modifies this`headers
      ensures headers == old(headers) + [Header(name, value)]
    {
      headers := headers + [Header(name, value)];
    }

    method SetBody(newBody: string, contentType: Option<string>)
      modifies this`headers, this`body
      ensures body == newBody
      ensures headers == old(headers)
        + if contentType.None? then [] else [Header("Content-Type", contentType.value)]
    {
      body := newBody;
      if contentType.Some? {
        AddHeader("Content-Type", contentType.value);
      }
    }

    /** Building completes the headers of the response itself; there are bytes if the head fits. */
    method Build() returns (out: Option<string>)
      modifies this`headers
      ensures headers == SentResponseHeaders(old(Value()))
      ensures var was := old(Value());
        out == if |ResponseHead(was)| < ResponseCap(was) then Some(ResponseText(was)) else None
    {
      hide Lines, GetHeader, SameName;
      ghost var was := Value();
      var length := FindHeader(headers, "Content-Length");
      if length.None? { AddHeader("Content-Length", Decimal(|body|)); }
      ghost var own := Default(was.headers, "Content-Length", Decimal(|body|));
      assert headers == was.headers + own;
      ServerIsOther(was.headers, own);
      var server := FindHeader(headers, "Server");
      if server.None? { AddHeader("Server", "RADS/1.0"); }
      AddHeader("Connection", "close");
      assert headers == SentResponseHeaders(was);
      var head := WriteHead("HTTP/1.1" + " " + (DecimalInt(status) + " " + text), headers, 256 + |headers| * 64);
      out := if head.Some? then Some(head.value + body) else None;
    }
  }

  /** A Content-Length behind the headers does not hide that Server is missing. */
  lemma {:induction false} ServerIsOther(headers: seq<Header>, own: seq<Header>)
    requires |own| <= 1 && forall i :: 0 <= i < |own| ==> own[i].name == "Content-Length"
    ensures HasHeader(headers + own, "Server") <==> HasHeader(headers, "Server")
  {
    assert |"Server"| == 6 && |"Content-Length"| == 14;
    assert !SameName("Content-Length", "Server");
    if HasHeader(headers, "Server") {
      var i :| 0 <= i < |headers| && SameName(headers[i].name, "Server");
      assert (headers + own)[i] == headers[i];
    }
  }

  /** The header on one line, if it has a colon. */
  method ReadHeaderLine(line: string) returns (h: Option<Header>)
    ensures ParseHeaderLine(line) == if h.None? then [] else [h.value]
  {
    var sep := IndexOf(line, ':');
    h := if sep < |line| then Some(Header(line[..sep], SkipBlank(line[sep + 1..]))) else None;
  }

  lemma {:induction false} HeadersGrow(text: string, cursor: nat, end: nat, eol: nat, headers: seq<Header>)
    requires cursor < end && end + 2 <= |text| && Find(text[cursor..], CRLF) == Some(eol) && cursor + eol <= end
    ensures headers + ParseHeaders(text, cursor, end)
         == (headers + ParseHeaderLine(text[cursor..cursor + eol])) + ParseHeaders(text, cursor + eol + 2, end)
  {
    hide ParseHeaderLine, Find;
  }

  /** Reads the lines up to the line end at `end`. */
  method ReadHeaderLines(text: string, start: nat, end: nat) returns (headers: seq<Header>)
    requires start <= end + 2 && end + 2 <= |text|
    ensures headers == ParseHeaders(text, start, end)
  {
    hide Find, ParseHeaderLine;
    headers := [];
    var cursor := start;
    while cursor < end
      invariant cursor <= |text|
      invariant ParseHeaders(text, start, end) == headers + ParseHeaders(text, cursor, end)
      decreases end - cursor
    {
      var eol := Find(text[cursor..], CRLF);
      if eol.None? || cursor + eol.value > end {
        assert ParseHeaders(text, cursor, end) == [];
        return;
      }
      HeadersGrow(text, cursor, end, eol.value, headers);
      var h := ReadHeaderLine(text[cursor..cursor + eol.value]);
      headers := headers + if h.Some? then [h.value] else [];
      cursor := cursor + eol.value + 2;
    }
  }

  /** The headers and the body after the first line, which ends before `start`. */
  method ReadRest(data: string, text: string, start: nat) returns (r: Option<(seq<Header>, Option<string>)>)
    requires text == UpToNul(data) && start <= |text|
    ensures var block := ReadBlock(data, start);
      r == if block.None? then None
           else Some((block.value.headers, ReadBody(block.value.headers, block.value.rest)))
  {
    hide ParseHeaders;
    var blank := Find(text[start..], BLANK);
    if blank.None? { return None; }
    var end := start + blank.value;
    var headers := ReadHeaderLines(text, start, end);
    var rest := data[end + 4..];
    var cl := FindHeader(headers, "Content-Length");
    var body: Option<string> := None;
    if cl.Some? {
      var n := Strtoul(cl.value);
      if n <= |rest| { body := Some(rest[..n]); }
    } else if |rest| > 0 {
      body := Some(rest);
    }
    r := Some((headers, body));
  }

  method ReadRequest(data: string) returns (r: Option<ParsedRequest>)
    ensures r == ParseRequest(data)
  {
    hide ReadBlock, ReadBody, NextWord;
    if |data| == 0 { return None; }
    var text := UpToNul(data);
    var eol := Find(text, CRLF);
    if eol.None? { return None; }
    var verb := NextWord(text[..eol.value]);
    if verb.None? { return None; }
    var target := NextWord(verb.value.1);
    if target.None? { return None; }
    var version := NextWord(target.value.1);
    if version.None? { return None; }
    var path, query := target.value.0, None;
    var q := IndexOf(path, '?');
    if q < |path| {
      query := Some(path[q + 1..]);
      path := path[..q];
    }
    var rest := ReadRest(data, text, eol.value + 2);
    if rest.None? { return None; }
    r := Some(ParsedRequest(verb.value.0, path, query, version.value.0, rest.value.0, rest.value.1));
  }

  method ReadResponse(data: string) returns (r: Option<Response>)
    ensures r == ParseResponse(data)
  {
    hide ReadBlock, ReadBody, NextWord;
    if |data| == 0 { return None; }
    var text := UpToNul(data);
    var eol := Find(text, CRLF);
    if eol.None? { return None; }
    var version := NextWord(text[..eol.value]);
    if version.None? { return None; }
    var code := NextWord(version.value.1);
    if code.None? { return None; }
    var rest := ReadRest(data, text, eol.value + 2);
    if rest.None? || rest.value.1.None? { return None; }
    r := Some(Response(Atoi(code.value.0), code.value.1, rest.value.0, rest.value.1.value));
  }

  /** Setting a second body leaves the first length in front, and the server then drops or
      cuts the body. */
  lemma {:induction false} SecondBodyIsLost(first: string, second: string)
    requires 0 < |first| <= ULONG_MAX && 0 < |second| <= ULONG_MAX && |first| != |second|
    ensures var headers := [Header("Content-Length", Decimal(|first|)), Header("Content-Length", Decimal(|second|))];
      var req := Request("POST", "h", 80, "/", headers, second);
      GoodRequest(req) && var r := ParseRequest(RequestText(req)); r.Some? && BodyText(r.value.body) != second
  {
    var one, two := Header("Content-Length", Decimal(|first|)), Header("Content-Length", Decimal(|second|));
    var req := Request("POST", "h", 80, "/", [one, two], second);
    LengthIsGood(|first|);
    LengthIsGood(|second|);
    assert IsWord("POST") && IsWord("/");
    FirstLengthCounts(one, two);
    NumbersReadBack(|first|);
    hide ParseRequest, RequestText, SentHeaders, GetHeader, GoodHeader, Strtoul, Decimal;
    RequestRoundTrip(req);
  }

  lemma {:induction false} FirstLengthCounts(one: Header, two: Header)
    requires one.name == "Content-Length"
    ensures GetHeader([one, two], "Content-Length") == Some(one.value)
  {
    IsLength();
  }
}
