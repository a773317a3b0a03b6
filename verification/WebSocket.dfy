/** WebSocket frames (src/stdlib/stdlib_websocket.c; RFC 6455). */
module WebSocket {
  import opened ByteOrder
  import opened Options

  // Bytes are numbers below 256: setting the top bit of a smaller one adds 128, and masking its low
  // bits takes the remainder. Sections 5.2 and 5.3 of the RFC give the format.

  const WS_BUFFER_SIZE: nat := 8192

  /** The sender's buffer for header and payload. */
  const FRAME_BUFFER_SIZE: nat := WS_BUFFER_SIZE + 14

  datatype MessageType = Text | Binary | Close | Ping | Pong

  function OpcodeOf(t: MessageType): Digit {
    match t
    case Text => 1
    case Binary => 2
    case Close => 8
    case Ping => 9
    case Pong => 10
  }

  /** Any other opcode is taken for text. */
  function TypeOf(opcode: Digit): MessageType {
    if opcode == 2 then Binary
    else if opcode == 8 then Close
    else if opcode == 9 then Ping
    else if opcode == 10 then Pong
    else Text
  }

  // ---------- Frames ----------

  /** Exclusive or of the low `n` bits. */
  function XorBits(a: nat, b: nat, n: nat): (r: nat) {
    if n == 0 then 0 else (a + b) % 2 + 2 * XorBits(a / 2, b / 2, n - 1)
  }

  lemma {:induction false} XorBounded(a: nat, b: nat, n: nat)
    ensures XorBits(a, b, n) < Power2(n)
  {
    if n > 0 { XorBounded(a / 2, b / 2, n - 1); }
  }

  function Power2(n: nat): nat {
    if n == 0 then 1 else 2 * Power2(n - 1)
  }

  function Xor(a: Digit, b: Digit): Digit {
    XorBounded(a, b, 8);
    Power8();
    XorBits(a, b, 8)
  }

  lemma {:induction false} Power8()
    ensures Power2(8) == 256
  {
    assert Power2(2) == 4 && Power2(4) == 4 * Power2(2) && Power2(6) == 4 * Power2(4);
  }

  /** The length field: 7 bits, or 16 bits after 126, or 64 bits after 127, high byte first.
      `flag` is the mask bit. */
  function LengthField(n: nat, flag: Digit): (r: seq<Digit>)
    requires flag == 0 || flag == 128
    ensures |r| >= 1
  {
    if n < 126 then [flag + n]
    else if n < 65536 then [flag + 126, n / 256, n % 256]
    else [flag + 127] + Bytes(Swapped(n % TWO_64), 8)
  }

  function Masked(payload: seq<Digit>, mask: seq<Digit>): (r: seq<Digit>)
    requires |mask| == 4
    ensures |r| == |payload|
  {
    seq(|payload|, i requires 0 <= i < |payload| => Xor(payload[i], mask[i % 4]))
  }

  /** A final, unmasked frame, as a server sends it. */
  function Frame(t: MessageType, payload: seq<Digit>): seq<Digit> {
    [128 + OpcodeOf(t)] + LengthField(|payload|, 0) + payload
  }

  /** A final frame masked as section 5.3 asks of clients. */
  function ClientFrame(t: MessageType, payload: seq<Digit>, mask: seq<Digit>): seq<Digit>
    requires |mask| == 4
  {
    [128 + OpcodeOf(t)] + LengthField(|payload|, 128) + (mask + Masked(payload, mask))
  }

  // ---------- Reading a frame ----------

  /** `Garbled` is a frame the decoder does not notice to be cut short: what it returns then
      depends on uninitialised memory. */
  datatype Received =
    | Failed
    | Garbled
    | Received(kind: MessageType, data: seq<Digit>, rest: seq<Digit>)

  function Short(high: int, low: int): nat
    requires 0 <= high && 0 <= low
  {
    high * 256 + low
  }

  /** The length read from the stream and the number of bytes its field takes. */
  function ReadLength(stream: seq<Digit>): (r: Option<(nat, nat)>)
    requires |stream| >= 2
    ensures r.Some? ==> 2 <= r.value.1 <= |stream|
  {
    var n := stream[1] % 128;
    if n == 126 then
      if |stream| < 4 then None else Some((Short(stream[2], stream[3]), 4))
    else if n == 127 then
      if |stream| < 10 then None else Some((Swapped(Number(stream[2..10])), 10))
    else Some((n, 2))
  }

  /** Payloads longer than the buffer are cut, and the rest stays in the stream. */
  function Decode(stream: seq<Digit>): Received {
    if |stream| == 0 then Failed
    else if |stream| == 1 then Garbled
    else
      var length := ReadLength(stream);
      if length.None? then Failed
      else ReadPayloadAt(stream, length.value.0, length.value.1)
  }

  /** The mask, if any, and the `n` bytes of payload from `at` on. */
  function ReadPayloadAt(stream: seq<Digit>, n: nat, at: nat): Received
    requires 2 <= at <= |stream|
  {
    var masked := stream[1] >= 128;
    if masked && |stream| < at + 4 then Failed
    else
      var start := if masked then at + 4 else at;
      var size := if n > WS_BUFFER_SIZE then WS_BUFFER_SIZE else n;
      if |stream| < start + size then Garbled
      else
        var payload := stream[start..start + size];
        Received(TypeOf(stream[0] % 16),
                 if masked then Masked(payload, stream[at..start]) else payload, stream[start + size..])
  }

  // ---------- Round trips ----------

  lemma {:induction false} OpcodeBack(t: MessageType)
    ensures 128 + OpcodeOf(t) < 256 && TypeOf((128 + OpcodeOf(t)) % 16) == t
  {
  }

  /** Every length a frame can carry reads back, at each of the three sizes of its field. */
  lemma {:induction false} LengthReadsBack(first: Digit, n: nat, flag: Digit, tail: seq<Digit>)
    requires n < TWO_64 && (flag == 0 || flag == 128)
    ensures var s := [first] + LengthField(n, flag) + tail;
      ReadLength(s) == Some((n, |LengthField(n, flag)| + 1)) && (s[1] >= 128 <==> flag == 128)
  {
    hide Swapped, Bytes, Number;
    if n >= 65536 { LongLength(first, n, flag, tail); }
  }

  lemma {:induction false} LongLength(first: Digit, n: nat, flag: Digit, tail: seq<Digit>)
    requires 65536 <= n < TWO_64 && (flag == 0 || flag == 128)
    ensures var s := [first] + LengthField(n, flag) + tail;
      ReadLength(s) == Some((n, 10)) && (s[1] >= 128 <==> flag == 128)
  {
    hide Swapped, Bytes, Number;
    var bytes := Bytes(Swapped(n), 8);
    var s := [first] + LengthField(n, flag) + tail;
    assert s == [first, flag + 127] + (bytes + tail);
    LongLengthReadsBack(n);
    LongRead([first, flag + 127], bytes, tail);
  }

  lemma {:induction false} LongRead(front: seq<Digit>, bytes: seq<Digit>, tail: seq<Digit>)
    requires |front| == 2 && |bytes| == 8 && front[1] % 128 == 127
    ensures ReadLength(front + (bytes + tail)) == Some((Swapped(Number(bytes)), 10))
  {
    hide Swapped, Number;
    assert (front + (bytes + tail))[2..10] == bytes;
  }

  lemma {:induction false} LongLengthReadsBack(n: nat)
    requires n < TWO_64
    ensures Swapped(Number(Bytes(Swapped(n), 8))) == n
  {
    Pow8();
    NumberOfBytes(Swapped(n), 8);
    SwappedTwice(n);
  }

  /** The 64-bit length is sent with its high byte first. */
  lemma {:induction false} LongLengthIsBigEndian(n: nat, i: nat)
    requires n < TWO_64 && i < 8
    ensures Bytes(Swapped(n), 8)[i] == n / Pow256(7 - i) % 256
  {
    hide Bytes, Reverse, Pow256, Swapped;
    SwappedBytes(n);
    ReverseAt(Bytes(n, 8), i);
    ByteAt(n, 8, 7 - i);
  }

  lemma {:induction false} ReverseAt(ds: seq<Digit>, i: nat)
    requires i < |ds|
    ensures Reverse(ds)[i] == ds[|ds| - 1 - i]
  {
    if i < |ds| - 1 { ReverseAt(ds[1..], i); }
  }

  lemma {:induction false} MaskedTwice(payload: seq<Digit>, mask: seq<Digit>)
    requires |mask| == 4
    ensures Masked(Masked(payload, mask), mask) == payload
  {
    forall i | 0 <= i < |payload| ensures Masked(Masked(payload, mask), mask)[i] == payload[i] {
      XorTwice(payload[i], mask[i % 4]);
    }
  }

  lemma {:induction false} XorTwice(a: Digit, b: Digit)
    ensures Xor(Xor(a, b), b) == a
  {
    Power8();
    XorBitsTwice(a, b, 8);
  }

  lemma {:induction false} XorBitsTwice(a: nat, b: nat, n: nat)
    requires a < Power2(n)
    ensures XorBits(XorBits(a, b, n), b, n) == a
  {
    if n > 0 {
      XorBitsTwice(a / 2, b / 2, n - 1);
      BitBack(a, b, XorBits(a / 2, b / 2, n - 1));
    }
  }

  lemma {:induction false} BitBack(a: nat, b: nat, x: nat)
    ensures var y := (a + b) % 2 + 2 * x; y / 2 == x && (y + b) % 2 == a % 2
  {
  }

  function Cut(payload: seq<Digit>): seq<Digit> {
    if |payload| > WS_BUFFER_SIZE then payload[..WS_BUFFER_SIZE] else payload
  }

  /** Decoding a sent frame gives its type and its payload, cut to the buffer, and leaves what
      follows in the stream. */
  lemma {:induction false} FrameDecodes(t: MessageType, payload: seq<Digit>, rest: seq<Digit>)
    requires |payload| < TWO_64
    ensures Decode(Frame(t, payload) + rest)
         == Received(t, Cut(payload), payload[|Cut(payload)|..] + rest)
  {
    hide LengthField, ReadLength, ReadPayloadAt;
    var field := LengthField(|payload|, 0);
    var first := 128 + OpcodeOf(t);
    var s := [first] + field + (payload + rest);
    assert Frame(t, payload) + rest == s;
    LengthReadsBack(first, |payload|, 0, payload + rest);
    OpcodeBack(t);
    assert s[|field| + 1..] == payload + rest;
    DecodeRead(s, |payload|, |field| + 1, [], payload, rest);
  }

  /** Decoding once the length is known and `body` follows the mask, if there is one. */
  lemma {:induction false} DecodeRead(s: seq<Digit>, n: nat, at: nat, mask: seq<Digit>, body: seq<Digit>,
          rest: seq<Digit>)
    requires 2 <= at <= |s| && n == |body|
    requires |mask| == if s[1] >= 128 then 4 else 0
    requires s[at..] == mask + (body + rest)
    ensures var cut := Cut(body);
      ReadPayloadAt(s, n, at)
        == Received(TypeOf(s[0] % 16), if mask == [] then cut else Masked(cut, mask), body[|cut|..] + rest)
  {
    hide Masked, ReadPayloadAt;
    var cut := Cut(body);
    assert body + rest == cut + (body[|cut|..] + rest);
    PayloadAt(s, n, at, mask, cut, body[|cut|..] + rest);
  }

  lemma {:induction false} PayloadAt(s: seq<Digit>, n: nat, at: nat, mask: seq<Digit>, data: seq<Digit>,
          rest: seq<Digit>)
    requires 2 <= at <= |s| && |data| == (if n > WS_BUFFER_SIZE then WS_BUFFER_SIZE else n)
    requires |mask| == if s[1] >= 128 then 4 else 0
    requires s[at..] == mask + (data + rest)
    ensures ReadPayloadAt(s, n, at)
         == Received(TypeOf(s[0] % 16), if mask == [] then data else Masked(data, mask), rest)
  {
    hide Masked, TypeOf;
    Slices(s, at, mask, data + rest);
    Slices(s, at + |mask|, data, rest);
  }

  lemma {:induction false} Slices(s: seq<Digit>, at: nat, front: seq<Digit>, back: seq<Digit>)
    requires at <= |s| && s[at..] == front + back
    ensures at + |front| <= |s| && s[at..at + |front|] == front && s[at + |front|..] == back
  {
    assert s[at..at + |front|] == s[at..][..|front|];
    assert s[at + |front|..] == s[at..][|front|..];
  }

  /** Likewise for a masked frame under every mask: the payload comes out unmasked. */
  lemma {:induction false} ClientFrameDecodes(t: MessageType, payload: seq<Digit>, mask: seq<Digit>,
          rest: seq<Digit>)
    requires |payload| < TWO_64 && |mask| == 4
    ensures Decode(ClientFrame(t, payload, mask) + rest)
         == Received(t, Cut(payload), Masked(payload, mask)[|Cut(payload)|..] + rest)
  {
    hide LengthField, ReadLength, ReadPayloadAt, Masked;
    var field := LengthField(|payload|, 128);
    var first := 128 + OpcodeOf(t);
    var hidden := Masked(payload, mask);
    var s := [first] + field + (mask + (hidden + rest));
    assert ClientFrame(t, payload, mask) + rest == s;
    LengthReadsBack(first, |payload|, 128, mask + (hidden + rest));
    OpcodeBack(t);
    assert s[|field| + 1..] == mask + (hidden + rest);
    DecodeRead(s, |payload|, |field| + 1, mask, hidden, rest);
    CutMasked(payload, mask);
  }

  lemma {:induction false} CutMasked(payload: seq<Digit>, mask: seq<Digit>)
    requires |mask| == 4
    ensures Masked(Cut(Masked(payload, mask)), mask) == Cut(payload)
  {
    assert Cut(Masked(payload, mask)) == Masked(Cut(payload), mask);
    MaskedTwice(Cut(payload), mask);
  }

  /** So exactly the payloads that fit the buffer survive, sent either way. */
  lemma {:induction false} PayloadSurvives(t: MessageType, payload: seq<Digit>, mask: seq<Digit>, rest: seq<Digit>)
    requires |payload| < TWO_64 && |mask| == 4
    ensures Decode(Frame(t, payload) + rest) == Received(t, payload, rest) <==> |payload| <= WS_BUFFER_SIZE
    ensures Decode(ClientFrame(t, payload, mask) + rest) == Received(t, payload, rest) <==> |payload| <= WS_BUFFER_SIZE
  {
    FrameDecodes(t, payload, rest);
    ClientFrameDecodes(t, payload, mask, rest);
    if |payload| <= WS_BUFFER_SIZE {
      assert payload[|payload|..] + rest == rest;
      assert Masked(payload, mask)[|payload|..] + rest == rest;
    }
  }

  /** The sender's buffer takes payloads of up to 8202 bytes, ten more than the receiver's. */
  lemma {:induction false} FrameFitsIff(t: MessageType, payload: seq<Digit>)
    ensures |Frame(t, payload)| <= FRAME_BUFFER_SIZE <==> |payload| <= WS_BUFFER_SIZE + 10
  {
    hide Bytes, Swapped;
  }

  // ---------- The endpoint ----------

  class Endpoint {
    var incoming: seq<Digit>
    var outgoing: seq<Digit>

    constructor (incoming: seq<Digit>)
      ensures this.incoming == incoming && outgoing == []
    {
      this.incoming := incoming;
      outgoing := [];
    }

    /** At most `n` bytes of what has arrived. */
    method Recv(n: nat) returns (bytes: seq<Digit>)
      modifies this`incoming
      ensures bytes + incoming == old(incoming)
      ensures |bytes| == if |old(incoming)| < n then |old(incoming)| else n
    {
      var k := if |incoming| < n then |incoming| else n;
      bytes := incoming[..k];
      incoming := incoming[k..];
    }

    /** Puts the frame together in a buffer and sends it. The source copies a payload that does not
        fit behind the buffer; here nothing is sent then. */
    method SendFrame(t: MessageType, data: seq<Digit>) returns (fits: bool)
      requires |data| < TWO_64
      modifies this`outgoing
      ensures fits <==> |Frame(t, data)| <= FRAME_BUFFER_SIZE
      ensures outgoing == if fits then old(outgoing) + Frame(t, data) else old(outgoing)
    {
      var frame := new Digit[FRAME_BUFFER_SIZE](_ => 0);
      var length := WriteHeader(frame, t, |data|);
      fits := length + |data| <= FRAME_BUFFER_SIZE;
      if fits {
        CopyPayload(frame, length, data);
        outgoing := outgoing + frame[..length + |data|];
      }
    }

    static method CopyPayload(frame: array<Digit>, at: nat, data: seq<Digit>)
      requires at + |data| <= frame.Length
      modifies frame
      ensures frame[..at + |data|] == old(frame[..at]) + data
    {
      for i := 0 to |data|
        invariant frame[..at] == old(frame[..at])
        invariant forall k :: 0 <= k < i ==> frame[at + k] == data[k]
      {
        frame[at + i] := data[i];
      }
    }

    static method WriteHeader(frame: array<Digit>, t: MessageType, size: nat) returns (length: nat)
      requires size < TWO_64 && frame.Length == FRAME_BUFFER_SIZE
      modifies frame
      ensures 2 <= length <= 10 && frame[..length] == [128 + OpcodeOf(t)] + LengthField(size, 0)
    {
      frame[0] := 128 + OpcodeOf(t);
      if size < 126 {
        frame[1], length := size, 2;
      } else if size < 65536 {
        frame[1], frame[2], frame[3], length := 126, size / 256, size % 256, 4;
      } else {
        WriteLongLength(frame, size);
        length := 10;
      }
    }

    static method WriteLongLength(frame: array<Digit>, size: nat)
      requires 65536 <= size < TWO_64 && frame.Length == FRAME_BUFFER_SIZE
      modifies frame
      ensures frame[..10] == old(frame[..1]) + LengthField(size, 0)
    {
      hide Swapped, Bytes, Number;
      frame[1] := 127;
      var swapped := Hton64(size);
      var field := Bytes(swapped, 8);
      for i := 0 to 8
        invariant frame[0] == old(frame[0]) && frame[1] == 127
        invariant forall k :: 0 <= k < i ==> frame[2 + k] == field[k]
      {
        frame[2 + i] := field[i];
      }
      assert frame[..10] == old(frame[..1]) + ([127] + field);
    }

    method DecodeFrame() returns (r: Received)
      modifies this`incoming
      ensures r == Decode(old(incoming))
      ensures r.Received? ==> incoming == r.rest
    {
      hide ReadPayloadAt, Swapped;
      ghost var s := incoming;
      var header := Recv(2);
      if |header| == 0 { return Failed; }
      if |header| == 1 { return Garbled; }
      var masked := header[1] >= 128;
      var n := header[1] % 128;
      ghost var at := 2;
      assert s[..2] == header && s[2..] == incoming;
      if n == 126 {
        var more := Recv(2);
        if |more| != 2 { return Failed; }
        assert s[2] == more[0] && s[3] == more[1] && s[4..] == incoming;
        n, at := Short(more[0], more[1]), 4;
      } else if n == 127 {
        var more := Recv(8);
        if |more| != 8 { return Failed; }
        assert s[2..10] == more && s[10..] == incoming;
        Pow8();
        BytesOfNumber(more);
        n := Ntoh64(Number(more));
        at := 10;
      }
      assert ReadLength(s) == Some((n, at)) && s[at..] == incoming;
      r := ReadPayload(header[0], n, masked, s, at);
    }

    /** The mask, if any, and the payload after a header of `at` bytes. */
    method ReadPayload(first: Digit, n: nat, masked: bool, ghost s: seq<Digit>, ghost at: nat) returns (r: Received)
      requires 2 <= at <= |s| && s[0] == first && masked == (s[1] >= 128) && incoming == s[at..]
      modifies this`incoming
      ensures r == ReadPayloadAt(s, n, at)
      ensures r.Received? ==> incoming == r.rest
    {
      hide Masked, TypeOf;
      var mask: seq<Digit> := [];
      assert s[at..] == mask + incoming;
      if masked {
        mask := Recv(4);
        if |mask| != 4 { return Failed; }
      }
      Slices(s, at, mask, incoming);
      var size := if n > WS_BUFFER_SIZE then WS_BUFFER_SIZE else n;
      var payload := Recv(size);
      if |payload| < size { return Garbled; }
      PayloadAt(s, n, at, mask, payload, incoming);
      if masked {
        payload := Unmask(payload, mask);
      }
      r := Received(TypeOf(first % 16), payload, incoming);
    }

    method Unmask(payload: seq<Digit>, mask: seq<Digit>) returns (r: seq<Digit>)
      requires |mask| == 4
      ensures r == Masked(payload, mask)
    {
      var buffer := new Digit[|payload|](i requires 0 <= i < |payload| => payload[i]);
      assert buffer[..] == payload;
      UnmaskInPlace(buffer, mask);
      r := buffer[..];
    }

    method UnmaskInPlace(payload: array<Digit>, mask: seq<Digit>)
      requires |mask| == 4
      modifies payload
      ensures payload[..] == Masked(old(payload[..]), mask)
    {
      for i := 0 to payload.Length
        invariant forall j :: 0 <= j < i ==> payload[j] == Xor(old(payload[j]), mask[j % 4])
        invariant forall j :: i <= j < payload.Length ==> payload[j] == old(payload[j])
      {
        payload[i] := Xor(payload[i], mask[i % 4]);
      }
    }
  }
}
