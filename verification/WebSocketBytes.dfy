/** The bytes of WebSocket frames (src/stdlib/stdlib_websocket.c), against the words and the
    examples of RFC 6455. */
module WebSocketBytes {
  import opened ByteOrder
  import opened WebSocket
  import opened Options

  // ---------- Masking is bitwise ----------

  function Bit(a: nat, i: nat): nat {
    if i == 0 then a % 2 else Bit(a / 2, i - 1)
  }

  lemma {:induction false} BitsOfXor(a: nat, b: nat, n: nat, i: nat)
    requires i < n
    ensures Bit(XorBits(a, b, n), i) == 1 <==> Bit(a, i) != Bit(b, i)
  {
    var x, r := XorBits(a / 2, b / 2, n - 1), XorBits(a, b, n);
    hide XorBits;
    LowBit(a, b, x, r);
    if i > 0 { BitsOfXor(a / 2, b / 2, n - 1, i - 1); }
  }

  lemma {:induction false} LowBit(a: nat, b: nat, x: nat, r: nat)
    requires r == (a + b) % 2 + 2 * x
    ensures r / 2 == x && (r % 2 == 1 <==> a % 2 != b % 2)
  {
  }

  /** Section 5.3: each byte is combined with byte number `i` modulo 4 of the mask, bit by bit. */
  lemma {:induction false} MaskedBits(payload: seq<Digit>, mask: seq<Digit>, i: nat, k: nat)
    requires |mask| == 4 && i < |payload| && k < 8
    ensures Bit(Masked(payload, mask)[i], k) == 1 <==> Bit(payload[i], k) != Bit(mask[i % 4], k)
  {
    BitsOfXor(payload[i], mask[i % 4], 8, k);
  }

  // ---------- Section 5.2 ----------

  /** The first byte of a frame, written out. */
  lemma {:induction false} FirstByte(t: MessageType, payload: seq<Digit>, mask: seq<Digit>)
    requires |mask| == 4
    ensures Frame(t, payload)[0] == ClientFrame(t, payload, mask)[0]
         == match t case Text => 0x81 case Binary => 0x82 case Close => 0x88 case Ping => 0x89 case Pong => 0x8A
  {
  }

  /** Which message the low half of the first byte announces, whatever the other half is. */
  lemma {:induction false} KindOfByte(first: Digit, rest: seq<Digit>)
    ensures Decode([first, 0] + rest)
         == Received(match first % 16 case 2 => Binary case 8 => Close case 9 => Ping case 10 => Pong case _ => Text,
                     [], rest)
  {
    hide TypeOf;
    var s := [first, 0] + rest;
    assert ReadLength(s) == Some((0, 2));
    assert s[2..2] == [] && s[2..] == rest;
    KindOf(first % 16);
  }

  lemma {:induction false} KindOf(code: Digit)
    ensures TypeOf(code) == match code case 2 => Binary case 8 => Close case 9 => Ping case 10 => Pong case _ => Text
  {
  }

  /** Up to 125 bytes the second byte is the length, */
  lemma {:induction false} SmallFrames(t: MessageType, payload: seq<Digit>, mask: seq<Digit>)
    requires |payload| <= 125 && |mask| == 4
    ensures Frame(t, payload)[1..] == [|payload|] + payload
    ensures ClientFrame(t, payload, mask)[1..] == [128 + |payload|] + mask + Masked(payload, mask)
  {
    hide Masked;
  }

  /** up to 65535 it is 126 and two bytes hold the length, the high one first, */
  lemma {:induction false} MiddleFrames(t: MessageType, payload: seq<Digit>, high: Digit, low: Digit)
    requires 126 <= |payload| == high * 256 + low
    ensures Frame(t, payload)[1..] == [126, high, low] + payload
  {
    assert |payload| / 256 == high && |payload| % 256 == low;
  }

  /** and above it is 127 and eight bytes do. */
  lemma {:induction false} LargeFrames(t: MessageType, payload: seq<Digit>, i: nat)
    requires 65536 <= |payload| < TWO_64 && i < 8
    ensures var f := Frame(t, payload);
      |f| == 10 + |payload| && f[1] == 127 && f[10..] == payload && f[2 + i] == |payload| / Pow256(7 - i) % 256
  {
    hide Bytes, Swapped;
    var field := [127] + Bytes(Swapped(|payload|), 8);
    assert LengthField(|payload|, 0) == field;
    assert Frame(t, payload) == [128 + OpcodeOf(t)] + field + payload;
    LongLengthIsBigEndian(|payload|, i);
  }

  /** Streams that end too early: with one byte, inside the length or the mask, and inside the
      payload, which is not noticed. */
  lemma {:induction false} CutStreams(s: seq<Digit>)
    ensures s == [] ==> Decode(s) == Failed
    ensures |s| == 1 ==> Decode(s) == Garbled
    ensures |s| >= 2 && s[1] % 128 == 126 && |s| < 4 ==> Decode(s) == Failed
    ensures |s| >= 2 && s[1] % 128 == 127 && |s| < 10 ==> Decode(s) == Failed
    ensures |s| >= 2 && 128 <= s[1] < 254 && |s| < 6 ==> Decode(s) == Failed
    ensures |s| >= 2 && s[1] < 126 && |s| < 2 + s[1] ==> Decode(s) == Garbled
  {
    hide Swapped, Number, Masked, TypeOf;
  }

  // ---------- Section 5.7 ----------

  function Hello(): seq<Digit> {
    [0x48, 0x65, 0x6c, 0x6c, 0x6f]
  }

  /** The examples with an unmasked "Hello", alone and as the payload of a ping, */
  lemma {:induction false} HelloFrames()
    ensures Frame(Text, Hello()) == [0x81, 0x05, 0x48, 0x65, 0x6c, 0x6c, 0x6f]
    ensures Frame(Ping, Hello()) == [0x89, 0x05, 0x48, 0x65, 0x6c, 0x6c, 0x6f]
  {
    assert LengthField(5, 0) == [5];
    hide LengthField;
    assert Frame(Text, Hello()) == [0x81] + [5] + Hello();
    assert Frame(Ping, Hello()) == [0x89] + [5] + Hello();
  }

  lemma {:induction false} HelloReads(rest: seq<Digit>)
    ensures Decode([0x81, 0x05, 0x48, 0x65, 0x6c, 0x6c, 0x6f] + rest) == Received(Text, Hello(), rest)
  {
    hide Decode, Frame;
    HelloFrames();
    FrameDecodes(Text, Hello(), rest);
    assert Hello()[5..] + rest == rest;
  }

  /** and with 256 and 65536 bytes of binary data. */
  lemma {:induction false} BinaryFrames(payload: seq<Digit>)
    ensures |payload| == 256 ==> Frame(Binary, payload) == [0x82, 0x7E, 0x01, 0x00] + payload
    ensures |payload| == 65536 ==>
      Frame(Binary, payload) == [0x82, 0x7F, 0x00, 0x00, 0x00, 0x00, 0x00, 0x01, 0x00, 0x00] + payload
  {
    if |payload| == 65536 {
      LargePrefix(payload);
    }
  }

  lemma {:induction false} LargePrefix(payload: seq<Digit>)
    requires |payload| == 65536
    ensures Frame(Binary, payload) == [0x82, 0x7F, 0x00, 0x00, 0x00, 0x00, 0x00, 0x01, 0x00, 0x00] + payload
  {
    hide Bytes, Swapped;
    var bytes := Bytes(Swapped(65536), 8);
    var n: nat := 65536;
    assert Pow256(0) == 1 && Pow256(1) == 256 && Pow256(2) == 65536 && Pow256(3) == 16777216;
    assert Pow256(5) == Pow256(3) * 65536 && Pow256(7) == Pow256(5) * 65536;
    assert Pow256(4) == 4294967296 && Pow256(6) == Pow256(5) * 256;
    forall i: nat | i < 8 ensures bytes[i] == if i == 5 then 1 else 0 {
      LongLengthIsBigEndian(65536, i);
    }
    assert bytes == [0, 0, 0, 0, 0, 1, 0, 0];
    assert LengthField(65536, 0) == [127] + bytes;
  }
}
