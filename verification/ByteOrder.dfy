/** Byte order of 64-bit lengths (src/stdlib/stdlib_websocket.c, hton64 and ntoh64). The host is
    little-endian, so both conversions reverse the bytes of their argument. Where the C code joins
    bits that do not overlap, the numbers are added here; a byte taken out by shifting and masking
    is a quotient's remainder. */
module ByteOrder {

  const TWO_64: nat := 0x1_0000_0000_0000_0000

  type Digit = x: int | 0 <= x < 256

  function Pow256(n: nat): (p: nat)
    ensures p > 0
  {
    if n == 0 then 1 else 256 * Pow256(n - 1)
  }

  /** The low `n` bytes of `v`, the lowest first: how a little-endian host stores them. */
  function Bytes(v: nat, n: nat): (r: seq<Digit>)
    ensures |r| == n
  {
    if n == 0 then [] else [v % 256] + Bytes(v / 256, n - 1)
  }

  function Number(ds: seq<Digit>): nat {
    if ds == [] then 0 else ds[0] + 256 * Number(ds[1..])
  }

  function Reverse(ds: seq<Digit>): (r: seq<Digit>)
    ensures |r| == |ds|
  {
    if ds == [] then [] else Reverse(ds[1..]) + [ds[0]]
  }

  lemma {:induction false} NumberOfBytes(v: nat, n: nat)
    requires v < Pow256(n)
    ensures Number(Bytes(v, n)) == v
  {
    if n > 0 {
      NumberOfBytes(v / 256, n - 1);
      assert Bytes(v, n)[1..] == Bytes(v / 256, n - 1);
    }
  }

  lemma {:induction false} BytesOfNumber(ds: seq<Digit>)
    ensures Bytes(Number(ds), |ds|) == ds && Number(ds) < Pow256(|ds|)
  {
    if ds != [] {
      BytesOfNumber(ds[1..]);
      LowDigit(ds[0], Number(ds[1..]));
      assert Pow256(|ds|) == 256 * Pow256(|ds| - 1);
      assert ds == [ds[0]] + ds[1..];
    }
  }

  lemma {:induction false} LowDigit(d: Digit, rest: nat)
    ensures (d + 256 * rest) % 256 == d && (d + 256 * rest) / 256 == rest
  {
  }

  lemma {:induction false} ReverseSnoc(ds: seq<Digit>, d: Digit)
    ensures Reverse(ds + [d]) == [d] + Reverse(ds)
  {
    if ds != [] {
      assert (ds + [d])[1..] == ds[1..] + [d];
      ReverseSnoc(ds[1..], d);
    }
  }

  lemma {:induction false} ReverseTwice(ds: seq<Digit>)
    ensures Reverse(Reverse(ds)) == ds
  {
    if ds != [] {
      ReverseTwice(ds[1..]);
      ReverseSnoc(Reverse(ds[1..]), ds[0]);
    }
  }

  /** The number whose bytes are those of `v` the other way round. */
  function Swapped(v: nat): (r: nat)
    ensures r < TWO_64
  {
    Pow8();
    BytesOfNumber(Reverse(Bytes(v, 8)));
    Number(Reverse(Bytes(v, 8)))
  }

  lemma {:induction false} Pow8()
    ensures Pow256(8) == TWO_64
  {
    assert Pow256(1) == 256;
    assert Pow256(2) == 65536;
    assert Pow256(3) == 256 * Pow256(2);
    assert Pow256(4) == 256 * Pow256(3);
    assert Pow256(5) == 256 * Pow256(4);
    assert Pow256(6) == 256 * Pow256(5);
    assert Pow256(7) == 256 * Pow256(6);
  }

  /** Swapping twice is the identity on 64-bit values, so each conversion inverts the other. */
  lemma {:induction false} SwappedTwice(v: nat)
    requires v < TWO_64
    ensures Swapped(Swapped(v)) == v
  {
    Pow8();
    var ds := Reverse(Bytes(v, 8));
    BytesOfNumber(ds);
    ReverseTwice(Bytes(v, 8));
    NumberOfBytes(v, 8);
  }

  /** The stored bytes of a swapped value are those of the value, the highest first. */
  lemma {:induction false} SwappedBytes(v: nat)
    ensures Bytes(Swapped(v), 8) == Reverse(Bytes(v, 8))
  {
    BytesOfNumber(Reverse(Bytes(v, 8)));
  }

  lemma {:induction false} ByteAt(v: nat, n: nat, i: nat)
    requires i < n
    ensures Bytes(v, n)[i] == v / Pow256(i) % 256
  {
    if i > 0 {
      ByteAt(v / 256, n - 1, i - 1);
      DivTwice(v, Pow256(i - 1));
    }
  }

  lemma {:induction false} DivTwice(v: nat, p: nat)
    requires p > 0
    ensures v / 256 / p == v / (256 * p)
  {
    var q := v / (256 * p);
    var r := v % (256 * p);
    assert v == 256 * (p * q) + r;
    assert v / 256 == p * q + r / 256;
    assert 0 <= r / 256 < p;
    DivIs(v / 256, p, q, r / 256);
  }

  lemma {:induction false} DivIs(v: nat, p: nat, q: nat, r: nat)
    requires p > 0 && v == p * q + r && r < p
    ensures v / p == q
  {
    var d := v / p;
    assert v == p * d + v % p;
    assert p * (q - d) == v % p - r;
    MultipleIsFar(p, q - d);
  }

  lemma {:induction false} MultipleIsFar(p: int, x: int)
    requires p > 0
    ensures x >= 1 ==> p * x >= p
    ensures x <= -1 ==> p * x <= -p
  {
    if x >= 1 { assert p * (x - 1) >= 0; }
    if x <= -1 { assert p * (-1 - x) >= 0; }
  }

  lemma {:induction false} ReversedPrefix(v: nat, i: nat)
    requires i < 8
    ensures var d := v / Pow256(i) % 256;
      Number(Reverse(Bytes(v, 8)[..i + 1])) == d + 256 * Number(Reverse(Bytes(v, 8)[..i]))
  {
    var ds := Bytes(v, 8);
    ByteAt(v, 8, i);
    assert ds[..i + 1] == ds[..i] + [ds[i]];
    ReverseSnoc(ds[..i], ds[i]);
    assert ([ds[i]] + Reverse(ds[..i]))[1..] == Reverse(ds[..i]);
  }

  method Ntoh64(value: nat) returns (result: nat)
    requires value < TWO_64
    ensures result == Swapped(value)
  {
    result := 0;
    var p := 1;
    for i := 0 to 8
      invariant p == Pow256(i)
      invariant result == Number(Reverse(Bytes(value, 8)[..i]))
    {
      ReversedPrefix(value, i);
      result := result * 256 + value / p % 256;
      p := 256 * p;
    }
    assert Bytes(value, 8)[..8] == Bytes(value, 8);
  }

  method Hton64(value: nat) returns (result: nat)
    requires value < TWO_64
    ensures result == Swapped(value)
  {
    hide Bytes, Number, Reverse;
    result := 0;
    assert Bytes(value, 8)[..0] == [] && Number(Reverse([])) == 0 by { EmptyNumber(); }
    for i := 0 to 8
      invariant result == Pow256(8 - i) * Number(Reverse(Bytes(value, 8)[..i]))
    {
      PlacedPrefix(value, i);
      result := result + value / Pow256(i) % 256 * Pow256(7 - i);
    }
    assert Bytes(value, 8)[..8] == Bytes(value, 8);
  }

  lemma {:induction false} EmptyNumber()
    ensures Number(Reverse([])) == 0
  {
  }

  lemma {:induction false} PlacedPrefix(v: nat, i: nat)
    requires i < 8
    ensures Pow256(8 - i) * Number(Reverse(Bytes(v, 8)[..i])) + v / Pow256(i) % 256 * Pow256(7 - i)
         == Pow256(7 - i) * Number(Reverse(Bytes(v, 8)[..i + 1]))
  {
    hide Bytes, Number, Reverse;
    ReversedPrefix(v, i);
    var n, d, p := Number(Reverse(Bytes(v, 8)[..i])), v / Pow256(i) % 256, Pow256(7 - i);
    assert Pow256(8 - i) == 256 * p;
    Distribute(p, n, d);
  }

  lemma {:induction false} Distribute(p: nat, n: nat, d: nat)
    ensures 256 * p * n + d * p == p * (d + 256 * n)
  {
  }
}
