/** UTF-8 as RFC 3629 defines it, independently of how the prompt code measures length. */
module Utf8 {
  import opened Basics

  type Byte = b: int | 0 <= b < 256

  /** A continuation byte with six payload bits. */
  function Tail(bits: nat): (b: Byte)
    requires bits < 64
  {
    0x80 + bits
  }

  function EncodeChar(c: char): seq<Byte> {
    var n := c as int;
    if n < 0x80 then [n]
    else if n < 0x800 then [0xC0 + n / 0x40, Tail(n % 0x40)]
    else if n < 0x1_0000 then [0xE0 + n / 0x1000, Tail(n / 0x40 % 0x40), Tail(n % 0x40)]
    else [0xF0 + n / 0x4_0000, Tail(n / 0x1000 % 0x40), Tail(n / 0x40 % 0x40), Tail(n % 0x40)]
  }

  function Encode(s: string): seq<Byte> {
    if s == [] then [] else EncodeChar(s[0]) + Encode(s[1..])
  }

  /** The first scalar value of a byte string and the number of bytes it takes, read from the
      leading byte. */
  function First(bytes: seq<Byte>): (int, nat) {
    if bytes == [] then (0, 0)
    else
      var b := bytes[0];
      if b < 0xC0 || |bytes| < 2 then (b, 1)
      else if b < 0xE0 || |bytes| < 3 then ((b - 0xC0) * 0x40 + (bytes[1] - 0x80), 2)
      else if b < 0xF0 || |bytes| < 4 then ((b - 0xE0) * 0x1000 + (bytes[1] - 0x80) * 0x40 + (bytes[2] - 0x80), 3)
      else
        ((b - 0xF0) * 0x4_0000 + (bytes[1] - 0x80) * 0x1000 + (bytes[2] - 0x80) * 0x40 + (bytes[3] - 0x80), 4)
  }

  lemma TwoBytes(n: nat, bytes: seq<Byte>)
    requires 0x80 <= n < 0x800 && |bytes| >= 2 && bytes[0] == 0xC0 + n / 0x40 && bytes[1] == 0x80 + n % 0x40
    ensures First(bytes) == (n, 2)
  {
  }

  lemma ThreeBytes(n: nat, bytes: seq<Byte>)
    requires 0x800 <= n < 0x1_0000 && |bytes| >= 3
    requires bytes[0] == 0xE0 + n / 0x1000 && bytes[1] == 0x80 + n / 0x40 % 0x40 && bytes[2] == 0x80 + n % 0x40
    ensures First(bytes) == (n, 3)
  {
    assert n / 0x40 / 0x40 == n / 0x1000;
  }

  lemma FourBytes(n: nat, bytes: seq<Byte>)
    requires 0x1_0000 <= n < 0x11_0000 && |bytes| >= 4
    requires bytes[0] == 0xF0 + n / 0x4_0000 && bytes[1] == 0x80 + n / 0x1000 % 0x40
    requires bytes[2] == 0x80 + n / 0x40 % 0x40 && bytes[3] == 0x80 + n % 0x40
    ensures First(bytes) == (n, 4)
  {
    var a, b := n / 0x40, n / 0x1000;
    assert a / 0x40 == b && b / 0x40 == n / 0x4_0000;
  }

  /** Every character is read back from its bytes, whatever follows. */
  lemma CharReadsBack(c: char, rest: seq<Byte>)
    ensures First(EncodeChar(c) + rest) == (c as int, |EncodeChar(c)|)
  {
    var n, bytes := c as int, EncodeChar(c) + rest;
    if 0x80 <= n < 0x800 {
      TwoBytes(n, bytes);
    } else if 0x800 <= n < 0x1_0000 {
      ThreeBytes(n, bytes);
    } else if 0x1_0000 <= n {
      FourBytes(n, bytes);
    }
  }

  lemma {:induction false} EncodeConcat(a: string, b: string)
    ensures Encode(a + b) == Encode(a) + Encode(b)
  {
    if a == [] {
      assert a + b == b;
    } else {
      EncodeConcat(a[1..], b);
      assert (a + b)[1..] == a[1..] + b;
      Associative(EncodeChar(a[0]), Encode(a[1..]), Encode(b));
    }
  }
}
