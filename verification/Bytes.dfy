/** Bytes, little-endian words and the fixed-width names of a directory entry. */
module Bytes {

  type byte = x: int | 0 <= x < 0x100
  type u16 = x: int | 0 <= x < 0x1_0000
  type u32 = x: int | 0 <= x < 0x1_0000_0000

  type Name = s: seq<byte> | |s| == 8 witness seq(8, _ => 0)
  type Ext = s: seq<byte> | |s| == 3 witness seq(3, _ => 0)

  const ZERO_NAME: Name := [0, 0, 0, 0, 0, 0, 0, 0]
  const ZERO_EXT: Ext := [0, 0, 0]

  function Zeros(n: nat): (s: seq<byte>)
    ensures |s| == n
  {
    seq(n, _ => 0)
  }

  function Encode16(w: u16): (s: seq<byte>)
    ensures |s| == 2
  {
    [w % 0x100, w / 0x100]
  }

  function Encode32(w: u32): (s: seq<byte>)
    ensures |s| == 4
  {
    Encode16(w % 0x1_0000) + Encode16(w / 0x1_0000)
  }

  /** The number whose bytes these are, the lowest first. */
  function Number(s: seq<byte>): (n: nat)
    ensures |s| == 0 ==> n == 0
    ensures |s| == 1 ==> n < 0x100
    ensures |s| == 2 ==> n < 0x1_0000
    ensures |s| == 3 ==> n < 0x100_0000
    ensures |s| == 4 ==> n < 0x1_0000_0000
  {
    if s == [] then 0 else s[0] as int + 0x100 * Number(s[1..])
  }

  function Decode16(s: seq<byte>): u16
    requires |s| == 2
  {
    Number(s)
  }

  function Decode32(s: seq<byte>): u32
    requires |s| == 4
  {
    Number(s)
  }

  lemma ByteOf(x: int, q: int, r: int)
    requires x == 0x100 * q + r && 0 <= r < 0x100
    ensures x / 0x100 == q && x % 0x100 == r
  {
  }

  lemma TopByte(x: int, q: int, r: int)
    requires x == 0x100_0000 * q + r && 0 <= r < 0x100_0000
    ensures x / 0x100_0000 == q
  {
  }

  lemma LowestFirst(w: u32)
    ensures Encode32(w) == [w % 0x100, w / 0x100 % 0x100, w / 0x1_0000 % 0x100, w / 0x100_0000]
  {
    var lo, hi := w % 0x1_0000, w / 0x1_0000;
    assert w == 0x1_0000 * hi + lo;
    ByteOf(w, 0x100 * hi + lo / 0x100, lo % 0x100);
    ByteOf(0x100 * hi + lo / 0x100, hi, lo / 0x100);
    TopByte(w, hi / 0x100, 0x1_0000 * (hi % 0x100) + lo);
  }

  lemma NumberOfTwo(s: seq<byte>)
    requires |s| == 2
    ensures Number(s) == s[0] as int + 0x100 * (s[1] as int)
  {
    assert Number(s[1..]) == s[1] as int + 0x100 * Number(s[1..][1..]);
  }

  lemma NumberOfFour(s: seq<byte>)
    requires |s| == 4
    ensures Number(s) == Number(s[..2]) + 0x1_0000 * Number(s[2..])
  {
    NumberOfTwo(s[..2]);
    assert s[1..][1..] == s[2..];
    assert Number(s[1..]) == s[1] as int + 0x100 * Number(s[2..]);
  }

  lemma Decode16OfEncode(w: u16)
    ensures Decode16(Encode16(w)) == w
  {
    NumberOfTwo(Encode16(w));
  }

  lemma Encode16OfDecode(s: seq<byte>)
    requires |s| == 2
    ensures Encode16(Decode16(s)) == s
  {
    NumberOfTwo(s);
    assert (s[0] as int + 0x100 * (s[1] as int)) % 0x100 == s[0];
  }

  lemma Decode32OfEncode(w: u32)
    ensures Decode32(Encode32(w)) == w
  {
    NumberOfFour(Encode32(w));
    assert Encode32(w)[..2] == Encode16(w % 0x1_0000);
    assert Encode32(w)[2..] == Encode16(w / 0x1_0000);
    Decode16OfEncode(w % 0x1_0000);
    Decode16OfEncode(w / 0x1_0000);
  }

  lemma HalvesOf(x: int, lo: int, hi: int)
    requires x == lo + 0x1_0000 * hi && 0 <= lo < 0x1_0000
    ensures x % 0x1_0000 == lo && x / 0x1_0000 == hi
  {
  }

  lemma Encode32OfDecode(s: seq<byte>)
    requires |s| == 4
    ensures Encode32(Decode32(s)) == s
  {
    hide Encode16;
    NumberOfFour(s);
    Encode16OfDecode(s[..2]);
    Encode16OfDecode(s[2..]);
    HalvesOf(Number(s), Number(s[..2]), Number(s[2..]));
    assert s == s[..2] + s[2..];
  }
}
