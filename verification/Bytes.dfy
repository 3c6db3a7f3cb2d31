/**
 Bytes, fixed-width integers and the conversions the packet code uses.
 Integers are mathematical; every width, wrap-around and cast is explicit.
 */
module Bytes {

  type byte = b: int | 0 <= b < 0x100
  type u16 = n: int | 0 <= n < 0x1_0000
  type u32 = n: int | 0 <= n < 0x1_0000_0000

  const TWO_TO_THE_32: int := 0x1_0000_0000

  datatype Option<+T> = None | Some(value: T)

  /** Addition, subtraction and casts of `u32` values: everything modulo 2^32. */
  function Wrap32(n: int): u32 {
    n % TWO_TO_THE_32
  }

  /** `overflowing_sub(..).0` on two `u32` values. */
  function Diff32(a: u32, b: u32): u32 {
    Wrap32(a - b)
  }

  /** Big-endian ("network order") images. */
  function Be16(n: u16): (s: seq<byte>)
    ensures |s| == 2
  {
    [n / 0x100, n % 0x100]
  }

  function Be32(n: u32): (s: seq<byte>)
    ensures |s| == 4
  {
    Be16(n / 0x1_0000) + Be16(n % 0x1_0000)
  }

  function Word(high: byte, low: byte): u16 {
    high as int * 0x100 + low
  }

  function FromBe16(s: seq<byte>): u16
    requires |s| == 2
  {
    Word(s[0], s[1])
  }

  function FromBe32(s: seq<byte>): u32
    requires |s| == 4
  {
    Word(s[0], s[1]) as int * 0x1_0000 + Word(s[2], s[3])
  }

  /** The host's byte order; `from_ne_bytes` and `to_ne_bytes` depend on it. */
  datatype ByteOrder = Little | Big

  function Ne16(order: ByteOrder, n: u16): (s: seq<byte>)
    ensures |s| == 2
  {
    if order.Big? then Be16(n) else [n % 0x100, n / 0x100]
  }

  function Ne32(order: ByteOrder, n: u32): (s: seq<byte>)
    ensures |s| == 4
  {
    if order.Big? then Be32(n)
    else Ne16(order, n % 0x1_0000) + Ne16(order, n / 0x1_0000)
  }

  function FromNe16(order: ByteOrder, s: seq<byte>): u16
    requires |s| == 2
  {
    if order.Big? then FromBe16(s) else FromBe16([s[1], s[0]])
  }

  function FromNe32(order: ByteOrder, s: seq<byte>): u32
    requires |s| == 4
  {
    if order.Big? then FromBe32(s) else FromBe32([s[3], s[2], s[1], s[0]])
  }

  lemma Be16RoundTrip(n: u16)
    ensures FromBe16(Be16(n)) == n
  {
  }

  lemma Be32RoundTrip(n: u32)
    ensures FromBe32(Be32(n)) == n
  {
    Be16RoundTrip(n / 0x1_0000);
    Be16RoundTrip(n % 0x1_0000);
  }

  lemma Be16Unique(s: seq<byte>)
    requires |s| == 2
    ensures Be16(FromBe16(s)) == s
  {
  }

  lemma Ne16RoundTrip(order: ByteOrder, n: u16)
    ensures FromNe16(order, Ne16(order, n)) == n
  {
  }

  lemma Ne32RoundTrip(order: ByteOrder, n: u32)
    ensures FromNe32(order, Ne32(order, n)) == n
  {
    Be32RoundTrip(n);
  }

  /** What the bytes of a field are worth, the first one most. */
  function Pair(a: int, b: int): int { 256 * a + b }

  function Quad(a: int, b: int, c: int, d: int): int { 16777216 * a + 65536 * b + 256 * c + d }

  lemma Weights16(order: ByteOrder, s: seq<byte>)
    requires |s| == 2
    ensures FromBe16(s) == Pair(s[0], s[1])
    ensures FromNe16(order, s) == if order.Little? then Pair(s[1], s[0]) else Pair(s[0], s[1])
  {
  }

  lemma Weights32(order: ByteOrder, s: seq<byte>)
    requires |s| == 4
    ensures FromBe32(s) == Quad(s[0], s[1], s[2], s[3])
    ensures FromNe32(order, s) == if order.Little? then Quad(s[3], s[2], s[1], s[0]) else Quad(s[0], s[1], s[2], s[3])
  {
  }

  lemma Halves(high: u16, low: u16)
    ensures (high as int * 0x1_0000 + low) / 0x1_0000 == high && (high as int * 0x1_0000 + low) % 0x1_0000 == low
  {
  }

  lemma Be32Unique(s: seq<byte>)
    requires |s| == 4
    ensures Be32(FromBe32(s)) == s
  {
    Be16Unique(s[..2]);
    Be16Unique(s[2..]);
    Halves(FromBe16(s[..2]), FromBe16(s[2..]));
    hide Be16, Word;
    assert FromBe32(s) == FromBe16(s[..2]) as int * 0x1_0000 + FromBe16(s[2..]);
    assert s == s[..2] + s[2..];
  }

  lemma Ne32Unique(order: ByteOrder, s: seq<byte>)
    requires |s| == 4
    ensures Ne32(order, FromNe32(order, s)) == s
  {
    Be32Unique(if order.Big? then s else [s[3], s[2], s[1], s[0]]);
  }

  lemma SliceOfSlice(s: seq<byte>, a: nat, b: nat, i: nat, j: nat)
    requires a <= b <= |s| && i <= j <= b - a
    ensures s[a..b][i..j] == s[a + i..a + j]
  {
    forall k | 0 <= k < j - i
      ensures s[a..b][i..j][k] == s[a + i..a + j][k]
    {
      assert s[a..b][i + k] == s[a + i + k];
    }
  }
}
