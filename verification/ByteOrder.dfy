/** Big-endian words in memory: what `htobe32`/`be32toh` and their 64-bit forms do to the bytes. */
module ByteOrder {
  import opened Bits

  datatype Host = LittleEndian | BigEndian

  type Bytes4 = b: seq<u8> | |b| == 4 witness [0, 0, 0, 0]
  type Bytes8 = b: seq<u8> | |b| == 8 witness [0, 0, 0, 0, 0, 0, 0, 0]

  /** The bytes of a word, most significant first. */
  function Be32(x: u32): Bytes4 {
    [x / 0x100_0000, x / 0x1_0000 % 0x100, x / 0x100 % 0x100, x % 0x100]
  }

  function FromBe32(b: Bytes4): u32 {
    var b0: nat, b1: nat, b2: nat, b3: nat := b[0], b[1], b[2], b[3];
    0x100_0000 * b0 + 0x1_0000 * b1 + 0x100 * b2 + b3
  }

  lemma Be32RoundTrip(x: u32, b: Bytes4)
    ensures FromBe32(Be32(x)) == x
    ensures Be32(FromBe32(b)) == b
  {
    DigitsOf(x);
    DigitsBack(b[0], b[1], b[2], b[3]);
  }

  lemma DigitsOf(x: u32)
    ensures 0x100_0000 * (x / 0x100_0000) + 0x1_0000 * (x / 0x1_0000 % 0x100) + 0x100 * (x / 0x100 % 0x100) + x % 0x100 == x
  {
    var y := x / 0x100;
    var z := y / 0x100;
    assert z == x / 0x1_0000 && z / 0x100 == x / 0x100_0000;
  }

  lemma DigitsBack(b0: u8, b1: u8, b2: u8, b3: u8)
    ensures Be32(FromBe32([b0, b1, b2, b3])) == [b0, b1, b2, b3]
  {
    var n0: nat, n1: nat, n2: nat := b0, b1, b2;
    var y := FromBe32([b0, b1, b2, b3]);
    ModUnique(y, 0x100, 0x1_0000 * n0 + 0x100 * n1 + n2, b3);
    ModUnique(y, 0x1_0000, 0x100 * n0 + n1, 0x100 * n2 + b3);
    ModUnique(y, 0x100_0000, n0, 0x1_0000 * n1 + 0x100 * n2 + b3);
  }

  function Be64(x: u64): Bytes8 {
    Be32(x / TWO_32) + Be32(x % TWO_32)
  }

  function FromBe64(b: Bytes8): u64 {
    FromBe32(b[..4]) * TWO_32 + FromBe32(b[4..])
  }

  lemma Be64RoundTrip(x: u64)
    ensures FromBe64(Be64(x)) == x
  {
    Be32RoundTrip(x / TWO_32, Be32(0));
    Be32RoundTrip(x % TWO_32, Be32(0));
    assert Be64(x)[..4] == Be32(x / TWO_32) && Be64(x)[4..] == Be32(x % TWO_32);
  }

  // ---------- a native word and its bytes, on either host ----------

  function Reverse<T>(s: seq<T>): (r: seq<T>)
    ensures |r| == |s|
    ensures forall i :: 0 <= i < |s| ==> r[i] == s[|s| - 1 - i]
  {
    seq(|s|, i requires 0 <= i < |s| => s[|s| - 1 - i])
  }

  function StoreNative32(h: Host, x: u32): Bytes4 {
    if h.BigEndian? then Be32(x) else Reverse(Be32(x))
  }

  function LoadNative32(h: Host, b: Bytes4): u32 {
    if h.BigEndian? then FromBe32(b) else FromBe32(Reverse(b))
  }

  function StoreNative64(h: Host, x: u64): Bytes8 {
    if h.BigEndian? then Be64(x) else Reverse(Be64(x))
  }

  function LoadNative64(h: Host, b: Bytes8): u64 {
    if h.BigEndian? then FromBe64(b) else FromBe64(Reverse(b))
  }

  function Swap32(x: u32): u32 {
    FromBe32(Reverse(Be32(x)))
  }

  function Swap64(x: u64): u64 {
    FromBe64(Reverse(Be64(x)))
  }

  /** `htobe32` and `be32toh` are the same function. */
  function HToBe32(h: Host, x: u32): u32 {
    if h.BigEndian? then x else Swap32(x)
  }

  function HToBe64(h: Host, x: u64): u64 {
    if h.BigEndian? then x else Swap64(x)
  }

  /** Swapping and storing leaves the big-endian bytes, loading and swapping reads them, on either host. */
  lemma SwapThenStore32(h: Host, x: u32, b: Bytes4)
    ensures StoreNative32(h, HToBe32(h, x)) == Be32(x)
    ensures HToBe32(h, LoadNative32(h, b)) == FromBe32(b)
  {
    Be32RoundTrip(x, Reverse(Be32(x)));
    Be32RoundTrip(x, Reverse(b));
    assert Reverse(Reverse(Be32(x))) == Be32(x) && Reverse(Reverse(b)) == b;
  }

  lemma SwapThenStore64(h: Host, x: u64, b: Bytes8)
    ensures StoreNative64(h, HToBe64(h, x)) == Be64(x)
    ensures HToBe64(h, LoadNative64(h, b)) == FromBe64(b)
  {
    Be64OfBytes(Reverse(Be64(x)));
    Be64OfBytes(Reverse(b));
    assert Reverse(Reverse(Be64(x))) == Be64(x) && Reverse(Reverse(b)) == b;
  }

  lemma Be64OfBytes(b: Bytes8)
    ensures Be64(FromBe64(b)) == b
  {
    Be32RoundTrip(0, b[..4]);
    Be32RoundTrip(0, b[4..]);
    ModUnique(FromBe64(b), TWO_32, FromBe32(b[..4]), FromBe32(b[4..]));
    assert b == b[..4] + b[4..];
  }

}
