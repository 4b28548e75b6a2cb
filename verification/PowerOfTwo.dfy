/** Power-of-two rounding, integer logarithm and alignment, at the widths the sizing code uses them. */
module PowerOfTwo {
  import opened Bits

  ghost predicate IsPow2(x: nat) {
    exists e: nat :: x == Pow2(e)
  }

  /** Number of significant bits. */
  function BitLen(x: nat): nat {
    if x == 0 then 0 else 1 + BitLen(x / 2)
  }

  lemma {:induction false} BitLenBounds(x: nat)
    ensures x < Pow2(BitLen(x))
    ensures x > 0 ==> BitLen(x) > 0 && Pow2(BitLen(x) - 1) <= x
  {
    if x > 0 { BitLenBounds(x / 2); }
  }

  lemma {:induction false} TopBit(x: nat)
    requires x > 0
    ensures TestBit(x, BitLen(x) - 1)
  {
    if x > 1 { TopBit(x / 2); }
  }

  lemma BitLenOfPow2(e: nat)
    ensures BitLen(Pow2(e)) == e + 1
    ensures BitLen(Pow2(e) - 1) == e
  {
    BitLenExact(Pow2(e), e);
    if e > 0 {
      BitLenExact(Pow2(e) - 1, e - 1);
    }
  }

  lemma {:induction false} BitLenExact(x: nat, n: nat)
    requires Pow2(n) <= x < 2 * Pow2(n)
    ensures BitLen(x) == n + 1
  {
    if n > 0 { BitLenExact(x / 2, n - 1); }
  }

  lemma {:induction false} BitLenMonotone(x: nat, y: nat)
    requires x <= y
    ensures BitLen(x) <= BitLen(y)
  {
    if x > 0 { BitLenMonotone(x / 2, y / 2); }
  }

  // ---------- the power-of-two test ----------

  /** `x && (x & (x - 1)) == 0`: true of the powers of two and of nothing else. */
  function IsPowerOfTwo(x: u64): (r: bool)
    ensures r <==> IsPow2(x)
  {
    PowerTest(x);
    x != 0 && And(x, x - 1) == 0
  }

  lemma {:induction false} PowerTest(x: nat)
    ensures x != 0 && And(x, x - 1) == 0 <==> IsPow2(x)
  {
    if x == 0 {
    } else if x == 1 {
      assert x == Pow2(0);
    } else {
      PowerTest(x / 2);
      assert x / 2 * 2 == x || x / 2 * 2 + 1 == x;
      if x % 2 == 0 {
        assert (x - 1) / 2 == x / 2 - 1;
        if IsPow2(x / 2) {
          var e: nat :| x / 2 == Pow2(e);
          assert x == Pow2(e + 1);
        }
        if IsPow2(x) {
          var e: nat :| x == Pow2(e);
          assert x / 2 == Pow2(e - 1);
        }
      } else {
        AndSelf(x / 2);
      }
    }
  }

  lemma {:induction false} AndSelf(x: nat)
    ensures And(x, x) == x
  {
    if x > 0 { AndSelf(x / 2); }
  }

  // ---------- rounding up by smearing bits ----------

  /** The power of two that rounding up should give: see `LeastPow2IsLeast`. */
  function LeastPow2(x: nat): nat {
    if x == 0 then 1 else Pow2(BitLen(x - 1))
  }

  lemma LeastPow2Above(x: nat)
    ensures x <= LeastPow2(x)
    ensures x > 0 ==> LeastPow2(x) < 2 * x
  {
    if x > 0 { BitLenBounds(x - 1); }
  }

  lemma LeastPow2IsLeast(x: nat)
    ensures IsPow2(LeastPow2(x)) && x <= LeastPow2(x)
    ensures forall y: nat :: IsPow2(y) && x <= y ==> LeastPow2(x) <= y
    ensures x > 0 ==> LeastPow2(x) < 2 * x
  {
    assert x == 0 ==> LeastPow2(x) == Pow2(0);
    if x > 0 {
      BitLenBounds(x - 1);
      forall y: nat | IsPow2(y) && x <= y ensures LeastPow2(x) <= y {
        var e: nat :| y == Pow2(e);
        BitLenMonotone(x - 1, y - 1);
        BitLenOfPow2(e);
        Pow2Monotone(BitLen(x - 1), e);
      }
    }
  }

  lemma LeastPow2OfPow2(e: nat)
    ensures LeastPow2(Pow2(e)) == Pow2(e)
  {
    BitLenOfPow2(e);
  }

  lemma LeastPow2Bound(x: nat, e: nat)
    ensures x <= Pow2(e) <==> LeastPow2(x) <= Pow2(e)
  {
    assert IsPow2(Pow2(e));
    LeastPow2IsLeast(x);
  }

  /** What rounding up computes on a 64-bit word: the least power, or 0 outside 1..2^63. */
  function RoundedUp(x: u64): u64 {
    if 1 <= x <= 0x8000_0000_0000_0000 then
      Pow2Values(); LeastPow2Bound(x, W63);
      LeastPow2(x)
    else 0
  }

  /** Every bit of `x` has been copied onto the `d - 1` places below it. */
  ghost predicate Smeared(v: nat, x: nat, d: nat) {
    forall i: nat :: TestBit(v, i) <==> exists j: nat :: i <= j < i + d && TestBit(x, j)
  }

  lemma SmearStep(v: nat, x: nat, d: nat)
    requires Smeared(v, x, d)
    ensures Smeared(Or(v, Shr(v, d)), x, 2 * d)
  {
    forall i: nat
      ensures TestBit(Or(v, Shr(v, d)), i) <==> exists j: nat :: i <= j < i + 2 * d && TestBit(x, j)
    {
      OrBit(v, Shr(v, d), i);
      ShrBit(v, d, i);
      assert TestBit(v, i) <==> exists j: nat :: i <= j < i + d && TestBit(x, j);
      assert TestBit(v, i + d) <==> exists j: nat :: i + d <= j < i + d + d && TestBit(x, j);
    }
  }

  lemma SmearedFully(v: nat, x: nat)
    requires x < TWO_64 && Smeared(v, x, 64)
    ensures v == Pow2(BitLen(x)) - 1
  {
    var n := BitLen(x);
    BitLenBounds(x);
    forall i: nat ensures TestBit(v, i) == TestBit(Pow2(n) - 1, i) {
      MaskBit(n, i);
      if i < n {
        TopBit(x);
        BitLenWidth(x);
        assert i <= n - 1 < i + 64 && TestBit(x, n - 1);
      } else {
        forall j: nat | i <= j ensures !TestBit(x, j) { HighBit(x, n, j); }
      }
    }
    SameBits(v, Pow2(n) - 1);
  }

  lemma BitLenWidth(x: nat)
    requires x < TWO_64
    ensures BitLen(x) <= 64
  {
    Pow2Values();
    BitLenOfPow2(W64);
    BitLenMonotone(x, Pow2(W64) - 1);
  }

  lemma SmearBound(x: u64, d: nat)
    ensures Or(x, Shr(x, d)) < TWO_64
  {
    Pow2Values();
    ShrBound(x, d, W64);
    OrBound(x, Shr(x, d), W64);
  }

  /** The six or-and-shift steps, on a 64-bit word that wraps. */
  method NextPowerOfTwo(x0: u64) returns (r: u64)
    ensures r == RoundedUp(x0)
  {
    var x: u64 := U64(x0 - 1);
    ghost var y := x;
    assert Smeared(x, y, 1) by {
      forall i: nat ensures TestBit(x, i) <==> exists j: nat :: i <= j < i + 1 && TestBit(y, j) {}
    }

    SmearStep(x, y, 1);  SmearBound(x, 1);
    x := Or(x, Shr(x, 1));
    SmearStep(x, y, 2);  SmearBound(x, 2);
    x := Or(x, Shr(x, 2));
    SmearStep(x, y, 4);  SmearBound(x, 4);
    x := Or(x, Shr(x, 4));
    SmearStep(x, y, 8);  SmearBound(x, 8);
    x := Or(x, Shr(x, 8));
    SmearStep(x, y, 16); SmearBound(x, 16);
    x := Or(x, Shr(x, 16));
    SmearStep(x, y, 32); SmearBound(x, 32);
    x := Or(x, Shr(x, 32));

    SmearedFully(x, y);
    RoundingWraps(x0);
    r := U64(x + 1);
  }

  lemma RoundingWraps(x: u64)
    ensures U64(Pow2(BitLen(U64(x - 1)))) == RoundedUp(x)
  {
    if 1 <= x <= 0x8000_0000_0000_0000 {
      RoundingFits(x);
      CastFits64(x - 1);
      CastFits64(LeastPow2(x));
    } else {
      RoundingTop(U64(x - 1));
    }
  }

  lemma CastFits64(x: nat)
    requires x < TWO_64
    ensures U64(x) == x
  {}

  lemma RoundingFits(x: u64)
    requires 1 <= x <= 0x8000_0000_0000_0000
    ensures LeastPow2(x) < TWO_64
  {
    Pow2Values();
    LeastPow2Bound(x, W63);
  }

  lemma RoundingTop(y: u64)
    requires y >= 0x8000_0000_0000_0000
    ensures U64(Pow2(BitLen(y))) == 0
  {
    Pow2Values();
    BitLenExact(y, W63);
  }

  // ---------- logarithm and alignment ----------

  /** Integer logarithm, 0 at 0; the code takes it of powers of two. */
  function Log2(x: nat): nat {
    if x == 0 then 0 else BitLen(x) - 1
  }

  lemma Log2OfPow2(e: nat)
    ensures Log2(Pow2(e)) == e
  {
    BitLenOfPow2(e);
  }

  lemma Log2Inverts(x: nat)
    requires IsPow2(x)
    ensures Pow2(Log2(x)) == x
  {
    var e: nat :| x == Pow2(e);
    Log2OfPow2(e);
  }

  function AlignUp64(value: u64, alignment: u64): u64
    requires alignment > 0
  {
    var remainder := value % alignment;
    if remainder == 0 then value else U64(value + (alignment - remainder))
  }

  function AlignUp32(value: u32, alignment: u32): u32
    requires alignment > 0
  {
    U32(AlignUp64(value, alignment))
  }

  /** The multiple of `a` that aligning up should give. */
  function LeastMultiple(value: nat, a: nat): (r: nat)
    requires a > 0
    ensures value <= r < value + a && r % a == 0
  {
    var k := (value + a - 1) / a;
    assert value + a - 1 == a * k + (value + a - 1) % a;
    ModUnique(a * k, a, k, 0);
    a * k
  }

  lemma MultipleIsUnique(x: nat, r: nat, s: nat, a: nat)
    requires a > 0 && x <= r < x + a && x <= s < x + a && r % a == 0 && s % a == 0
    ensures r == s
  {
    assert r == a * (r / a) && s == a * (s / a);
    assert a * (r / a - s / a) == r - s;
    MulBetween(a, r / a - s / a, r - s);
  }

  /** Aligning up gives the least multiple exactly when that multiple fits in the word. */
  lemma AlignUpExact(value: u64, alignment: u64)
    requires alignment > 0
    ensures AlignUp64(value, alignment) == U64(LeastMultiple(value, alignment))
    ensures AlignUp64(value, alignment) == LeastMultiple(value, alignment) <==> LeastMultiple(value, alignment) < TWO_64
  {
    var rem := value % alignment;
    var r := if rem == 0 then value else value + (alignment - rem);
    var q := value / alignment;
    assert value == alignment * q + rem;
    if rem != 0 {
      assert r == alignment * (q + 1);
      ModUnique(r, alignment, q + 1, 0);
    }
    MultipleIsUnique(value, r, LeastMultiple(value, alignment), alignment);
  }

  lemma AlignUp32Exact(value: u32, alignment: u32)
    requires alignment > 0
    ensures AlignUp32(value, alignment) == U32(LeastMultiple(value, alignment))
    ensures LeastMultiple(value, alignment) < TWO_32 ==> AlignUp32(value, alignment) == LeastMultiple(value, alignment)
  {
    AlignUpExact(value, alignment);
  }

  // ---------- the composition used for every ring ----------

  /** `static_cast<uint32_t>(next_power_of_two(p))` where `p` is a product already cut to 32 bits. */
  function Rounded32(p: nat): u32 {
    U32(RoundedUp(U32(p)))
  }

  /** A ring rounded up in 32 bits holds the bytes asked for exactly when they are at most 2^31. */
  lemma RoundedHolds(p: nat)
    ensures Rounded32(p) >= p <==> p <= 0x8000_0000
    ensures 1 <= p <= 0x8000_0000 ==> Rounded32(p) == LeastPow2(p)
    ensures Rounded32(p) <= 0x8000_0000
  {
    Rounded32Of(U32(p));
    if p <= 0x8000_0000 {
      CastFits32(p);
      LeastPow2Above(p);
    }
  }

  lemma CastFits32(x: nat)
    requires x < TWO_32
    ensures U32(x) == x
  {}

  lemma Rounded32Of(q: u32)
    ensures U32(RoundedUp(q)) == if 1 <= q <= 0x8000_0000 then LeastPow2(q) else 0
    ensures U32(RoundedUp(q)) <= 0x8000_0000
  {
    Pow2Values();
    if 1 <= q <= 0x8000_0000 {
      LeastPow2Bound(q, W31);
    } else if q > 0 {
      BitLenExact(q - 1, W31);
      assert RoundedUp(q) == TWO_32;
    }
  }

  // ---------- powers of two against each other ----------

  lemma Pow2Product(a: nat, b: nat)
    requires IsPow2(a) && IsPow2(b)
    ensures IsPow2(a * b)
  {
    var i: nat :| a == Pow2(i);
    var j: nat :| b == Pow2(j);
    Pow2Add(i, j);
    assert a * b == Pow2(i + j);
  }

  lemma Pow2Divides(w: nat, b: nat)
    requires IsPow2(w) && IsPow2(b) && w <= b
    ensures b / w * w == b && IsPow2(b / w)
  {
    var i: nat :| w == Pow2(i);
    var j: nat :| b == Pow2(j);
    if j < i {
      Pow2Monotone(j, i);
    } else {
      Pow2Add(i, j - i);
      ModUnique(b, w, Pow2(j - i), 0);
    }
  }

  lemma Pow2Gap(a: nat, n: nat)
    requires IsPow2(a) && n > 0
    ensures a < Pow2(n) ==> a <= Pow2(n - 1)
    ensures a > Pow2(n - 1) ==> a >= Pow2(n)
  {
    var i: nat :| a == Pow2(i);
    if i < n { Pow2Monotone(i, n - 1); } else { Pow2Monotone(n, i); }
  }

  lemma Pow2MultipleOf(b: nat, n: nat)
    requires IsPow2(b) && b >= Pow2(n)
    ensures b % Pow2(n) == 0
  {
    assert IsPow2(Pow2(n));
    Pow2Divides(Pow2(n), b);
    ModUnique(b, Pow2(n), b / Pow2(n), 0);
  }

  /** A ring of `count` entries, rounded up in 32 bits, holds them exactly when they fill at most 2^31 bytes. */
  lemma RingHolds(count: nat, entry: nat)
    requires count > 0 && entry > 0
    ensures Rounded32(count * entry) / entry >= count <==> count * entry <= 0x8000_0000
  {
    var p := count * entry;
    RoundedHolds(p);
    QuotientBound(Rounded32(p), entry, count);
  }

  lemma QuotientBound(b: nat, entry: nat, count: nat)
    requires entry > 0
    ensures b / entry >= count <==> b >= count * entry
  {
    var q, r := b / entry, b % entry;
    assert b == entry * q + r;
    if q >= count {
      assert entry * (q - count) >= 0;
    } else {
      assert entry * (count - q - 1) >= 0;
    }
  }

  lemma QuotientFits(x: nat, y: nat)
    requires y > 0
    ensures x / y <= x
  {
    var q, r := x / y, x % y;
    assert x == y * q + r;
    TimesGrows(y, q);
  }

  lemma TimesGrows(y: nat, q: nat)
    requires y > 0
    ensures y * q >= q
  {
    assert (y - 1) * q >= 0;
  }

  /** Unsigned division of words. */
  function Quotient(x: u32, y: u32): (r: u32)
    requires y > 0
    ensures r <= x
  {
    QuotientFits(x, y);
    x / y
  }

  /** The bytes of a ring of `count` entries, rounded up in 32 bits. */
  function RingBytes(count: u32, entry: u32): (r: u32)
    ensures r <= 0x8000_0000
  {
    RoundedHolds(count * entry);
    Rounded32(count * entry)
  }

  method RoundRing(count: u32, entry: u32) returns (bytes: u32)
    ensures bytes == RingBytes(count, entry)
  {
    var rounded := NextPowerOfTwo(U32(count * entry));
    bytes := U32(rounded);
  }

}
