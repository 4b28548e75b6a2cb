/**
 Fixed-width unsigned words and the C bit operators on them.

 A word is a natural number below a power of two; the operators are defined by
 halving, bit by bit, and the lemmas give each operator its meaning in terms of
 `TestBit`.  Width is explicit everywhere: `Low(x, w)` is the truncating cast.
 */
module Bits {

  type u8 = x: nat | x < 0x100
  type u16 = x: nat | x < 0x1_0000
  type u32 = x: nat | x < 0x1_0000_0000
  type u64 = x: nat | x < 0x1_0000_0000_0000_0000

  const TWO_32: nat := 0x1_0000_0000
  const TWO_64: nat := 0x1_0000_0000_0000_0000

  // Widths and shift amounts, named so that `Pow2` of one is not unfolded on sight.
  const W3: nat := 3
  const W4: nat := 4
  const W5: nat := 5
  const W6: nat := 6
  const W8: nat := 8
  const W12: nat := 12
  const W15: nat := 15
  const W16: nat := 16
  const W24: nat := 24
  const W27: nat := 27
  const W28: nat := 28
  const W31: nat := 31
  const W32: nat := 32
  const W63: nat := 63
  const W64: nat := 64

  function U32(x: int): u32 { x % TWO_32 }

  function U64(x: int): u64 { x % TWO_64 }

  function Pow2(n: nat): (r: nat)
    ensures r > 0
  {
    if n == 0 then 1 else 2 * Pow2(n - 1)
  }

  /** Bit `i` of `x`, bit 0 being the least significant. */
  predicate TestBit(x: nat, i: nat) {
    if i == 0 then x % 2 == 1 else TestBit(x / 2, i - 1)
  }

  function And(x: nat, y: nat): nat {
    if x == 0 || y == 0 then 0
    else 2 * And(x / 2, y / 2) + (if x % 2 == 1 && y % 2 == 1 then 1 else 0)
  }

  function Or(x: nat, y: nat): nat
    decreases x + y
  {
    if x == 0 then y else if y == 0 then x
    else 2 * Or(x / 2, y / 2) + (if x % 2 == 1 || y % 2 == 1 then 1 else 0)
  }

  function Shl(x: nat, k: nat): nat {
    if k == 0 then x else 2 * Shl(x, k - 1)
  }

  function Shr(x: nat, k: nat): nat {
    if k == 0 then x else Shr(x / 2, k - 1)
  }

  /** The low `w` bits of `x`: the cast to a `w`-bit unsigned type. */
  function Low(x: nat, w: nat): nat {
    if w == 0 then 0 else 2 * Low(x / 2, w - 1) + x % 2
  }

  /** C's `~` on a `w`-bit unsigned operand. */
  function Not(x: nat, w: nat): nat
    requires x < Pow2(w)
  {
    Pow2(w) - 1 - x
  }

  // ---------- powers of two ----------

  lemma Pow2Values()
    ensures Pow2(W3) == 8 && Pow2(W4) == 16 && Pow2(W5) == 32 && Pow2(W6) == 64 && Pow2(W8) == 0x100 && Pow2(W12) == 0x1000
    ensures Pow2(W15) == 0x8000 && Pow2(W16) == 0x1_0000 && Pow2(W24) == 0x100_0000
    ensures Pow2(W27) == 0x800_0000 && Pow2(W28) == 0x1000_0000
    ensures Pow2(W31) == 0x8000_0000 && Pow2(W32) == TWO_32
    ensures Pow2(W63) == 0x8000_0000_0000_0000 && Pow2(W64) == TWO_64
  {
    assert Pow2(3) == 8 && Pow2(4) == 16 && Pow2(5) == 32 && Pow2(6) == 64 && Pow2(7) == 128 && Pow2(8) == 0x100;
    Pow2Add(W4, W8);
    Pow2Add(7, W8);
    Pow2Add(W8, W8);
    Pow2Add(W16, W8);
    Pow2Add(W24, W3);
    Pow2Add(W24, W4);
    Pow2Add(W15, W16);
    Pow2Add(W16, W16);
    Pow2Add(W31, W32);
    Pow2Add(W32, W32);
  }

  lemma {:induction false} Pow2Add(a: nat, b: nat)
    ensures Pow2(a + b) == Pow2(a) * Pow2(b)
  {
    if a == 0 {
    } else {
      Pow2Add(a - 1, b);
      assert Pow2(a) * Pow2(b) == 2 * (Pow2(a - 1) * Pow2(b));
    }
  }

  lemma {:induction false} Pow2Monotone(a: nat, b: nat)
    requires a <= b
    ensures Pow2(a) <= Pow2(b)
    ensures a < b ==> 2 * Pow2(a) <= Pow2(b)
    decreases b
  {
    if a < b {
      Pow2Monotone(a, b - 1);
    }
  }

  // ---------- what each operator does to each bit ----------

  lemma {:induction false} ZeroBit(i: nat)
    ensures !TestBit(0, i)
  {
    if i > 0 { ZeroBit(i - 1); }
  }

  lemma {:induction false} AndBit(x: nat, y: nat, i: nat)
    ensures TestBit(And(x, y), i) <==> TestBit(x, i) && TestBit(y, i)
  {
    ZeroBit(i);
    if x != 0 && y != 0 && i > 0 {
      AndBit(x / 2, y / 2, i - 1);
    }
  }

  lemma {:induction false} OrBit(x: nat, y: nat, i: nat)
    ensures TestBit(Or(x, y), i) <==> TestBit(x, i) || TestBit(y, i)
  {
    ZeroBit(i);
    if x != 0 && y != 0 && i > 0 {
      OrBit(x / 2, y / 2, i - 1);
    }
  }

  lemma {:induction false} ShlBit(x: nat, k: nat, i: nat)
    ensures TestBit(Shl(x, k), i) <==> i >= k && TestBit(x, i - k)
  {
    if k > 0 && i > 0 {
      ShlBit(x, k - 1, i - 1);
    }
  }

  lemma {:induction false} ShrBit(x: nat, k: nat, i: nat)
    ensures TestBit(Shr(x, k), i) <==> TestBit(x, i + k)
  {
    if k > 0 {
      ShrBit(x / 2, k - 1, i);
    }
  }

  lemma {:induction false} LowBit(x: nat, w: nat, i: nat)
    ensures TestBit(Low(x, w), i) <==> i < w && TestBit(x, i)
  {
    if w == 0 {
      ZeroBit(i);
    } else {
      var rest := Low(x / 2, w - 1);
      assert Low(x, w) % 2 == x % 2 && Low(x, w) / 2 == rest;
      if i > 0 {
        LowBit(x / 2, w - 1, i - 1);
      }
    }
  }

  lemma {:induction false} NotBit(x: nat, w: nat, i: nat)
    requires x < Pow2(w)
    ensures TestBit(Not(x, w), i) <==> i < w && !TestBit(x, i)
  {
    ZeroBit(i);
    if w > 0 {
      assert Not(x, w) / 2 == Not(x / 2, w - 1);
      if i > 0 {
        NotBit(x / 2, w - 1, i - 1);
      }
    }
  }

  lemma {:induction false} MaskBit(n: nat, i: nat)
    ensures TestBit(Pow2(n) - 1, i) <==> i < n
  {
    ZeroBit(i);
    if n > 0 {
      assert (Pow2(n) - 1) / 2 == Pow2(n - 1) - 1;
      if i > 0 {
        MaskBit(n - 1, i - 1);
      }
    }
  }

  /** A word has no bit at or above its width. */
  lemma {:induction false} HighBit(x: nat, w: nat, i: nat)
    requires x < Pow2(w) && w <= i
    ensures !TestBit(x, i)
  {
    if i == 0 {
    } else if w == 0 {
      ZeroBit(i);
    } else {
      HighBit(x / 2, w - 1, i - 1);
    }
  }

  /** Two words with the same bits are the same word. */
  lemma {:induction false} SameBits(x: nat, y: nat)
    requires forall i: nat :: TestBit(x, i) == TestBit(y, i)
    ensures x == y
    decreases x + y
  {
    assert TestBit(x, 0) == TestBit(y, 0);
    if x != 0 || y != 0 {
      forall i: nat ensures TestBit(x / 2, i) == TestBit(y / 2, i) {
        assert TestBit(x, i + 1) == TestBit(y, i + 1);
      }
      if x + y > 1 {
        SameBits(x / 2, y / 2);
      }
    }
  }

  // ---------- the operators as arithmetic ----------

  lemma {:induction false} LowIsMod(x: nat, w: nat)
    ensures Low(x, w) == x % Pow2(w)
    ensures Low(x, w) < Pow2(w)
  {
    if w > 0 {
      LowIsMod(x / 2, w - 1);
      HalfMod(x, Pow2(w - 1));
    }
  }

  lemma HalfMod(x: nat, p: nat)
    requires p > 0
    ensures x % (2 * p) == 2 * (x / 2 % p) + x % 2
  {
    var q, r := x / 2 / p, x / 2 % p;
    assert x / 2 == p * q + r;
    assert 2 * (p * q) == 2 * p * q;
    ModUnique(x, 2 * p, q, 2 * r + x % 2);
  }

  lemma ModUnique(x: nat, d: nat, q: nat, r: nat)
    requires d > 0 && r < d && x == d * q + r
    ensures x % d == r && x / d == q
  {
    MulBetween(d, q - x / d, x % d - r);
  }

  lemma MulBetween(d: int, k: int, m: int)
    requires d * k == m && -d < m < d
    ensures k == 0
  {
    MulGrows(d, k);
  }

  lemma MulGrows(d: int, k: int)
    requires d > 0
    ensures k >= 1 ==> d * k >= d
    ensures k <= -1 ==> d * k <= -d
  {
    assert k >= 1 ==> d * (k - 1) >= 0;
    assert k <= -1 ==> d * (k + 1) <= 0;
  }

  lemma {:induction false} ShlIsMul(x: nat, k: nat)
    ensures Shl(x, k) == x * Pow2(k)
  {
    if k > 0 { ShlIsMul(x, k - 1); }
  }

  lemma {:induction false} AndMaskIsLow(x: nat, n: nat)
    ensures And(x, Pow2(n) - 1) == Low(x, n)
  {
    if n > 0 {
      assert (Pow2(n) - 1) / 2 == Pow2(n - 1) - 1;
      AndMaskIsLow(x / 2, n - 1);
      if x == 0 { LowIsMod(0, n); }
    }
  }

  lemma {:induction false} AndBound(x: nat, y: nat)
    ensures And(x, y) <= x && And(x, y) <= y
  {
    if x != 0 && y != 0 { AndBound(x / 2, y / 2); }
  }

  lemma {:induction false} OrBound(x: nat, y: nat, w: nat)
    requires x < Pow2(w) && y < Pow2(w)
    ensures Or(x, y) < Pow2(w)
    decreases w
  {
    if x != 0 && y != 0 && w > 0 { OrBound(x / 2, y / 2, w - 1); }
  }

  lemma {:induction false} ShrBound(x: nat, k: nat, w: nat)
    requires x < Pow2(w)
    ensures Shr(x, k) < Pow2(w)
    ensures k <= w ==> Shr(x, k) < Pow2(w - k)
    decreases k
  {
    if k > 0 {
      if w > 0 {
        ShrBound(x / 2, k - 1, w - 1);
      } else {
        ShrBound(0, k - 1, 0);
      }
    }
  }

  lemma {:induction false} ShrIsDiv(x: nat, k: nat)
    ensures Shr(x, k) == x / Pow2(k)
  {
    if k > 0 {
      ShrIsDiv(x / 2, k - 1);
      HalfDiv(x, Pow2(k - 1));
    }
  }

  lemma HalfDiv(x: nat, p: nat)
    requires p > 0
    ensures x / (2 * p) == x / 2 / p
  {
    var q, r := x / 2 / p, x / 2 % p;
    assert x / 2 == p * q + r;
    assert 2 * (p * q) == 2 * p * q;
    ModUnique(x, 2 * p, q, 2 * r + x % 2);
  }

  lemma {:induction false} ShrZero(k: nat)
    ensures Shr(0, k) == 0
  {
    if k > 0 { ShrZero(k - 1); }
  }

}
