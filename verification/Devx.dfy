/**
 Bit fields of device command buffers: in-place set and get of big-endian fields,
 by 32-bit word and by 64-bit word, and their meaning bit by bit.
 Bit 0 of a buffer is the most significant bit of its first byte.
 */
module Devx {
  import opened Bits
  import opened ByteOrder

  datatype Field = Field(off: nat, sz: nat) {
    predicate Covers(k: nat) { off <= k < off + sz }

    /** Inside one 32-bit word, as the 32-bit writer needs. */
    predicate InWord() { 1 <= sz <= 32 && off % 32 + sz <= 32 }
  }

  ghost predicate Disjoint(f: Field, g: Field) {
    f.off + f.sz <= g.off || g.off + g.sz <= f.off
  }

  predicate Buffer(buf: seq<u8>) { |buf| % 4 == 0 }

  predicate FitsIn(length: nat, f: Field) {
    f.InWord() && 4 * (f.off / 32) + 4 <= length
  }

  lemma FitsBits(length: nat, f: Field)
    requires FitsIn(length, f)
    ensures f.off + f.sz <= 8 * length
  {}

  predicate Fits(buf: seq<u8>, f: Field) { Buffer(buf) && FitsIn(|buf|, f) }

  // ---------- the macros ----------

  function DwBitOff(f: Field): nat
    requires f.InWord()
  {
    LowFive(f.off);
    32 - f.sz - And(f.off, 0x1f)
  }

  function Mask(sz: nat): u32
    requires 1 <= sz <= 32
  {
    U32(U64(U64(Shl(1, sz)) - 1))
  }

  function DwMask(f: Field): u32
    requires f.InWord()
  {
    U32(Shl(Mask(f.sz), DwBitOff(f)))
  }

  lemma LowFive(x: nat)
    ensures And(x, 0x1f) == x % 32
  {
    Pow2Values();
    AndMaskIsLow(x, W5);
    LowIsMod(x, W5);
  }

  lemma MaskIs(sz: nat)
    requires 1 <= sz <= 32
    ensures Mask(sz) == Pow2(sz) - 1
  {
    Pow2Values();
    Pow2Monotone(sz, W32);
    ShlIsMul(1, sz);
    CastChain(Pow2(sz));
  }

  lemma CastChain(p: nat)
    requires 1 <= p <= TWO_32
    ensures U32(U64(U64(p) - 1)) == p - 1
  {}

  // ---------- set and get on the bytes of a buffer ----------

  /** Bytes written over a buffer. */
  function Splice(buf: seq<u8>, at: nat, bytes: seq<u8>): (r: seq<u8>)
    requires at + |bytes| <= |buf|
    ensures |r| == |buf|
    ensures r[at..at + |bytes|] == bytes
  {
    buf[..at] + bytes + buf[at + |bytes|..]
  }

  function WordAt(buf: seq<u8>, dw: nat): u32
    requires Buffer(buf) && 4 * dw < |buf|
  {
    FromBe32(buf[4 * dw..4 * dw + 4])
  }

  function SetWord(w: u32, value: u32, f: Field): u32
    requires f.InWord()
  {
    SetWordFits(w, value, f);
    Or(And(w, Not(DwMask(f), W32)), U32(Shl(And(value, Mask(f.sz)), DwBitOff(f))))
  }

  lemma SetWordFits(w: u32, value: u32, f: Field)
    requires f.InWord()
    ensures DwMask(f) < Pow2(W32)
    ensures Or(And(w, Not(DwMask(f), W32)), U32(Shl(And(value, Mask(f.sz)), DwBitOff(f)))) < TWO_32
  {
    Pow2Values();
    AndBound(w, Not(DwMask(f), W32));
    OrBound(And(w, Not(DwMask(f), W32)), U32(Shl(And(value, Mask(f.sz)), DwBitOff(f))), W32);
  }

  function Set(buf: seq<u8>, value: u32, f: Field): (r: seq<u8>)
    requires Fits(buf, f)
    ensures |r| == |buf|
  {
    var dw := f.off / 32;
    Splice(buf, 4 * dw, Be32(SetWord(WordAt(buf, dw), value, f)))
  }

  function Get(buf: seq<u8>, f: Field): u32
    requires Fits(buf, f)
  {
    AndBound(Shr(WordAt(buf, f.off / 32), DwBitOff(f)), Mask(f.sz));
    And(Shr(WordAt(buf, f.off / 32), DwBitOff(f)), Mask(f.sz))
  }

  /** `_devx_set`, on a host of either byte order. */
  method DevxSet(h: Host, p: array<u8>, value: u32, f: Field)
    requires Fits(p[..], f)
    modifies p
    ensures p[..] == Set(old(p[..]), value, f)
  {
    var at := 4 * (f.off / 32);
    var bytes := p[at..at + 4];
    assert bytes == p[..][at..at + 4];
    SwapThenStore32(h, 0, bytes);
    var word := SetWord(HToBe32(h, LoadNative32(h, bytes)), value, f);
    SwapThenStore32(h, word, bytes);
    var out := StoreNative32(h, HToBe32(h, word));
    Write4(p, at, out);
  }

  method Write4(p: array<u8>, at: nat, out: Bytes4)
    requires at + 4 <= p.Length
    modifies p
    ensures p[..] == Splice(old(p[..]), at, out)
  {
    p[at], p[at + 1], p[at + 2], p[at + 3] := out[0], out[1], out[2], out[3];
    assert p[..] == p[..at] + p[at..at + 4] + p[at + 4..];
  }

  // ---------- the 64-bit form: no size, the offset rounded down to a quadword ----------

  predicate Fits64(buf: seq<u8>, off: nat) {
    Buffer(buf) && off / 64 * 8 + 8 <= |buf|
  }

  function Set64(buf: seq<u8>, value: u64, off: nat): (r: seq<u8>)
    requires Fits64(buf, off)
    ensures |r| == |buf|
  {
    Splice(buf, off / 64 * 8, Be64(value))
  }

  function Get64(buf: seq<u8>, off: nat): u64
    requires Fits64(buf, off)
  {
    var q := off / 64 * 8;
    FromBe64(buf[q..q + 8])
  }

  method DevxSet64(h: Host, p: array<u8>, value: u64, off: nat)
    requires Fits64(p[..], off)
    modifies p
    ensures p[..] == Set64(old(p[..]), value, off)
  {
    var at: nat := off / 64 * 8;
    var out := StoreNative64(h, HToBe64(h, value));
    SwapThenStore64(h, value, out);
    Write8(p, at, out);
  }

  method Write8(p: array<u8>, at: nat, out: Bytes8)
    requires at + 8 <= p.Length
    modifies p
    ensures p[..] == Splice(old(p[..]), at, out)
  {
    SpliceTwice(p[..], at, out[..4], out[4..]);
    assert out[..4] + out[4..] == out;
    Write4(p, at, out[..4]);
    Write4(p, at + 4, out[4..]);
  }

  /** `_devx_get` and `_devx_get64` read through the same swaps. */
  method DevxGet(h: Host, p: array<u8>, f: Field) returns (r: u32)
    requires Fits(p[..], f)
    ensures r == Get(p[..], f)
  {
    var at := 4 * (f.off / 32);
    var bytes := p[at..at + 4];
    assert bytes == p[..][at..at + 4];
    SwapThenStore32(h, 0, bytes);
    var word := HToBe32(h, LoadNative32(h, bytes));
    AndBound(Shr(word, DwBitOff(f)), Mask(f.sz));
    r := And(Shr(word, DwBitOff(f)), Mask(f.sz));
  }

  method DevxGet64(h: Host, p: array<u8>, off: nat) returns (r: u64)
    requires Fits64(p[..], off)
    ensures r == Get64(p[..], off)
  {
    var at := off / 64 * 8;
    var bytes := p[at..at + 8];
    assert bytes == p[..][at..at + 8];
    SwapThenStore64(h, 0, bytes);
    r := HToBe64(h, LoadNative64(h, bytes));
  }

  // ---------- meaning, bit by bit ----------

  predicate BitOf(buf: seq<u8>, k: nat)
    requires Buffer(buf) && k < 8 * |buf|
  {
    TestBit(WordAt(buf, k / 32), 31 - k % 32)
  }

  lemma SpliceElsewhere(buf: seq<u8>, at: nat, bytes: Bytes4, lo: nat)
    requires at + 4 <= |buf| && lo + 4 <= |buf| && (lo + 4 <= at || at + 4 <= lo)
    ensures Splice(buf, at, bytes)[lo..lo + 4] == buf[lo..lo + 4]
  {}

  lemma WordSpliced(buf: seq<u8>, w: u32, at: nat, dw: nat)
    requires Buffer(buf) && 4 * at + 4 <= |buf| && 4 * dw < |buf|
    ensures WordAt(Splice(buf, 4 * at, Be32(w)), dw) == if dw == at then w else WordAt(buf, dw)
  {
    if dw == at {
      Be32RoundTrip(w, Be32(0));
    } else {
      SpliceElsewhere(buf, 4 * at, Be32(w), 4 * dw);
    }
  }

  lemma WordOfSet(buf: seq<u8>, value: u32, f: Field, dw: nat)
    requires Fits(buf, f) && 4 * dw < |buf|
    ensures WordAt(Set(buf, value, f), dw) ==
            if dw == f.off / 32 then SetWord(WordAt(buf, dw), value, f) else WordAt(buf, dw)
  {
    WordSpliced(buf, SetWord(WordAt(buf, f.off / 32), value, f), f.off / 32, dw);
  }

  lemma CastBit(x: nat, i: nat)
    ensures TestBit(U32(x), i) <==> i < 32 && TestBit(x, i)
  {
    Pow2Values();
    LowIsMod(x, W32);
    LowBit(x, W32, i);
  }

  lemma DwMaskBit(f: Field, i: nat)
    requires f.InWord() && i < 32
    ensures TestBit(DwMask(f), i) <==> DwBitOff(f) <= i < DwBitOff(f) + f.sz
  {
    var s, m := DwBitOff(f), Mask(f.sz);
    MaskIs(f.sz);
    CastBit(Shl(m, s), i);
    ShlBit(m, s, i);
    if s <= i { MaskBit(f.sz, i - s); }
  }

  lemma PlacedBit(value: u32, f: Field, i: nat)
    requires f.InWord() && i < 32
    ensures TestBit(U32(Shl(And(value, Mask(f.sz)), DwBitOff(f))), i) <==>
            DwBitOff(f) <= i < DwBitOff(f) + f.sz && TestBit(value, i - DwBitOff(f))
  {
    var s, m := DwBitOff(f), Mask(f.sz);
    MaskIs(f.sz);
    CastBit(Shl(And(value, m), s), i);
    ShlBit(And(value, m), s, i);
    if s <= i {
      MaskBit(f.sz, i - s);
      AndBit(value, m, i - s);
    }
  }

  lemma SetWordBit(w: u32, value: u32, f: Field, i: nat)
    requires f.InWord() && i < 32
    ensures var s := 32 - f.sz - f.off % 32;
      TestBit(SetWord(w, value, f), i) <==> if s <= i < s + f.sz then TestBit(value, i - s) else TestBit(w, i)
  {
    LowFive(f.off);
    SetWordFits(w, value, f);
    OrBit(And(w, Not(DwMask(f), W32)), U32(Shl(And(value, Mask(f.sz)), DwBitOff(f))), i);
    AndBit(w, Not(DwMask(f), W32), i);
    NotBit(DwMask(f), W32, i);
    DwMaskBit(f, i);
    PlacedBit(value, f, i);
  }

  /** A set changes exactly the bits of its field, to the low bits of the value. */
  lemma SetBits(buf: seq<u8>, value: u32, f: Field, k: nat)
    requires Fits(buf, f) && k < 8 * |buf|
    ensures BitOf(Set(buf, value, f), k) <==>
            if f.Covers(k) then TestBit(value, f.off + f.sz - 1 - k) else BitOf(buf, k)
  {
    WordOfSet(buf, value, f, k / 32);
    if k / 32 == f.off / 32 {
      SetWordBit(WordAt(buf, k / 32), value, f, 31 - k % 32);
    }
  }

  lemma GetWordBit(w: u32, f: Field, j: nat)
    requires f.InWord()
    ensures TestBit(And(Shr(w, DwBitOff(f)), Mask(f.sz)), j) <==>
            j < f.sz && TestBit(w, j + (32 - f.sz - f.off % 32))
  {
    LowFive(f.off);
    var s := DwBitOff(f);
    MaskIs(f.sz);
    AndBit(Shr(w, s), Mask(f.sz), j);
    MaskBit(f.sz, j);
    ShrBit(w, s, j);
  }

  lemma GetBits(buf: seq<u8>, f: Field, j: nat)
    requires Fits(buf, f) && f.off + f.sz <= 8 * |buf|
    ensures TestBit(Get(buf, f), j) <==> j < f.sz && BitOf(buf, f.off + f.sz - 1 - j)
  {
    GetWordBit(WordAt(buf, f.off / 32), f, j);
    if j < f.sz { BitInWord(f, j); }
  }

  lemma BitInWord(f: Field, j: nat)
    requires f.InWord() && j < f.sz
    ensures var k := f.off + f.sz - 1 - j;
      k / 32 == f.off / 32 && 31 - k % 32 == j + (32 - f.sz - f.off % 32)
  {
    ModUnique(f.off + f.sz - 1 - j, 32, f.off / 32, f.off % 32 + f.sz - 1 - j);
  }

  // ---------- a buffer as its bits ----------

  function View(buf: seq<u8>): (r: seq<bool>)
    requires Buffer(buf)
    ensures |r| == 8 * |buf|
  {
    seq(8 * |buf|, k requires 0 <= k < 8 * |buf| => BitOf(buf, k))
  }

  /** The bits of a field replaced by the low bits of a value. */
  function Overwrite(bits: seq<bool>, value: nat, f: Field): (r: seq<bool>)
    ensures |r| == |bits|
  {
    seq(|bits|, k requires 0 <= k < |bits| =>
      if f.Covers(k) then TestBit(value, f.off + f.sz - 1 - k) else bits[k])
  }

  /** The number a run of bits spells, most significant first. */
  function Number(bits: seq<bool>): nat {
    if bits == [] then 0
    else 2 * Number(bits[..|bits| - 1]) + if bits[|bits| - 1] then 1 else 0
  }

  function Read(bits: seq<bool>, f: Field): nat
    requires f.off + f.sz <= |bits|
  {
    Number(bits[f.off..f.off + f.sz])
  }

  lemma SetViewBit(buf: seq<u8>, value: u32, f: Field, k: nat)
    requires Fits(buf, f) && k < 8 * |buf|
    ensures View(Set(buf, value, f))[k] == Overwrite(View(buf), value, f)[k]
  {
    SetBits(buf, value, f, k);
  }

  /** The word-level writer is the bit-level one. */
  lemma SetView(buf: seq<u8>, value: u32, f: Field)
    requires Fits(buf, f)
    ensures View(Set(buf, value, f)) == Overwrite(View(buf), value, f)
  {
    forall k | 0 <= k < 8 * |buf| ensures View(Set(buf, value, f))[k] == Overwrite(View(buf), value, f)[k] {
      SetViewBit(buf, value, f, k);
    }
  }

  lemma RunBit(bits: seq<bool>, f: Field, j: nat)
    requires f.off + f.sz <= |bits|
    ensures TestBit(Read(bits, f), j) <==> j < f.sz && bits[f.off + f.sz - 1 - j]
  {
    NumberBit(bits[f.off..f.off + f.sz], j);
  }

  lemma SameBitRead(buf: seq<u8>, f: Field, j: nat)
    requires Fits(buf, f) && f.off + f.sz <= 8 * |buf|
    ensures TestBit(Get(buf, f), j) == TestBit(Read(View(buf), f), j)
  {
    GetBits(buf, f, j);
    RunBit(View(buf), f, j);
  }

  /** The word-level reader is the bit-level one. */
  lemma GetView(buf: seq<u8>, f: Field)
    requires Fits(buf, f)
    ensures f.off + f.sz <= 8 * |buf| && Get(buf, f) == Read(View(buf), f)
  {
    FitsBits(|buf|, f);
    forall j: nat ensures TestBit(Get(buf, f), j) == TestBit(Read(View(buf), f), j) {
      SameBitRead(buf, f, j);
    }
    SameBits(Get(buf, f), Read(View(buf), f));
  }

  lemma {:induction false} NumberBit(bits: seq<bool>, j: nat)
    ensures TestBit(Number(bits), j) <==> j < |bits| && bits[|bits| - 1 - j]
  {
    if bits == [] {
      ZeroBit(j);
    } else if j > 0 {
      NumberBit(bits[..|bits| - 1], j - 1);
    }
  }

  lemma SameBuffer(b: seq<u8>, c: seq<u8>)
    requires |b| == |c| && Buffer(b) && View(b) == View(c)
    ensures b == c
  {
    forall n | 0 <= n < |b| ensures b[n] == c[n] {
      SameWord(b, c, n / 4);
      var at := n / 4 * 4;
      Be32RoundTrip(0, b[at..at + 4]);
      Be32RoundTrip(0, c[at..at + 4]);
      assert b[n] == b[at..at + 4][n - at];
      assert c[n] == c[at..at + 4][n - at];
    }
  }

  lemma SameWord(b: seq<u8>, c: seq<u8>, dw: nat)
    requires |b| == |c| && Buffer(b) && View(b) == View(c) && 4 * dw < |b|
    ensures WordAt(b, dw) == WordAt(c, dw)
  {
    var x, y := WordAt(b, dw), WordAt(c, dw);
    forall i: nat ensures TestBit(x, i) == TestBit(y, i) {
      if i < 32 {
        var k := 32 * dw + (31 - i);
        ModUnique(k, 32, dw, 31 - i);
        assert View(b)[k] == View(c)[k];
      } else {
        Pow2Values();
        HighBit(x, W32, i);
        HighBit(y, W32, i);
      }
    }
    SameBits(x, y);
  }

  // ---------- what follows at the level of bits ----------

  lemma ReadOverwritten(bits: seq<bool>, value: nat, f: Field)
    requires f.off + f.sz <= |bits|
    ensures Read(Overwrite(bits, value, f), f) == value % Pow2(f.sz)
  {
    var run := Overwrite(bits, value, f)[f.off..f.off + f.sz];
    forall j: nat ensures TestBit(Number(run), j) == TestBit(Low(value, f.sz), j) {
      NumberBit(run, j);
      LowBit(value, f.sz, j);
    }
    SameBits(Number(run), Low(value, f.sz));
    LowIsMod(value, f.sz);
  }

  lemma ReadDisjoint(bits: seq<bool>, value: nat, f: Field, g: Field)
    requires g.off + g.sz <= |bits| && Disjoint(f, g)
    ensures Read(Overwrite(bits, value, f), g) == Read(bits, g)
  {
    assert Overwrite(bits, value, f)[g.off..g.off + g.sz] == bits[g.off..g.off + g.sz];
  }

  lemma GetBound(buf: seq<u8>, f: Field)
    requires Fits(buf, f)
    ensures Get(buf, f) < Pow2(f.sz)
  {
    MaskIs(f.sz);
    AndBound(Shr(WordAt(buf, f.off / 32), DwBitOff(f)), Mask(f.sz));
  }

  /** Reading a field back gives the value cut to the field's width. */
  lemma GetAfterSet(buf: seq<u8>, value: u32, f: Field)
    requires Fits(buf, f)
    ensures Get(Set(buf, value, f), f) == value % Pow2(f.sz)
  {
    FitsBits(|buf|, f);
    SetView(buf, value, f);
    GetView(Set(buf, value, f), f);
    ReadOverwritten(View(buf), value, f);
  }

  /** Every field that shares no bit with the one set reads as before. */
  lemma SetKeepsDisjoint(buf: seq<u8>, value: u32, f: Field, g: Field)
    requires Fits(buf, f) && Fits(buf, g) && Disjoint(f, g)
    ensures Get(Set(buf, value, f), g) == Get(buf, g)
  {
    SetView(buf, value, f);
    GetView(Set(buf, value, f), g);
    GetView(buf, g);
    ReadDisjoint(View(buf), value, f, g);
  }

  // ---------- lists of sets ----------

  datatype Assignment = Assignment(field: Field, value: u32)

  ghost predicate PairwiseDisjoint(sets: seq<Assignment>) {
    forall i, j :: 0 <= i < j < |sets| ==> Disjoint(sets[i].field, sets[j].field)
  }

  predicate AllFitIn(length: nat, sets: seq<Assignment>) {
    length % 4 == 0 && forall i :: 0 <= i < |sets| ==> FitsIn(length, sets[i].field)
  }

  function SetAll(buf: seq<u8>, sets: seq<Assignment>): (r: seq<u8>)
    requires AllFitIn(|buf|, sets)
    ensures |r| == |buf|
    decreases |sets|
  {
    if sets == [] then buf
    else SetAll(Set(buf, sets[0].value, sets[0].field), sets[1..])
  }

  function OverwriteAll(bits: seq<bool>, sets: seq<Assignment>): (r: seq<bool>)
    ensures |r| == |bits|
    decreases |sets|
  {
    if sets == [] then bits
    else OverwriteAll(Overwrite(bits, sets[0].value, sets[0].field), sets[1..])
  }

  lemma {:induction false} SetAllView(buf: seq<u8>, sets: seq<Assignment>)
    requires AllFitIn(|buf|, sets)
    ensures View(SetAll(buf, sets)) == OverwriteAll(View(buf), sets)
    decreases |sets|
  {
    if sets != [] {
      var b := Set(buf, sets[0].value, sets[0].field);
      SetView(buf, sets[0].value, sets[0].field);
      SetAllView(b, sets[1..]);
    }
  }

  lemma {:induction false} UntouchedBit(bits: seq<bool>, sets: seq<Assignment>, k: nat)
    requires k < |bits| && forall i :: 0 <= i < |sets| ==> !sets[i].field.Covers(k)
    ensures OverwriteAll(bits, sets)[k] == bits[k]
    decreases |sets|
  {
    if sets != [] {
      UntouchedBit(Overwrite(bits, sets[0].value, sets[0].field), sets[1..], k);
    }
  }

  /** Among disjoint fields, the one that covers a bit decides it. */
  lemma {:induction false} CoveredBit(bits: seq<bool>, sets: seq<Assignment>, k: nat, i: nat)
    requires k < |bits| && PairwiseDisjoint(sets) && i < |sets| && sets[i].field.Covers(k)
    ensures OverwriteAll(bits, sets)[k] == TestBit(sets[i].value, sets[i].field.off + sets[i].field.sz - 1 - k)
    decreases |sets|
  {
    var first := Overwrite(bits, sets[0].value, sets[0].field);
    if i == 0 {
      forall j | 0 <= j < |sets[1..]| ensures !sets[1..][j].field.Covers(k) {
        assert Disjoint(sets[0].field, sets[j + 1].field);
      }
      UntouchedBit(first, sets[1..], k);
    } else {
      CoveredBit(first, sets[1..], k, i - 1);
    }
  }

  lemma SameSlice(b: seq<bool>, c: seq<bool>, f: Field)
    requires |b| == |c| && f.off + f.sz <= |b|
    requires forall k: nat :: f.Covers(k) ==> b[k] == c[k]
    ensures Read(b, f) == Read(c, f)
  {
    assert forall k: nat :: f.off <= k < f.off + f.sz ==> f.Covers(k);
    assert b[f.off..f.off + f.sz] == c[f.off..f.off + f.sz];
  }

  lemma DecidedBit(bits: seq<bool>, sets: seq<Assignment>, k: nat, i: nat)
    requires k < |bits| && PairwiseDisjoint(sets) && i < |sets| && sets[i].field.Covers(k)
    ensures OverwriteAll(bits, sets)[k] == Overwrite(bits, sets[i].value, sets[i].field)[k]
  {
    CoveredBit(bits, sets, k, i);
    OverwrittenBit(bits, sets[i].value, sets[i].field, k);
  }

  lemma OverwrittenBit(bits: seq<bool>, value: nat, f: Field, k: nat)
    requires k < |bits| && f.Covers(k)
    ensures Overwrite(bits, value, f)[k] == TestBit(value, f.off + f.sz - 1 - k)
  {}

  lemma ReadOneOfMany(bits: seq<bool>, sets: seq<Assignment>, i: nat)
    requires PairwiseDisjoint(sets) && i < |sets| && sets[i].field.off + sets[i].field.sz <= |bits|
    ensures Read(OverwriteAll(bits, sets), sets[i].field) == sets[i].value % Pow2(sets[i].field.sz)
  {
    var f, v := sets[i].field, sets[i].value;
    forall k: nat | f.Covers(k) ensures OverwriteAll(bits, sets)[k] == Overwrite(bits, v, f)[k] {
      DecidedBit(bits, sets, k, i);
    }
    SameSlice(OverwriteAll(bits, sets), Overwrite(bits, v, f), f);
    ReadOverwritten(bits, v, f);
  }

  lemma ReadUntouched(bits: seq<bool>, sets: seq<Assignment>, g: Field)
    requires g.off + g.sz <= |bits| && forall i :: 0 <= i < |sets| ==> Disjoint(sets[i].field, g)
    ensures Read(OverwriteAll(bits, sets), g) == Read(bits, g)
  {
    forall k: nat | g.Covers(k) ensures OverwriteAll(bits, sets)[k] == bits[k] {
      UntouchedBit(bits, sets, k);
    }
    SameSlice(OverwriteAll(bits, sets), bits, g);
  }

  lemma OverwriteAllOrder(bits: seq<bool>, xs: seq<Assignment>, ys: seq<Assignment>)
    requires PairwiseDisjoint(xs) && PairwiseDisjoint(ys)
    requires forall a :: a in xs <==> a in ys
    ensures OverwriteAll(bits, xs) == OverwriteAll(bits, ys)
  {
    forall k | 0 <= k < |bits| ensures OverwriteAll(bits, xs)[k] == OverwriteAll(bits, ys)[k] {
      if i :| 0 <= i < |xs| && xs[i].field.Covers(k) {
        assert xs[i] in ys;
        var j :| 0 <= j < |ys| && ys[j] == xs[i];
        CoveredBit(bits, xs, k, i);
        CoveredBit(bits, ys, k, j);
      } else {
        forall j | 0 <= j < |ys| ensures !ys[j].field.Covers(k) {
          assert ys[j] in xs;
        }
        UntouchedBit(bits, xs, k);
        UntouchedBit(bits, ys, k);
      }
    }
  }

  /** After any list of sets to disjoint fields, each field reads its own value. */
  lemma GetAfterSetAll(buf: seq<u8>, sets: seq<Assignment>, i: nat)
    requires AllFitIn(|buf|, sets) && PairwiseDisjoint(sets) && i < |sets|
    ensures Get(SetAll(buf, sets), sets[i].field) == sets[i].value % Pow2(sets[i].field.sz)
  {
    SetAllView(buf, sets);
    GetView(SetAll(buf, sets), sets[i].field);
    ReadOneOfMany(View(buf), sets, i);
  }

  /** A field none of them touches reads as it did. */
  lemma GetUntouched(buf: seq<u8>, sets: seq<Assignment>, g: Field)
    requires AllFitIn(|buf|, sets) && FitsIn(|buf|, g)
    requires forall i :: 0 <= i < |sets| ==> Disjoint(sets[i].field, g)
    ensures Get(SetAll(buf, sets), g) == Get(buf, g)
  {
    SetAllView(buf, sets);
    GetView(SetAll(buf, sets), g);
    GetView(buf, g);
    ReadUntouched(View(buf), sets, g);
  }

  /** The order of sets to disjoint fields does not matter. */
  lemma OrderIrrelevant(buf: seq<u8>, xs: seq<Assignment>, ys: seq<Assignment>)
    requires AllFitIn(|buf|, xs) && AllFitIn(|buf|, ys) && PairwiseDisjoint(xs) && PairwiseDisjoint(ys)
    requires forall a :: a in xs <==> a in ys
    ensures SetAll(buf, xs) == SetAll(buf, ys)
  {
    SetAllView(buf, xs);
    SetAllView(buf, ys);
    OverwriteAllOrder(View(buf), xs, ys);
    SameBuffer(SetAll(buf, xs), SetAll(buf, ys));
  }

  // ---------- the 64-bit form ----------

  lemma Get64AfterSet64(buf: seq<u8>, value: u64, off: nat)
    requires Fits64(buf, off)
    ensures Get64(Set64(buf, value, off), off) == value
  {
    var q := off / 64 * 8;
    assert Set64(buf, value, off)[q..q + 8] == Be64(value);
    Be64RoundTrip(value);
  }

  lemma FullWordSet(w: u32, value: u32, f: Field)
    requires f.sz == 32 && f.off % 32 == 0
    ensures SetWord(w, value, f) == value
  {
    forall i: nat ensures TestBit(SetWord(w, value, f), i) == TestBit(value, i) {
      if i < 32 {
        SetWordBit(w, value, f, i);
      } else {
        Pow2Values();
        HighBit(SetWord(w, value, f), W32, i);
        HighBit(value, W32, i);
      }
    }
    SameBits(SetWord(w, value, f), value);
  }

  lemma FullSet(buf: seq<u8>, value: u32, dw: nat)
    requires Buffer(buf) && 4 * dw + 4 <= |buf|
    ensures Fits(buf, Field(32 * dw, 32))
    ensures Set(buf, value, Field(32 * dw, 32)) == Splice(buf, 4 * dw, Be32(value))
  {
    var f := Field(32 * dw, 32);
    ModUnique(32 * dw, 32, dw, 0);
    FullWordSet(WordAt(buf, dw), value, f);
  }

  /** Where the quadword that holds bit `off` begins. */
  function QuadOf(off: nat): nat { off / 64 * 64 }

  /** The 64-bit writer is two 32-bit writes, high half first, to the quadword its offset falls in. */
  lemma Set64IsTwoSets(buf: seq<u8>, value: u64, off: nat)
    requires Fits64(buf, off)
    ensures Fits(buf, Field(QuadOf(off), 32)) && Fits(buf, Field(QuadOf(off) + 32, 32))
    ensures Set64(buf, value, off) ==
            Set(Set(buf, value / TWO_32, Field(QuadOf(off), 32)), value % TWO_32, Field(QuadOf(off) + 32, 32))
  {
    TwoFullSets(buf, value / TWO_32, value % TWO_32, off / 64 * 2);
  }

  lemma TwoFullSets(buf: seq<u8>, hi: u32, lo: u32, dw: nat)
    requires Buffer(buf) && 4 * dw + 8 <= |buf|
    ensures Fits(buf, Field(32 * dw, 32)) && Fits(buf, Field(32 * dw + 32, 32))
    ensures Set(Set(buf, hi, Field(32 * dw, 32)), lo, Field(32 * dw + 32, 32)) ==
            Splice(buf, 4 * dw, Be32(hi) + Be32(lo))
  {
    FullSet(buf, hi, dw);
    var b := Set(buf, hi, Field(32 * dw, 32));
    FullSet(b, lo, dw + 1);
    assert Field(32 * (dw + 1), 32) == Field(32 * dw + 32, 32);
    SpliceTwice(buf, 4 * dw, Be32(hi), Be32(lo));
  }

  lemma SpliceTwice(buf: seq<u8>, at: nat, x: Bytes4, y: Bytes4)
    requires at + 8 <= |buf|
    ensures Splice(Splice(buf, at, x), at + 4, y) == Splice(buf, at, x + y)
  {}

  /** So it replaces all 64 bits of that quadword, wherever in it the offset points. */
  lemma Set64View(buf: seq<u8>, value: u64, off: nat)
    requires Fits64(buf, off)
    ensures View(Set64(buf, value, off)) == Overwrite(View(buf), value, Field(QuadOf(off), 64))
  {
    var q := QuadOf(off);
    var hi, lo := Field(q, 32), Field(q + 32, 32);
    Set64IsTwoSets(buf, value, off);
    SetView(buf, value / TWO_32, hi);
    SetView(Set(buf, value / TWO_32, hi), value % TWO_32, lo);
    TwoHalves(View(buf), value, q);
  }

  lemma TwoHalves(bits: seq<bool>, value: u64, q: nat)
    requires q + 64 <= |bits|
    ensures Overwrite(Overwrite(bits, value / TWO_32, Field(q, 32)), value % TWO_32, Field(q + 32, 32)) ==
            Overwrite(bits, value, Field(q, 64))
  {
    var two := Overwrite(Overwrite(bits, value / TWO_32, Field(q, 32)), value % TWO_32, Field(q + 32, 32));
    forall k | 0 <= k < |bits| ensures two[k] == Overwrite(bits, value, Field(q, 64))[k] {
      if q <= k < q + 64 { HalfBits(value, q + 63 - k); }
    }
  }

  lemma HalfBits(value: u64, i: nat)
    ensures i < 32 ==> (TestBit(value % TWO_32, i) <==> TestBit(value, i))
    ensures i >= 32 ==> (TestBit(value / TWO_32, i - 32) <==> TestBit(value, i))
  {
    CastBit(value, i);
    ShrIsDiv(value, W32);
    Pow2Values();
    if i >= 32 { ShrBit(value, W32, i - 32); }
  }

  lemma BitOfSet64(buf: seq<u8>, value: u64, off: nat, k: nat)
    requires Fits64(buf, off) && QuadOf(off) <= k < QuadOf(off) + 64
    ensures k < 8 * |buf|
    ensures BitOf(Set64(buf, value, off), k) <==> TestBit(value, QuadOf(off) + 63 - k)
  {
    Set64View(buf, value, off);
    assert View(Set64(buf, value, off))[k] == Overwrite(View(buf), value, Field(QuadOf(off), 64))[k];
  }

  lemma QuadBit(off: nat, f: Field, j: nat)
    requires f.off / 64 == off / 64 && f.off % 64 + f.sz <= 64 && j < f.sz
    ensures var k := f.off + f.sz - 1 - j;
      QuadOf(off) <= k < QuadOf(off) + 64 && QuadOf(off) + 63 - k == j + (64 - f.off % 64 - f.sz)
  {
    assert QuadOf(off) == f.off - f.off % 64;
  }

  lemma BitInsideQuad(buf: seq<u8>, value: u64, off: nat, f: Field, j: nat, k: nat)
    requires Fits64(buf, off) && Fits(buf, f) && j < f.sz && k == f.off + f.sz - 1 - j
    requires QuadOf(off) <= k < QuadOf(off) + 64
    ensures TestBit(Get(Set64(buf, value, off), f), j) <==> TestBit(value, QuadOf(off) + 63 - k)
  {
    FitsBits(|buf|, f);
    GetBits(Set64(buf, value, off), f, j);
    BitOfSet64(buf, value, off, k);
  }

  lemma BitAfterSet64(buf: seq<u8>, value: u64, off: nat, f: Field, j: nat)
    requires Fits64(buf, off) && Fits(buf, f) && f.off / 64 == off / 64 && f.off % 64 + f.sz <= 64
    ensures TestBit(Get(Set64(buf, value, off), f), j) <==> j < f.sz && TestBit(value, j + (64 - f.off % 64 - f.sz))
  {
    if j < f.sz {
      QuadBit(off, f, j);
      BitInsideQuad(buf, value, off, f, j, f.off + f.sz - 1 - j);
    } else {
      GetBound(Set64(buf, value, off), f);
      HighBit(Get(Set64(buf, value, off), f), f.sz, j);
    }
  }

  /** What a 32-bit read of a field inside the quadword sees after a 64-bit write. */
  lemma GetAfterSet64(buf: seq<u8>, value: u64, off: nat, f: Field)
    requires Fits64(buf, off) && Fits(buf, f) && f.off / 64 == off / 64
    ensures f.off % 64 + f.sz <= 64
    ensures Get(Set64(buf, value, off), f) == value / Pow2(64 - f.off % 64 - f.sz) % Pow2(f.sz)
  {
    WithinQuad(f);
    var shift := 64 - f.off % 64 - f.sz;
    var got, want := Get(Set64(buf, value, off), f), Low(Shr(value, shift), f.sz);
    forall j: nat ensures TestBit(got, j) == TestBit(want, j) {
      BitAfterSet64(buf, value, off, f, j);
      LowBit(Shr(value, shift), f.sz, j);
      ShrBit(value, shift, j);
    }
    SameBits(got, want);
    ShrIsDiv(value, shift);
    LowIsMod(Shr(value, shift), f.sz);
  }

  lemma WithinQuad(f: Field)
    requires f.InWord()
    ensures f.off % 64 + f.sz <= 64
  {
    assert f.off % 64 == f.off % 32 || f.off % 64 == f.off % 32 + 32;
  }

  lemma FlagShifted(flag: nat, shift: nat)
    requires flag <= 1
    ensures flag / Pow2(shift) % Pow2(1) == if shift == 0 then flag else 0
  {
    assert Pow2(1) == 2;
    if shift > 0 {
      Pow2Monotone(1, shift);
      ModUnique(flag, Pow2(shift), 0, flag);
    }
  }

  /** A one-bit flag set through the 64-bit writer reads back exactly when it is the quadword's last bit, or is 0. */
  lemma FlagThroughSet64(buf: seq<u8>, flag: nat, off: nat)
    requires flag <= 1 && Fits64(buf, off)
    ensures Fits(buf, Field(off, 1))
    ensures Get(Set64(buf, flag, off), Field(off, 1)) == flag <==> flag == 0 || off % 64 == 63
  {
    GetAfterSet64(buf, flag, off, Field(off, 1));
    FlagShifted(flag, 63 - off % 64);
  }

  // ---------- a field as bytes ----------

  /** The field that starts at bit `o` of word `dw`. */
  lemma GetIsDiv(buf: seq<u8>, f: Field, dw: nat, o: nat)
    requires Fits(buf, f) && f.off == 32 * dw + o && o < 32
    ensures 4 * dw + 4 <= |buf|
    ensures Get(buf, f) == FromBe32(buf[4 * dw..4 * dw + 4]) / Pow2(32 - f.sz - o) % Pow2(f.sz)
  {
    var sh, w := 32 - f.sz - o, WordAt(buf, dw);
    assert f.off / 32 == dw && f.off % 32 == o;
    LowFive(f.off);
    MaskIs(f.sz);
    ShrIsDiv(w, sh);
    AndMaskIsLow(w / Pow2(sh), f.sz);
    LowIsMod(w / Pow2(sh), f.sz);
  }

  lemma HalfOfSum(p: nat, h: nat, b: nat)
    ensures (2 * p * h + b) / 2 == p * h + b / 2 && (2 * p * h + b) % 2 == b % 2
  {
    assert 2 * p * h == 2 * (p * h);
  }

  /** What lies above the low `t` bits does not show in a part of them. */
  lemma {:induction false} PartOfLow(t: nat, h: nat, b: nat, s: nat, sz: nat)
    requires s + sz <= t
    ensures (Pow2(t) * h + b) / Pow2(s) % Pow2(sz) == b / Pow2(s) % Pow2(sz)
  {
    var x := Pow2(t) * h + b;
    if s > 0 {
      HalfOfSum(Pow2(t - 1), h, b);
      HalfDiv(x, Pow2(s - 1));
      HalfDiv(b, Pow2(s - 1));
      PartOfLow(t - 1, h, b / 2, s - 1, sz);
    } else if sz > 0 {
      HalfOfSum(Pow2(t - 1), h, b);
      HalfMod(x, Pow2(sz - 1));
      HalfMod(b, Pow2(sz - 1));
      PartOfLow(t - 1, h, b / 2, 0, sz - 1);
      assert Pow2(0) == 1;
    } else {
      assert Pow2(0) == 1;
    }
  }

  lemma PartOfByte(h: nat, b: u8, s: nat, sz: nat)
    requires s + sz <= 8
    ensures (0x100 * h + b) / Pow2(s) % Pow2(sz) == b / Pow2(s) % Pow2(sz)
  {
    assert Pow2(W8) == 0x100 by { Pow2Values(); }
    PartOfLow(W8, h, b, s, sz);
  }

  lemma {:induction false} DivTwice(x: nat, a: nat, b: nat)
    ensures x / Pow2(a + b) == x / Pow2(a) / Pow2(b)
  {
    if a == 0 {
      assert Pow2(0) == 1;
    } else {
      HalfDiv(x, Pow2(a + b - 1));
      HalfDiv(x, Pow2(a - 1));
      DivTwice(x / 2, a - 1, b);
    }
  }

  /** The bytes of a word up to and including the `i`th. */
  lemma WordPrefix(w: Bytes4, i: nat) returns (h: nat)
    requires i < 4
    ensures FromBe32(w) / Pow2(8 * (3 - i)) == 0x100 * h + w[i]
  {
    var b0: nat, b1: nat, b2: nat, b3: nat := w[0], w[1], w[2], w[3];
    Pow2Values();
    assert Pow2(0) == 1;
    match i {
      case 0 => h := 0; ModUnique(FromBe32(w), 0x100_0000, b0, 0x1_0000 * b1 + 0x100 * b2 + b3);
      case 1 => h := b0; ModUnique(FromBe32(w), 0x1_0000, 0x100 * b0 + b1, 0x100 * b2 + b3);
      case 2 => h := 0x100 * b0 + b1; ModUnique(FromBe32(w), 0x100, 0x1_0000 * b0 + 0x100 * b1 + b2, b3);
      case 3 => h := 0x1_0000 * b0 + 0x100 * b1 + b2;
    }
  }

  lemma PartOfWord(w: Bytes4, i: nat, s: nat, sz: nat)
    requires i < 4 && s + sz <= 8
    ensures FromBe32(w) / Pow2(8 * (3 - i) + s) % Pow2(sz) == w[i] / Pow2(s) % Pow2(sz)
  {
    var h := WordPrefix(w, i);
    DivTwice(FromBe32(w), 8 * (3 - i), s);
    PartOfByte(h, w[i], s, sz);
  }

  /** A field inside one byte, at bit `r` of byte `i` of word `dw`, is that part of the byte. */
  lemma GetInByte(buf: seq<u8>, f: Field, dw: nat, i: nat, r: nat)
    requires Fits(buf, f) && f.off == 32 * dw + 8 * i + r && i < 4 && r + f.sz <= 8
    ensures 4 * dw + i < |buf| && Get(buf, f) == buf[4 * dw + i] / Pow2(8 - r - f.sz) % Pow2(f.sz)
  {
    GetIsDiv(buf, f, dw, 8 * i + r);
    PartOfWord(buf[4 * dw..4 * dw + 4], i, 8 - r - f.sz, f.sz);
  }

  /** Big-endian numbers of two and three bytes. */
  function Be16At(buf: seq<u8>, k: nat): nat
    requires k + 2 <= |buf|
  {
    0x100 * (buf[k] as nat) + buf[k + 1]
  }

  function Be24At(buf: seq<u8>, k: nat): nat
    requires k + 3 <= |buf|
  {
    0x1_0000 * (buf[k] as nat) + 0x100 * (buf[k + 1] as nat) + buf[k + 2]
  }

  lemma LowHalfOf(w: Bytes4)
    ensures FromBe32(w) / Pow2(0) % Pow2(16) == Be16At(w, 2)
  {
    Pow2Values();
    assert Pow2(0) == 1 && Pow2(16) == Pow2(W16);
    ModUnique(FromBe32(w), 0x1_0000, 0x100 * (w[0] as nat) + w[1], Be16At(w, 2));
  }

  lemma GetLowHalf(buf: seq<u8>, f: Field, dw: nat)
    requires Fits(buf, f) && f.off == 32 * dw + 16 && f.sz == 16
    ensures 4 * dw + 4 <= |buf| && Get(buf, f) == Be16At(buf, 4 * dw + 2)
  {
    GetIsDiv(buf, f, dw, 16);
    LowHalfOf(buf[4 * dw..4 * dw + 4]);
  }

  lemma Low24Of(w: Bytes4)
    ensures FromBe32(w) / Pow2(0) % Pow2(24) == Be24At(w, 1)
  {
    Pow2Values();
    assert Pow2(0) == 1 && Pow2(24) == Pow2(W24);
    ModUnique(FromBe32(w), 0x100_0000, w[0], Be24At(w, 1));
  }

  lemma GetLow24(buf: seq<u8>, f: Field, dw: nat)
    requires Fits(buf, f) && f.off == 32 * dw + 8 && f.sz == 24
    ensures 4 * dw + 4 <= |buf| && Get(buf, f) == Be24At(buf, 4 * dw + 1)
  {
    GetIsDiv(buf, f, dw, 8);
    Low24Of(buf[4 * dw..4 * dw + 4]);
  }

  lemma AcrossOf(w: Bytes4)
    ensures FromBe32(w) / Pow2(20) % Pow2(8) == w[0] % 16 * 16 + w[1] / 16
  {
    var b0: nat, b1: nat, b2: nat, b3: nat := w[0], w[1], w[2], w[3];
    Pow2Values();
    Pow2Add(W16, W4);
    ModUnique(FromBe32(w), 0x10_0000, 0x10 * b0 + b1 / 16, 0x1_0000 * (b1 % 16) + 0x100 * b2 + b3);
    ModUnique(0x10 * b0 + b1 / 16, 0x100, b0 / 16, b0 % 16 * 16 + b1 / 16);
  }

  /** A byte that starts half a byte into a word. */
  lemma GetAcross(buf: seq<u8>, f: Field, dw: nat)
    requires Fits(buf, f) && f.off == 32 * dw + 4 && f.sz == 8
    ensures 4 * dw + 4 <= |buf| && Get(buf, f) == buf[4 * dw] % 16 * 16 + buf[4 * dw + 1] / 16
  {
    GetIsDiv(buf, f, dw, 4);
    AcrossOf(buf[4 * dw..4 * dw + 4]);
  }

}
