/** The words the CPU proxy writes for the NIC, and what the NIC reads back out of them. */
module Doorbell {
  import opened Bits
  import opened ByteOrder

  // ---------- queue number and segment count ----------

  /** `htobe32((sq_num << 8) | ds)` as it lies in memory. */
  function QpnDsBytes(qpn: u32, ds: nat): Bytes4
    requires ds < 0x100
  {
    OrCast(U32(Shl(qpn, 8)), ds);
    Be32(Or(U32(Shl(qpn, 8)), ds))
  }

  function QpnOf(b: Bytes4): nat { FromBe32(b) / 0x100 }

  function DsOf(b: Bytes4): nat { FromBe32(b) % 0x100 }

  lemma OrCast(x: u32, y: nat)
    requires y < 0x100
    ensures Or(x, y) < TWO_32
  {
    Pow2Values();
    OrBound(x, y, W32);
  }

  lemma {:induction false} OrBelow(x: nat, k: nat, y: nat)
    requires y < Pow2(k)
    ensures Or(Shl(x, k), y) == Shl(x, k) + y
  {
    if k > 0 {
      OrBelow(x, k - 1, y / 2);
      assert Shl(x, k) % 2 == 0 && Shl(x, k) / 2 == Shl(x, k - 1);
    }
  }

  /** A left shift by one byte in 32 bits loses the top byte and nothing else. */
  lemma ShiftByte(x: u32)
    ensures U32(Shl(x, 8)) == 0x100 * (x % 0x100_0000)
  {
    Pow2Values();
    ShlIsMul(x, W8);
    ModUnique(0x100 * x, TWO_32, x / 0x100_0000, 0x100 * (x % 0x100_0000));
  }

  lemma OrLowByte(x: u32, y: nat)
    requires y < 0x100
    ensures Or(U32(Shl(x, 8)), y) == 0x100 * (x % 0x100_0000) + y
  {
    Pow2Values();
    ShiftByte(x);
    ShlIsMul(x % 0x100_0000, W8);
    OrBelow(x % 0x100_0000, W8, y);
  }

  /** The low three bytes of the number, most significant first, and the count. */
  lemma QpnDsDigits(qpn: u32, ds: nat)
    requires ds < 0x100
    ensures QpnDsBytes(qpn, ds) == [qpn / 0x1_0000 % 0x100, qpn / 0x100 % 0x100, qpn % 0x100, ds]
  {
    OrLowByte(qpn, ds);
    Digits24(qpn);
    BytesOfWord(qpn % 0x100_0000, qpn / 0x1_0000 % 0x100, qpn / 0x100 % 0x100, qpn % 0x100, ds);
  }

  lemma BytesOfWord(x: nat, b0: u8, b1: u8, b2: u8, ds: u8)
    requires x < 0x100_0000 && x == 0x1_0000 * (b0 as nat) + 0x100 * (b1 as nat) + b2
    ensures Be32(0x100 * x + ds) == [b0, b1, b2, ds]
  {
    DigitsBack(b0, b1, b2, ds);
    assert FromBe32([b0, b1, b2, ds]) == 0x100 * x + ds;
  }

  lemma Digits24(x: nat)
    ensures x % 0x100_0000 == 0x1_0000 * (x / 0x1_0000 % 0x100) + 0x100 * (x / 0x100 % 0x100) + x % 0x100
  {
    var y, z := x / 0x100, x / 0x1_0000;
    ModUnique(y, 0x100, z, y % 0x100);
    ModUnique(x, 0x100_0000, z / 0x100, 0x1_0000 * (z % 0x100) + 0x100 * (y % 0x100) + x % 0x100);
  }

  /** A 24-bit queue number and a count below 256 both survive; a wider queue number does not. */
  lemma QpnDsRoundTrip(qpn: u32, ds: nat)
    requires ds < 0x100
    ensures DsOf(QpnDsBytes(qpn, ds)) == ds
    ensures QpnOf(QpnDsBytes(qpn, ds)) == qpn <==> qpn < 0x100_0000
  {
    QpnDsWord(qpn, ds);
    ModUnique(0x100 * (qpn % 0x100_0000) + ds, 0x100, qpn % 0x100_0000, ds);
    CutTo24(qpn);
  }

  lemma CutTo24(x: nat)
    ensures x % 0x100_0000 == x <==> x < 0x100_0000
  {}

  lemma QpnDsWord(qpn: u32, ds: nat)
    requires ds < 0x100
    ensures FromBe32(QpnDsBytes(qpn, ds)) == 0x100 * (qpn % 0x100_0000) + ds
  {
    OrLowByte(qpn, ds);
    Be32RoundTrip(0x100 * (qpn % 0x100_0000) + ds, Be32(0));
  }

  /** A queue number as the device gives it out. */
  type Qpn = x: nat | x < 0x100_0000

  /**
   The word an exported queue pair holds for its doorbells.  The object starts out zeroed and
   only the branch that makes the CPU a full proxy copies the number in.
   */
  function HeldWord(fullProxy: bool, qpn: Qpn): Bytes4 {
    if fullProxy then QpnDsBytes(qpn, 0) else [0, 0, 0, 0]
  }

  /** So a doorbell names its queue exactly when the CPU is a full proxy, or the number is 0. */
  lemma HeldWordNames(fullProxy: bool, qpn: Qpn)
    ensures QpnOf(HeldWord(fullProxy, qpn)) == qpn <==> fullProxy || qpn == 0
    ensures DsOf(HeldWord(fullProxy, qpn)) == 0
  {
    QpnDsRoundTrip(qpn, 0);
  }

  // ---------- the doorbell word and the doorbell record ----------

  /** `{htobe32(tmp_db << 8), sq_num_shift8_be}` as the eight bytes of the register. */
  function DoorbellWord(tmp: u32, qpnDs: Bytes4): Bytes8 {
    Be32(U32(Shl(tmp, 8))) + qpnDs
  }

  /** `htobe32(tmp_db & 0xffff)` as the four bytes of the record. */
  function RecordWord(tmp: u32): Bytes4 {
    AndBound(tmp, 0xffff);
    Be32(And(tmp, 0xffff))
  }

  /** The work-queue index a doorbell announces: bits 8 to 23 of its first word. */
  function IndexOfDoorbell(w: Bytes8): u16 { 0x100 * (w[1] as nat) + w[2] }

  function IndexOfRecord(b: Bytes4): u16 { 0x100 * (b[2] as nat) + b[3] }

  lemma RecordBytes(tmp: u32)
    ensures IndexOfRecord(RecordWord(tmp)) == tmp % 0x1_0000
  {
    Pow2Values();
    AndMaskIsLow(tmp, W16);
    LowIsMod(tmp, W16);
    TwoBytes(tmp % 0x1_0000);
  }

  lemma RecordWordHigh(tmp: u32)
    ensures RecordWord(tmp)[0] == RecordWord(tmp)[1] == 0
  {
    Pow2Values();
    AndMaskIsLow(tmp, W16);
    LowIsMod(tmp, W16);
  }

  lemma TwoBytes(x: u16)
    ensures 0x100 * (x / 0x100 % 0x100) + x % 0x100 == x
  {}

  lemma DoorbellBytes(tmp: u32, w: nat)
    requires w == 0x100 * (tmp % 0x100_0000)
    ensures 0x100 * (w / 0x1_0000 % 0x100) + w / 0x100 % 0x100 == tmp % 0x1_0000
  {
    var t := tmp % 0x100_0000;
    var lo := tmp % 0x1_0000;
    var q := tmp / 0x100_0000;
    var h := t / 0x1_0000;
    ModUnique(t, 0x1_0000, h, t % 0x1_0000);
    ModUnique(tmp, 0x1_0000, 0x100 * q + h, t % 0x1_0000);
    assert t == 0x1_0000 * h + lo;
    TwoBytes(lo);
    ModUnique(t, 0x100, 0x100 * h + lo / 0x100, lo % 0x100);
    ModUnique(w, 0x100, t, 0);
    ModUnique(w, 0x1_0000, t / 0x100, 0x100 * (t % 0x100));
    ModUnique(t / 0x100, 0x100, h, lo / 0x100);
  }

  lemma BothCarryTheSameIndex(tmp: u32, qpnDs: Bytes4)
    ensures IndexOfDoorbell(DoorbellWord(tmp, qpnDs)) == tmp % 0x1_0000
    ensures IndexOfRecord(RecordWord(tmp)) == tmp % 0x1_0000
    ensures DoorbellWord(tmp, qpnDs)[4..] == qpnDs
  {
    RecordBytes(tmp);
    ShiftByte(tmp);
    DoorbellBytes(tmp, 0x100 * (tmp % 0x100_0000));
  }

  /** The index the NIC infers from 16 bits and the last full index it knew. */
  function Recover(known: nat, index: u16): nat {
    known + (index - known) % 0x1_0000
  }

  lemma RecoverExact(known: nat, index: nat)
    ensures known <= index < known + 0x1_0000 ==> Recover(known, index % 0x1_0000) == index
  {
    if known <= index < known + 0x1_0000 {
      var d := index - known;
      assert (index % 0x1_0000 - known) % 0x1_0000 == d % 0x1_0000;
    }
  }

  /** Sixteen bits are enough for every ring below 2^16 slots, and for none from 2^16 on. */
  lemma SixteenBitsSuffice(slots: nat)
    ensures (forall known: nat, index: nat :: known <= index <= known + slots ==> Recover(known, index % 0x1_0000) == index)
            <==> slots < 0x1_0000
  {
    if slots < 0x1_0000 {
      forall known: nat, index: nat | known <= index <= known + slots
        ensures Recover(known, index % 0x1_0000) == index
      {
        RecoverExact(known, index);
      }
    } else {
      var index: nat := 0x1_0000;
      assert Recover(0, index % 0x1_0000) != index;
    }
  }

  lemma CastKeepsLowHalf(x: nat)
    ensures U32(x) % 0x1_0000 == x % 0x1_0000
  {
    var q := x / TWO_32;
    ModUnique(x, 0x1_0000, 0x1_0000 * q + U32(x) / 0x1_0000, U32(x) % 0x1_0000);
  }

  /** The full producer index comes back from either word the proxy writes for it. */
  lemma RecoverFromEitherWord(known: nat, index: u64, slots: nat, qpnDs: Bytes4)
    requires slots < 0x1_0000 && known <= index <= known + slots
    ensures Recover(known, IndexOfDoorbell(DoorbellWord(U32(index), qpnDs))) == index
    ensures Recover(known, IndexOfRecord(RecordWord(U32(index)))) == index
  {
    BothCarryTheSameIndex(U32(index), qpnDs);
    CastKeepsLowHalf(index);
    RecoverExact(known, index);
  }

  // ---------- the stores of one progress call, in program order ----------

  datatype Location = DoorbellRegister | DoorbellRecord

  datatype Operation = Store(location: Location, word: seq<u8>) | ReleaseFence

  /** Which branch of the proxy runs: the two full-assisted forms and the DBR-assisted one. */
  datatype Mode = FullAssisted | FullAssistedNoDbrHw | DbrAssisted

  function ProgressStores(mode: Mode, tmp: u32, qpnDs: Bytes4): seq<Operation> {
    var ring := Store(DoorbellRegister, DoorbellWord(tmp, qpnDs));
    var record := Store(DoorbellRecord, RecordWord(tmp));
    match mode
    case FullAssisted => [ring, record, ReleaseFence, ring]
    case FullAssistedNoDbrHw => [ring]
    case DbrAssisted => [record, ReleaseFence, ring]
  }

}
