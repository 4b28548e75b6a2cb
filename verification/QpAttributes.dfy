/** The attributes of a queue-pair modify call: the mask, the required and optional tables, and the checks. */
module QpAttributes {
  import opened Bits
  import opened PowerOfTwo

  // ---------- attribute bits ----------

  const ALLOW_REMOTE_WRITE: nat := 0
  const ALLOW_REMOTE_READ: nat := 1
  const PKEY_INDEX: nat := 2
  const MIN_RNR_TIMER: nat := 3
  const PORT_NUM: nat := 4
  const NEXT_STATE: nat := 5
  const CURRENT_STATE: nat := 6
  const PATH_MTU: nat := 7
  const RQ_PSN: nat := 8
  const SQ_PSN: nat := 9
  const DEST_QP_NUM: nat := 10
  const ACK_TIMEOUT: nat := 11
  const RETRY_CNT: nat := 12
  const RNR_RETRY: nat := 13
  const AH_ATTR: nat := 14
  const ATOMIC_MODE: nat := 15
  const MAX_QP_RD_ATOMIC: nat := 16
  const MAX_DEST_RD_ATOMIC: nat := 17

  /** `mask & (1 << bit)`. */
  predicate Has(mask: u32, bit: nat) {
    And(mask, Shl(1, bit)) != 0
  }

  lemma OneBit(bit: nat, i: nat)
    ensures TestBit(Shl(1, bit), i) <==> i == bit
  {
    ShlBit(1, bit, i);
    if i > bit { ZeroBit(i - bit - 1); }
  }

  lemma HasIsBit(mask: u32, bit: nat)
    ensures Has(mask, bit) <==> TestBit(mask, bit)
  {
    var a := And(mask, Shl(1, bit));
    AndBit(mask, Shl(1, bit), bit);
    OneBit(bit, bit);
    ZeroBit(bit);
    if !TestBit(mask, bit) {
      forall i: nat ensures TestBit(a, i) == TestBit(0, i) {
        AndBit(mask, Shl(1, bit), i);
        OneBit(bit, i);
        ZeroBit(i);
      }
      SameBits(a, 0);
    }
  }

  /** The bits of a table entry or-ed together. */
  function MaskOf(bits: seq<nat>): nat {
    if bits == [] then 0 else Or(Shl(1, bits[0]), MaskOf(bits[1..]))
  }

  lemma {:induction false} MaskOfBit(bits: seq<nat>, i: nat)
    ensures TestBit(MaskOf(bits), i) <==> i in bits
  {
    if bits == [] {
      ZeroBit(i);
    } else {
      OrBit(Shl(1, bits[0]), MaskOf(bits[1..]), i);
      OneBit(bits[0], i);
      MaskOfBit(bits[1..], i);
    }
  }

  lemma {:induction false} MaskOfBound(bits: seq<nat>, w: nat)
    requires forall b :: b in bits ==> b < w
    ensures MaskOf(bits) < Pow2(w)
  {
    if bits != [] {
      ShlIsMul(1, bits[0]);
      assert bits[0] in bits && forall b :: b in bits[1..] ==> b in bits;
      Pow2Monotone(bits[0], w);
      MaskOfBound(bits[1..], w);
      OrBound(Shl(1, bits[0]), MaskOf(bits[1..]), w);
    }
  }

  // ---------- the tables, for reliable connections ----------

  const RST2INIT_REQUIRED: seq<nat> := [PKEY_INDEX, PORT_NUM, ALLOW_REMOTE_WRITE, ALLOW_REMOTE_READ]
  const INIT2RTR_REQUIRED: seq<nat> := [RQ_PSN, DEST_QP_NUM, PATH_MTU, AH_ATTR, MIN_RNR_TIMER]
  const RTR2RTS_REQUIRED: seq<nat> := [SQ_PSN, ACK_TIMEOUT, RETRY_CNT, RNR_RETRY]

  const RST2INIT_OPTIONAL: seq<nat> := [CURRENT_STATE, NEXT_STATE, ATOMIC_MODE]
  const INIT2INIT_OPTIONAL: seq<nat> := [
    CURRENT_STATE, NEXT_STATE, PKEY_INDEX, PORT_NUM, ALLOW_REMOTE_WRITE, ALLOW_REMOTE_READ, ATOMIC_MODE]
  const INIT2RTR_OPTIONAL: seq<nat> := [
    CURRENT_STATE, NEXT_STATE, PKEY_INDEX, ALLOW_REMOTE_WRITE, ALLOW_REMOTE_READ, ATOMIC_MODE, MAX_DEST_RD_ATOMIC]
  const RTR2RTS_OPTIONAL: seq<nat> := [
    CURRENT_STATE, NEXT_STATE, MIN_RNR_TIMER, ALLOW_REMOTE_WRITE, ATOMIC_MODE, MAX_QP_RD_ATOMIC]
  const RTS2RTS_OPTIONAL: seq<nat> := [
    CURRENT_STATE, NEXT_STATE, ALLOW_REMOTE_WRITE, ALLOW_REMOTE_READ, ATOMIC_MODE, MIN_RNR_TIMER, AH_ATTR]
  const X2ANY_OPTIONAL: seq<nat> := [CURRENT_STATE, NEXT_STATE]

  predicate Table(bits: seq<nat>) { forall b :: b in bits ==> b < 32 }

  /** The mask test of every `is_*_attrs_valid`. */
  predicate MaskAccepted(mask: u32, required: seq<nat>, optional: seq<nat>)
    requires Table(required) && Table(optional)
  {
    TableFits(required, optional);
    && And(mask, Not(Or(MaskOf(required), MaskOf(optional)), W32)) == 0
    && And(MaskOf(required), mask) == MaskOf(required)
  }

  lemma TableFits(required: seq<nat>, optional: seq<nat>)
    requires Table(required) && Table(optional)
    ensures Or(MaskOf(required), MaskOf(optional)) < Pow2(W32)
  {
    MaskOfBound(required, W32);
    MaskOfBound(optional, W32);
    OrBound(MaskOf(required), MaskOf(optional), W32);
  }

  /** A mask is accepted when it has every required attribute and nothing beyond the two tables. */
  lemma MaskAcceptedMeans(mask: u32, required: seq<nat>, optional: seq<nat>)
    requires Table(required) && Table(optional)
    ensures MaskAccepted(mask, required, optional) <==>
            && (forall b :: b in required ==> Has(mask, b))
            && (forall b: nat :: Has(mask, b) ==> b in required || b in optional)
  {
    ForbiddenBits(mask, required, optional);
    RequiredBits(mask, required);
    forall b: nat ensures Has(mask, b) <==> TestBit(mask, b) { HasIsBit(mask, b); }
  }

  lemma ForbiddenBits(mask: u32, required: seq<nat>, optional: seq<nat>)
    requires Table(required) && Table(optional)
    ensures Or(MaskOf(required), MaskOf(optional)) < Pow2(W32)
    ensures And(mask, Not(Or(MaskOf(required), MaskOf(optional)), W32)) == 0 ==>
            forall b: nat :: TestBit(mask, b) ==> b in required || b in optional
    ensures (forall b: nat :: TestBit(mask, b) ==> b in required || b in optional) ==>
            And(mask, Not(Or(MaskOf(required), MaskOf(optional)), W32)) == 0
  {
    TableFits(required, optional);
    var left := And(mask, Not(Or(MaskOf(required), MaskOf(optional)), W32));
    forall b: nat ensures TestBit(left, b) <==> TestBit(mask, b) && b !in required && b !in optional {
      ForbiddenBit(mask, required, optional, b);
    }
    IsZero(left);
  }

  lemma ForbiddenBit(mask: u32, required: seq<nat>, optional: seq<nat>, b: nat)
    requires Or(MaskOf(required), MaskOf(optional)) < Pow2(W32)
    ensures TestBit(And(mask, Not(Or(MaskOf(required), MaskOf(optional)), W32)), b) <==>
            TestBit(mask, b) && b !in required && b !in optional
  {
    var valid := Or(MaskOf(required), MaskOf(optional));
    AndBit(mask, Not(valid, W32), b);
    NotBit(valid, W32, b);
    OrBit(MaskOf(required), MaskOf(optional), b);
    MaskOfBit(required, b);
    MaskOfBit(optional, b);
    Pow2Values();
    if b >= 32 { HighBit(mask, W32, b); }
  }

  lemma IsZero(x: nat)
    ensures x == 0 ==> forall b: nat :: !TestBit(x, b)
    ensures (forall b: nat :: !TestBit(x, b)) ==> x == 0
  {
    if x == 0 {
      forall b: nat ensures !TestBit(x, b) { ZeroBit(b); }
    } else {
      TopBit(x);
    }
  }

  lemma RequiredBits(mask: u32, required: seq<nat>)
    ensures And(MaskOf(required), mask) == MaskOf(required) <==>
            forall b :: b in required ==> TestBit(mask, b)
  {
    var m := MaskOf(required);
    forall b: nat ensures TestBit(And(m, mask), b) <==> TestBit(mask, b) && b in required {
      AndBit(m, mask, b);
      MaskOfBit(required, b);
    }
    forall b: nat ensures TestBit(m, b) <==> b in required { MaskOfBit(required, b); }
    if forall b :: b in required ==> TestBit(mask, b) {
      forall i: nat ensures TestBit(And(m, mask), i) == TestBit(m, i) {
        assert TestBit(m, i) <==> i in required;
      }
      SameBits(And(m, mask), m);
    }
  }

  // ---------- the attribute record ----------

  datatype State = RST | INIT | RTR | RTS | ERR | Unknown

  datatype AddressType = IPv4 | IPv6 | IbGrh | IbNoGrh | UnknownAddress

  datatype AddressVector = AddressVector(
    addressType: AddressType, dlid: u32, sl: u8, sgidIndex: u8, staticRate: u8, hopLimit: u8, trafficClass: u8)

  datatype Attributes = Attributes(
    nextState: State, currentState: State, pathMtu: nat, rqPsn: u32, sqPsn: u32, destQpNum: u32,
    allowRemoteWrite: int, allowRemoteRead: int, atomicMode: u8, ah: AddressVector, ahEnabled: bool,
    pkeyIndex: u16, portNum: u16, ackTimeout: u8, retryCnt: u8, rnrRetry: u8, minRnrTimer: u8,
    maxRdAtomic: u8, maxDestRdAtomic: u8, counterSetId: u32)

  /** What the device reports: bounds on the attributes, its port type and capabilities. */
  datatype Device = Device(maxPkeys: u32, portCount: u8, gidTableSize: u16, ethernet: bool, dscpSupported: bool)

  /** Packet sequence numbers are 24 bits; larger ones are cut, with a warning. */
  function PsnValid(psn: u32): (r: u32)
    ensures r == psn % 0x100_0000
  {
    PsnCut(psn);
    if And(psn, Not(0xff_ffff, W32)) != 0 then And(psn, 0xff_ffff) else psn
  }

  lemma PsnCut(psn: u32)
    ensures 0xff_ffff < Pow2(W32)
    ensures And(psn, 0xff_ffff) == psn % 0x100_0000
    ensures And(psn, Not(0xff_ffff, W32)) == 0 ==> psn < 0x100_0000
  {
    Pow2Values();
    AndMaskIsLow(psn, W24);
    LowIsMod(psn, W24);
    if And(psn, Not(0xff_ffff, W32)) == 0 {
      forall b: nat ensures TestBit(psn, b) == TestBit(Low(psn, W24), b) {
        AndBit(psn, Not(0xff_ffff, W32), b);
        ZeroBit(b);
        NotBit(0xff_ffff, W32, b);
        MaskBit(W24, b);
        LowBit(psn, W24, b);
        if b >= 32 { HighBit(psn, W32, b); }
      }
      SameBits(psn, Low(psn, W24));
    }
  }

  /** The tests made before the sequence numbers are looked at. */
  predicate EnumsValid(a: Attributes, mask: u32) {
    && !(Has(mask, CURRENT_STATE) && a.currentState.Unknown?)
    && !(Has(mask, NEXT_STATE) && a.nextState.Unknown?)
    && !(Has(mask, PATH_MTU) && a.pathMtu > 4)
  }

  /** The tests made after. */
  predicate InRange(a: Attributes, mask: u32, dev: Device) {
    && (Has(mask, AH_ATTR) ==> !a.ah.addressType.UnknownAddress? && a.ah.sgidIndex < dev.gidTableSize)
    && (Has(mask, PKEY_INDEX) ==> a.pkeyIndex <= dev.maxPkeys)
    && (Has(mask, PORT_NUM) ==> 1 <= a.portNum <= dev.portCount)
  }

  function PsnsCut(a: Attributes, mask: u32): Attributes {
    a.(rqPsn := if Has(mask, RQ_PSN) then a.rqPsn % 0x100_0000 else a.rqPsn,
       sqPsn := if Has(mask, SQ_PSN) then a.sqPsn % 0x100_0000 else a.sqPsn)
  }

  /** `is_qp_attr_valid`: the verdict, and the attributes as the check leaves them. */
  function Checked(a: Attributes, mask: u32, dev: Device): (bool, Attributes) {
    if !EnumsValid(a, mask) then (false, a)
    else (InRange(a, mask, dev), PsnsCut(a, mask))
  }

  /** The verdict, check by check and by attribute bit. */
  lemma VerdictByBit(a: Attributes, mask: u32, dev: Device)
    ensures Checked(a, mask, dev).0 <==>
      && (TestBit(mask, 2) ==> a.pkeyIndex <= dev.maxPkeys)
      && (TestBit(mask, 4) ==> 1 <= a.portNum <= dev.portCount)
      && (TestBit(mask, 5) ==> a.nextState != Unknown)
      && (TestBit(mask, 6) ==> a.currentState != Unknown)
      && (TestBit(mask, 7) ==> a.pathMtu <= 4)
      && (TestBit(mask, 14) ==> !a.ah.addressType.UnknownAddress? && a.ah.sgidIndex < dev.gidTableSize)
  {
    HasIsBit(mask, 2);
    HasIsBit(mask, 4);
    HasIsBit(mask, 5);
    HasIsBit(mask, 6);
    HasIsBit(mask, 7);
    HasIsBit(mask, 14);
  }

  /** The sequence numbers are cut when named, once the states and the transfer unit have passed; nothing else changes. */
  lemma PsnsByBit(a: Attributes, mask: u32, dev: Device)
    ensures var b := Checked(a, mask, dev).1;
      var passed := && (TestBit(mask, 5) ==> a.nextState != Unknown) && (TestBit(mask, 6) ==> a.currentState != Unknown)
                    && (TestBit(mask, 7) ==> a.pathMtu <= 4);
      && b.rqPsn == (if passed && TestBit(mask, 8) then a.rqPsn % 0x100_0000 else a.rqPsn)
      && b.sqPsn == (if passed && TestBit(mask, 9) then a.sqPsn % 0x100_0000 else a.sqPsn)
      && b.(rqPsn := a.rqPsn, sqPsn := a.sqPsn) == a
  {
    HasIsBit(mask, 5);
    HasIsBit(mask, 6);
    HasIsBit(mask, 7);
    HasIsBit(mask, 8);
    HasIsBit(mask, 9);
  }

  class QpAttr {
    var values: Attributes

    constructor (v: Attributes)
      ensures values == v
    {
      values := v;
    }

    /** The check rewrites the caller's sequence numbers, also on calls it goes on to refuse. */
    method IsValid(mask: u32, dev: Device) returns (ok: bool)
      modifies this
      ensures (ok, values) == Checked(old(values), mask, dev)
    {
      if Has(mask, CURRENT_STATE) && values.currentState.Unknown? { return false; }
      if Has(mask, NEXT_STATE) && values.nextState.Unknown? { return false; }
      if Has(mask, PATH_MTU) && values.pathMtu > 4 { return false; }
      MaskPsns(mask);
      if Has(mask, AH_ATTR) && values.ah.addressType.UnknownAddress? { return false; }
      if Has(mask, AH_ATTR) && values.ah.sgidIndex >= dev.gidTableSize { return false; }
      if Has(mask, PKEY_INDEX) && values.pkeyIndex > dev.maxPkeys { return false; }
      if Has(mask, PORT_NUM) && (values.portNum > dev.portCount || values.portNum < 1) { return false; }
      return true;
    }

    method MaskPsns(mask: u32)
      modifies this
      ensures values == PsnsCut(old(values), mask)
    {
      if Has(mask, RQ_PSN) { values := values.(rqPsn := PsnValid(values.rqPsn)); }
      if Has(mask, SQ_PSN) { values := values.(sqPsn := PsnValid(values.sqPsn)); }
    }
  }

}
