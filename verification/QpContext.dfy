/**
 The queue-pair context the device keeps: what the connection commands pack into it,
 and what a later query reads back out of it.
 Offsets are those of the device's context layout, counted in bits.
 */
module QpContext {
  import opened Bits
  import opened ByteOrder
  import opened PowerOfTwo
  import opened Devx
  import opened QpAttributes
  import opened Wrappers

  /** The context fields that the reset-to-ready commands carry. */
  datatype QpcField =
    | PmState | Mtu | LogMsgMax | CounterSetId | RemoteQpn
    | PkeyIndex | Grh | Rlid | AckTimeout | SrcAddrIndex | StatRate | HopLimit | Tclass
    | Dscp | UdpSport | Sl | VhcaPortNum
    | LogAckReqFreq | LogSraMax | RetryCount | RnrRetry | NextSendPsn
    | LogRraMax | AtomicMode | Rre | Rwe | Rae | MinRnrNak | NextRcvPsn

  const QPC_BYTES: nat := 232

  function At(n: QpcField): Field {
    match n
    case PmState => Field(0x13, 2)
    case Mtu => Field(0x40, 3)
    case LogMsgMax => Field(0x43, 5)
    case CounterSetId => Field(0x60, 8)
    case RemoteQpn => Field(0xa8, 24)
    case PkeyIndex => Field(0xd0, 16)
    case Grh => Field(0xe8, 1)
    case Rlid => Field(0xf0, 16)
    case AckTimeout => Field(0x100, 5)
    case SrcAddrIndex => Field(0x108, 8)
    case StatRate => Field(0x114, 4)
    case HopLimit => Field(0x118, 8)
    case Tclass => Field(0x124, 8)
    case Dscp => Field(0x1ca, 6)
    case UdpSport => Field(0x1d0, 16)
    case Sl => Field(0x1e4, 4)
    case VhcaPortNum => Field(0x1e8, 8)
    case LogAckReqFreq => Field(0x380, 4)
    case LogSraMax => Field(0x388, 3)
    case RetryCount => Field(0x38d, 3)
    case RnrRetry => Field(0x390, 3)
    case NextSendPsn => Field(0x3c8, 24)
    case LogRraMax => Field(0x488, 3)
    case AtomicMode => Field(0x48c, 4)
    case Rre => Field(0x490, 1)
    case Rwe => Field(0x491, 1)
    case Rae => Field(0x492, 1)
    case MinRnrNak => Field(0x4a3, 5)
    case NextRcvPsn => Field(0x4a8, 24)
  }

  lemma FieldFits(n: QpcField)
    ensures FitsIn(QPC_BYTES, At(n))
  {}

  lemma FieldsDisjoint(m: QpcField, n: QpcField)
    requires m != n
    ensures Disjoint(At(m), At(n))
  {}

  type Context = b: seq<u8> | |b| == QPC_BYTES witness seq(QPC_BYTES, _ => 0)

  function ReadField(c: Context, n: QpcField): u32 {
    FieldFits(n);
    Get(c, At(n))
  }

  function SetField(c: Context, n: QpcField, v: u32): Context {
    FieldFits(n);
    Set(c, v, At(n))
  }

  function Cut(v: nat, n: QpcField): nat { v % Pow2(At(n).sz) }

  lemma ReadAfterSet(c: Context, n: QpcField, v: u32, m: QpcField)
    ensures ReadField(SetField(c, n, v), m) == if m == n then Cut(v, n) else ReadField(c, m)
  {
    FieldFits(n);
    if m == n {
      GetAfterSet(c, v, At(n));
    } else {
      FieldFits(m);
      FieldsDisjoint(n, m);
      SetKeepsDisjoint(c, v, At(n), At(m));
    }
  }

  // ---------- what each command carries ----------

  /** The optional parts of a command: which of them the mask, the attributes and the port call for. */
  datatype Choices = Choices(
    remoteWrite: bool, remoteRead: bool, atomics: bool, minRnr: bool, qpReads: bool, destReads: bool,
    ackTimeout: bool, retryCnt: bool, rnrRetry: bool, roceV2: bool)

  function ChoicesOf(a: Attributes, mask: u32, roceV2: bool): Choices {
    Choices(
      a.allowRemoteWrite == 1,
      Has(mask, ALLOW_REMOTE_READ) && a.allowRemoteRead == 1,
      Has(mask, ATOMIC_MODE) && a.atomicMode != 0,
      Has(mask, MIN_RNR_TIMER), Has(mask, MAX_QP_RD_ATOMIC), Has(mask, MAX_DEST_RD_ATOMIC),
      Has(mask, ACK_TIMEOUT), Has(mask, RETRY_CNT), Has(mask, RNR_RETRY), roceV2)
  }

  /** `udpSport` is the random source port drawn for RoCE v2. */
  datatype Command =
    | Rst2Init(a: Attributes, w: Choices)
    | Init2Rtr(a: Attributes, w: Choices, udpSport: u16)
    | Rtr2Rts(a: Attributes, w: Choices)

  const PM_STATE_MIGRATED: u32 := 3
  const LOG_MSG_MAX: u32 := 30

  function PrmMtu(m: nat): u32 { if m <= 4 then m + 1 else 7 }

  function MtuOf(prm: u32): Option<nat> {
    if 1 <= prm <= 5 then Some(prm - 1) else if prm == 7 then Some(5) else None
  }

  /** The logarithm of an 8-bit depth. */
  function Log2u8(x: u8): (r: u8)
    ensures r <= 7
  {
    Log2Small(x);
    Log2(x)
  }

  lemma Log2Small(x: u8)
    ensures Log2(x) <= 7
    ensures Pow2(Log2(x)) == x <==> IsPow2(x)
  {
    Pow2Values();
    BitLenOfPow2(W8);
    BitLenMonotone(x, Pow2(W8) - 1);
    if IsPow2(x) { Log2Inverts(x); }
  }

  /** The value a command writes into a field, if it writes it. */
  function Carries(c: Command, n: QpcField): Option<u32> {
    match c
    case Rst2Init(a, w) => Rst2InitCarries(a, w, n)
    case Init2Rtr(a, w, udpSport) => Init2RtrCarries(a, w, udpSport, n)
    case Rtr2Rts(a, w) => Rtr2RtsCarries(a, w, n)
  }

  function When(c: bool, v: u32): Option<u32> { if c then Some(v) else None }

  function Else(x: Option<u32>, y: Option<u32>): Option<u32> { if x.Some? then x else y }

  function Rst2InitCarries(a: Attributes, w: Choices, n: QpcField): Option<u32> {
    match n
    case VhcaPortNum => Some(a.portNum)
    case PmState => Some(PM_STATE_MIGRATED)
    case CounterSetId => Some(a.counterSetId)
    case PkeyIndex => Some(a.pkeyIndex)
    case _ => AccessCarries(a, w, w.remoteRead, n)
  }

  function Init2RtrCarries(a: Attributes, w: Choices, udpSport: u16, n: QpcField): Option<u32> {
    match n
    case PkeyIndex => Some(a.pkeyIndex)
    case LogRraMax => When(w.destReads, Log2u8(a.maxDestRdAtomic))
    case _ =>
      Else(AccessCarries(a, w, w.remoteRead, n),
           Else(PathCarries(a.ah, w.roceV2, udpSport, n), PeerCarries(a, w, n)))
  }

  function PeerCarries(a: Attributes, w: Choices, n: QpcField): Option<u32> {
    match n
    case NextRcvPsn => Some(a.rqPsn)
    case RemoteQpn => Some(a.destQpNum)
    case LogMsgMax => Some(LOG_MSG_MAX)
    case Mtu => Some(PrmMtu(a.pathMtu))
    case MinRnrNak => When(w.minRnr, a.minRnrTimer)
    case _ => None
  }

  function PathCarries(v: AddressVector, roceV2: bool, udpSport: u16, n: QpcField): Option<u32> {
    var t := v.addressType;
    match n
    case Tclass => When(t.IbGrh? || t.IbNoGrh?, v.trafficClass)
    case Rlid => When(t.IbGrh? || t.IbNoGrh?, v.dlid)
    case Sl => When(t.IbGrh? || t.IbNoGrh?, v.sl)
    case StatRate => Some(v.staticRate)
    case HopLimit => When(!t.IbNoGrh?, v.hopLimit)
    case SrcAddrIndex => When(!t.IbNoGrh?, v.sgidIndex)
    case Grh => When(t.IbGrh?, 1)
    case UdpSport => When(roceV2, udpSport)
    case Dscp => When(roceV2, v.trafficClass / 4)
    case _ => None
  }

  function Rtr2RtsCarries(a: Attributes, w: Choices, n: QpcField): Option<u32> {
    match n
    case NextSendPsn => Some(a.sqPsn)
    case AckTimeout => When(w.ackTimeout, a.ackTimeout)
    case RetryCount => When(w.retryCnt, a.retryCnt)
    case RnrRetry => When(w.rnrRetry, a.rnrRetry)
    case MinRnrNak => When(w.minRnr, a.minRnrTimer)
    case LogSraMax => When(w.qpReads, Log2u8(a.maxRdAtomic))
    case LogAckReqFreq => Some(0)
    case _ => AccessCarries(a, w, false, n)
  }

  function AccessCarries(a: Attributes, w: Choices, read: bool, n: QpcField): Option<u32> {
    match n
    case Rwe => When(w.remoteWrite, 1)
    case Rre => When(read, 1)
    case Rae => When(w.atomics, 1)
    case AtomicMode => When(w.atomics, a.atomicMode)
    case _ => None
  }

  /** What has been written to each field while a command is filled in: the last write counts. */
  type Fields = QpcField -> Option<u32>

  const NOTHING: Fields := (n: QpcField) => None

  function With(f: Fields, when: bool, n: QpcField, v: u32): Fields {
    (m: QpcField) => if when && m == n then Some(v) else f(m)
  }

  function OrZero(v: Option<u32>): u32 { if v.Some? then v.value else 0 }

  /** The context part of a command holds what was written, cut to each field's width, and zeros. */
  ghost predicate Holds(bytes: Context, f: Fields) {
    forall n {:trigger ReadField(bytes, n)} :: ReadField(bytes, n) == Cut(OrZero(f(n)), n)
  }

  lemma ZerosRead(c: Context, n: QpcField)
    requires forall i :: 0 <= i < QPC_BYTES ==> c[i] == 0
    ensures ReadField(c, n) == 0
  {
    FieldFits(n);
    ShrZero(DwBitOff(At(n)));
  }

  lemma CutZero(n: QpcField)
    ensures Cut(0, n) == 0
  {}

  lemma HoldsAfter(c: Context, f: Fields, n: QpcField, v: u32)
    requires Holds(c, f)
    ensures Holds(SetField(c, n, v), With(f, true, n, v))
  {
    forall m ensures ReadField(SetField(c, n, v), m) == Cut(OrZero(With(f, true, n, v)(m)), m) {
      ReadAfterSet(c, n, v, m);
    }
  }

  lemma HoldsUnchanged(c: Context, f: Fields, n: QpcField, v: u32)
    requires Holds(c, f)
    ensures Holds(c, With(f, false, n, v))
  {}

  /** The context part of one command while it is being filled in. */
  class Packer {
    const host: Host
    const qpc: array<u8>
    ghost var fields: Fields

    ghost predicate Valid()
      reads this, qpc
    {
      qpc.Length == QPC_BYTES && Holds(qpc[..], fields)
    }

    constructor (h: Host)
      ensures Valid() && fresh(qpc) && fields == NOTHING
    {
      host := h;
      qpc := new u8[QPC_BYTES](_ => 0);
      fields := NOTHING;
      new;
      forall n ensures ReadField(qpc[..], n) == Cut(OrZero(fields(n)), n) {
        ZerosRead(qpc[..], n);
        CutZero(n);
      }
    }

    /** One `DEVX_SET`, under its condition. */
    method PutIf(when: bool, n: QpcField, v: u32)
      requires Valid()
      modifies this`fields, qpc
      ensures Valid() && fields == With(old(fields), when, n, v)
    {
      FieldFits(n);
      if when {
        HoldsAfter(qpc[..], fields, n, v);
        DevxSet(host, qpc, v, At(n));
      } else {
        HoldsUnchanged(qpc[..], fields, n, v);
      }
      fields := With(fields, when, n, v);
    }

    method Put(n: QpcField, v: u32)
      requires Valid()
      modifies this`fields, qpc
      ensures Valid() && fields == With(old(fields), true, n, v)
    {
      PutIf(true, n, v);
    }
  }

  ghost predicate HoldsCommand(bytes: Context, c: Command) {
    Holds(bytes, n => Carries(c, n))
  }

  lemma HoldsSame(bytes: Context, f: Fields, c: Command)
    requires Holds(bytes, f) && forall n :: f(n) == Carries(c, n)
    ensures HoldsCommand(bytes, c)
  {}

  // ---------- the commands, field by field in the order they are set ----------

  ghost function AccessWrites(f: Fields, a: Attributes, w: Choices, read: bool): Fields {
    var f := With(f, w.remoteWrite, Rwe, 1);
    var f := With(f, read, Rre, 1);
    var f := With(f, w.atomics, Rae, 1);
    With(f, w.atomics, AtomicMode, a.atomicMode)
  }

  lemma AccessWritten(f: Fields, a: Attributes, w: Choices, read: bool, n: QpcField)
    ensures AccessWrites(f, a, w, read)(n) == Else(AccessCarries(a, w, read, n), f(n))
  {}

  method PutAccess(p: Packer, a: Attributes, w: Choices, read: bool)
    requires p.Valid()
    modifies p`fields, p.qpc
    ensures p.Valid() && p.fields == AccessWrites(old(p.fields), a, w, read)
  {
    p.PutIf(w.remoteWrite, Rwe, 1);
    p.PutIf(read, Rre, 1);
    p.PutIf(w.atomics, Rae, 1);
    p.PutIf(w.atomics, AtomicMode, a.atomicMode);
  }

  ghost function PathWrites(f: Fields, v: AddressVector, roceV2: bool, udpSport: u16): Fields {
    var ib := v.addressType.IbGrh? || v.addressType.IbNoGrh?;
    var f := With(f, ib, Tclass, v.trafficClass);
    var f := With(f, ib, Rlid, v.dlid);
    var f := With(f, ib, Sl, v.sl);
    var f := With(f, true, StatRate, v.staticRate);
    var f := With(f, !v.addressType.IbNoGrh?, HopLimit, v.hopLimit);
    var f := With(f, !v.addressType.IbNoGrh?, SrcAddrIndex, v.sgidIndex);
    var f := With(f, v.addressType.IbGrh?, Grh, 1);
    var f := With(f, roceV2, UdpSport, udpSport);
    With(f, roceV2, Dscp, v.trafficClass / 4)
  }

  lemma PathWritten(f: Fields, v: AddressVector, roceV2: bool, udpSport: u16, n: QpcField)
    ensures PathWrites(f, v, roceV2, udpSport)(n) == Else(PathCarries(v, roceV2, udpSport, n), f(n))
  {}

  method PutPath(p: Packer, v: AddressVector, roceV2: bool, udpSport: u16)
    requires p.Valid()
    modifies p`fields, p.qpc
    ensures p.Valid() && p.fields == PathWrites(old(p.fields), v, roceV2, udpSport)
  {
    var ib := v.addressType.IbGrh? || v.addressType.IbNoGrh?;
    p.PutIf(ib, Tclass, v.trafficClass);
    p.PutIf(ib, Rlid, v.dlid);
    p.PutIf(ib, Sl, v.sl);
    p.Put(StatRate, v.staticRate);
    p.PutIf(!v.addressType.IbNoGrh?, HopLimit, v.hopLimit);
    p.PutIf(!v.addressType.IbNoGrh?, SrcAddrIndex, v.sgidIndex);
    p.PutIf(v.addressType.IbGrh?, Grh, 1);
    p.PutIf(roceV2, UdpSport, udpSport);
    p.PutIf(roceV2, Dscp, v.trafficClass / 4);
  }

  ghost function Rst2InitHead(a: Attributes, w: Choices): Fields {
    var f := With(NOTHING, true, VhcaPortNum, a.portNum);
    var f := With(f, true, PmState, PM_STATE_MIGRATED);
    var f := With(f, true, CounterSetId, a.counterSetId);
    var f := With(f, true, PkeyIndex, a.pkeyIndex);
    var f := With(f, w.remoteWrite, Rwe, 1);
    With(f, w.remoteRead, Rre, 1)
  }

  function Rst2InitHeadCarries(a: Attributes, w: Choices, n: QpcField): Option<u32> {
    match n
    case VhcaPortNum => Some(a.portNum)
    case PmState => Some(PM_STATE_MIGRATED)
    case CounterSetId => Some(a.counterSetId)
    case PkeyIndex => Some(a.pkeyIndex)
    case Rwe => When(w.remoteWrite, 1)
    case Rre => When(w.remoteRead, 1)
    case _ => None
  }

  lemma Rst2InitHeadWritten(a: Attributes, w: Choices, n: QpcField)
    ensures Rst2InitHead(a, w)(n) == Rst2InitHeadCarries(a, w, n)
  {}

  ghost function Rst2InitWrites(a: Attributes, w: Choices): Fields {
    AccessWrites(Rst2InitHead(a, w), a, w, false)
  }

  lemma Rst2InitWritten(a: Attributes, w: Choices, n: QpcField)
    ensures Rst2InitWrites(a, w)(n) == Rst2InitCarries(a, w, n)
  {
    Rst2InitHeadWritten(a, w, n);
    AccessWritten(Rst2InitHead(a, w), a, w, false, n);
  }

  method PackRst2Init(h: Host, a: Attributes, w: Choices) returns (p: Packer)
    ensures fresh(p) && fresh(p.qpc) && p.qpc.Length == QPC_BYTES
    ensures HoldsCommand(p.qpc[..], Rst2Init(a, w)) && Carried(p.qpc[..], Rst2Init(a, w))
  {
    p := new Packer(h);
    p.Put(VhcaPortNum, a.portNum);
    p.Put(PmState, PM_STATE_MIGRATED);
    p.Put(CounterSetId, a.counterSetId);
    p.Put(PkeyIndex, a.pkeyIndex);
    p.PutIf(w.remoteWrite, Rwe, 1);
    p.PutIf(w.remoteRead, Rre, 1);
    PutAccess(p, a, w, false);
    forall n ensures p.fields(n) == Carries(Rst2Init(a, w), n) { Rst2InitWritten(a, w, n); }
    HoldsSame(p.qpc[..], p.fields, Rst2Init(a, w));
    CommandOnWire(p.qpc[..], Rst2Init(a, w));
  }

  ghost function PeerWrites(a: Attributes, w: Choices): Fields {
    var f := With(NOTHING, true, NextRcvPsn, a.rqPsn);
    var f := With(f, true, RemoteQpn, a.destQpNum);
    var f := With(f, true, LogMsgMax, LOG_MSG_MAX);
    var f := With(f, true, Mtu, PrmMtu(a.pathMtu));
    With(f, w.minRnr, MinRnrNak, a.minRnrTimer)
  }

  lemma PeerWritten(a: Attributes, w: Choices, n: QpcField)
    ensures PeerWrites(a, w)(n) == PeerCarries(a, w, n)
  {}

  ghost function Init2RtrWrites(a: Attributes, w: Choices, udpSport: u16): Fields {
    var f := PathWrites(PeerWrites(a, w), a.ah, w.roceV2, udpSport);
    var f := With(f, true, PkeyIndex, a.pkeyIndex);
    var f := AccessWrites(f, a, w, w.remoteRead);
    With(f, w.destReads, LogRraMax, Log2u8(a.maxDestRdAtomic))
  }

  lemma Init2RtrWritten(a: Attributes, w: Choices, udpSport: u16, n: QpcField)
    ensures Init2RtrWrites(a, w, udpSport)(n) == Init2RtrCarries(a, w, udpSport, n)
  {
    var f := PathWrites(PeerWrites(a, w), a.ah, w.roceV2, udpSport);
    PeerWritten(a, w, n);
    PathWritten(PeerWrites(a, w), a.ah, w.roceV2, udpSport, n);
    AccessWritten(With(f, true, PkeyIndex, a.pkeyIndex), a, w, w.remoteRead, n);
  }

  method PackInit2Rtr(h: Host, a: Attributes, w: Choices, udpSport: u16) returns (p: Packer)
    ensures fresh(p) && fresh(p.qpc) && p.qpc.Length == QPC_BYTES
    ensures HoldsCommand(p.qpc[..], Init2Rtr(a, w, udpSport)) && Carried(p.qpc[..], Init2Rtr(a, w, udpSport))
  {
    p := new Packer(h);
    p.Put(NextRcvPsn, a.rqPsn);
    p.Put(RemoteQpn, a.destQpNum);
    p.Put(LogMsgMax, LOG_MSG_MAX);
    p.Put(Mtu, PrmMtu(a.pathMtu));
    p.PutIf(w.minRnr, MinRnrNak, a.minRnrTimer);
    PutPath(p, a.ah, w.roceV2, udpSport);
    p.Put(PkeyIndex, a.pkeyIndex);
    PutAccess(p, a, w, w.remoteRead);
    p.PutIf(w.destReads, LogRraMax, Log2u8(a.maxDestRdAtomic));
    forall n ensures p.fields(n) == Carries(Init2Rtr(a, w, udpSport), n) { Init2RtrWritten(a, w, udpSport, n); }
    HoldsSame(p.qpc[..], p.fields, Init2Rtr(a, w, udpSport));
    CommandOnWire(p.qpc[..], Init2Rtr(a, w, udpSport));
  }

  ghost function Rtr2RtsHead(a: Attributes, w: Choices): Fields {
    var f := With(NOTHING, true, NextSendPsn, a.sqPsn);
    var f := With(f, w.ackTimeout, AckTimeout, a.ackTimeout);
    var f := With(f, w.retryCnt, RetryCount, a.retryCnt);
    var f := With(f, w.rnrRetry, RnrRetry, a.rnrRetry);
    With(f, w.minRnr, MinRnrNak, a.minRnrTimer)
  }

  ghost function Rtr2RtsWrites(a: Attributes, w: Choices): Fields {
    var f := AccessWrites(Rtr2RtsHead(a, w), a, w, false);
    var f := With(f, w.qpReads, LogSraMax, Log2u8(a.maxRdAtomic));
    With(f, true, LogAckReqFreq, 0)
  }

  function Rtr2RtsHeadCarries(a: Attributes, w: Choices, n: QpcField): Option<u32> {
    match n
    case NextSendPsn => Some(a.sqPsn)
    case AckTimeout => When(w.ackTimeout, a.ackTimeout)
    case RetryCount => When(w.retryCnt, a.retryCnt)
    case RnrRetry => When(w.rnrRetry, a.rnrRetry)
    case MinRnrNak => When(w.minRnr, a.minRnrTimer)
    case _ => None
  }

  lemma Rtr2RtsHeadWritten(a: Attributes, w: Choices, n: QpcField)
    ensures Rtr2RtsHead(a, w)(n) == Rtr2RtsHeadCarries(a, w, n)
  {}

  lemma Rtr2RtsWritten(a: Attributes, w: Choices, n: QpcField)
    ensures Rtr2RtsWrites(a, w)(n) == Rtr2RtsCarries(a, w, n)
  {
    Rtr2RtsHeadWritten(a, w, n);
    AccessWritten(Rtr2RtsHead(a, w), a, w, false, n);
  }

  method PackRtr2Rts(h: Host, a: Attributes, w: Choices) returns (p: Packer)
    ensures fresh(p) && fresh(p.qpc) && p.qpc.Length == QPC_BYTES
    ensures HoldsCommand(p.qpc[..], Rtr2Rts(a, w)) && Carried(p.qpc[..], Rtr2Rts(a, w))
  {
    p := new Packer(h);
    p.Put(NextSendPsn, a.sqPsn);
    p.PutIf(w.ackTimeout, AckTimeout, a.ackTimeout);
    p.PutIf(w.retryCnt, RetryCount, a.retryCnt);
    p.PutIf(w.rnrRetry, RnrRetry, a.rnrRetry);
    p.PutIf(w.minRnr, MinRnrNak, a.minRnrTimer);
    PutAccess(p, a, w, false);
    p.PutIf(w.qpReads, LogSraMax, Log2u8(a.maxRdAtomic));
    p.Put(LogAckReqFreq, 0);
    forall n ensures p.fields(n) == Carries(Rtr2Rts(a, w), n) { Rtr2RtsWritten(a, w, n); }
    HoldsSame(p.qpc[..], p.fields, Rtr2Rts(a, w));
    CommandOnWire(p.qpc[..], Rtr2Rts(a, w));
  }

  // ---------- where the bytes go ----------

  /** The small powers of two, written out. */
  function P(k: nat): (p: nat)
    requires k <= 8
    ensures p > 0
  {
    match k
    case 0 => 1
    case 1 => 2
    case 2 => 4
    case 3 => 8
    case 4 => 16
    case 5 => 32
    case 6 => 64
    case 7 => 128
    case 8 => 256
  }

  lemma PIsPow2(k: nat)
    requires k <= 8
    ensures P(k) == Pow2(k)
  {
    assert Pow2(0) == 1 && Pow2(1) == 2 && Pow2(2) == 4 && Pow2(3) == 8 && Pow2(4) == 16;
    assert Pow2(5) == 32 && Pow2(6) == 64 && Pow2(7) == 128 && Pow2(8) == 256;
  }

  /** What each field reads as, so that a proof can speak of a field without its definition. */
  type Reading = QpcField -> u32

  ghost predicate ReadsAs(c: Context, read: Reading) {
    forall n {:trigger ReadField(c, n)} :: read(n) == ReadField(c, n)
  }

  /** A field at bit `r` of byte `i` of word `dw`. */
  lemma InByte(c: Context, read: Reading, n: QpcField, dw: nat, i: nat, r: nat)
    requires ReadsAs(c, read) && At(n).off == 32 * dw + 8 * i + r && i < 4 && r + At(n).sz <= 8
    ensures 4 * dw + i < QPC_BYTES && read(n) == c[4 * dw + i] / P(8 - r - At(n).sz) % P(At(n).sz)
  {
    FieldFits(n);
    assert read(n) == ReadField(c, n);
    GetInByte(c, At(n), dw, i, r);
    PIsPow2(8 - r - At(n).sz);
    PIsPow2(At(n).sz);
  }

  lemma InTwoBytes(c: Context, read: Reading, n: QpcField, dw: nat)
    requires ReadsAs(c, read) && At(n).off == 32 * dw + 16 && At(n).sz == 16
    ensures 4 * dw + 4 <= QPC_BYTES && read(n) == Be16At(c, 4 * dw + 2)
  {
    FieldFits(n);
    assert read(n) == ReadField(c, n);
    GetLowHalf(c, At(n), dw);
  }

  lemma InThreeBytes(c: Context, read: Reading, n: QpcField, dw: nat)
    requires ReadsAs(c, read) && At(n).off == 32 * dw + 8 && At(n).sz == 24
    ensures 4 * dw + 4 <= QPC_BYTES && read(n) == Be24At(c, 4 * dw + 1)
  {
    FieldFits(n);
    assert read(n) == ReadField(c, n);
    GetLow24(c, At(n), dw);
  }

  lemma AcrossBytes(c: Context, read: Reading, n: QpcField, dw: nat)
    requires ReadsAs(c, read) && At(n).off == 32 * dw + 4 && At(n).sz == 8
    ensures 4 * dw + 4 <= QPC_BYTES && read(n) == c[4 * dw] % 16 * 16 + c[4 * dw + 1] / 16
  {
    FieldFits(n);
    assert read(n) == ReadField(c, n);
    GetAcross(c, At(n), dw);
  }

  // What is sent of the context, group by group; the names are the attributes'.

  datatype Peer = Peer(rqPsn: int, destQpn: int, msgMax: int, mtu: int, rnrTimer: int)
  datatype Route = Route(tclass: int, dlid: int, sl: int, rate: int, hops: int)
  datatype Source = Source(sgid: int, grh: int, udpSport: int, dscp: int, pkey: int)
  datatype Access = Access(remoteWrite: int, remoteRead: int, atomics: int, atomicMode: int)
  datatype Reads = Reads(logIn: int, logOut: int, ackFreq: int)
  datatype Sending = Sending(sqPsn: int, timeout: int, retries: int, rnrRetries: int)
  datatype First = First(vhcaPort: int, pmState: int, counterSet: int)

  function Bit(x: bool): int { if x then 1 else 0 }

  function If(x: bool, v: int): int { if x then v else 0 }

  function PeerSent(cmd: Command): Peer {
    match cmd
    case Rst2Init(_, _) => Peer(0, 0, 0, 0, 0)
    case Init2Rtr(a, w, _) =>
      Peer(a.rqPsn % 0x100_0000, a.destQpNum % 0x100_0000, 30, if a.pathMtu <= 4 then a.pathMtu + 1 else 7,
           If(w.minRnr, a.minRnrTimer % 32))
    case Rtr2Rts(a, w) => Peer(0, 0, 0, 0, If(w.minRnr, a.minRnrTimer % 32))
  }

  function RouteSent(cmd: Command): Route {
    match cmd
    case Init2Rtr(a, w, _) =>
      var ib := a.ah.addressType.IbGrh? || a.ah.addressType.IbNoGrh?;
      Route(If(ib, a.ah.trafficClass), If(ib, a.ah.dlid % 0x1_0000), If(ib, a.ah.sl % 16), a.ah.staticRate % 16,
            If(!a.ah.addressType.IbNoGrh?, a.ah.hopLimit))
    case _ => Route(0, 0, 0, 0, 0)
  }

  function SourceSent(cmd: Command): Source {
    match cmd
    case Rst2Init(a, _) => Source(0, 0, 0, 0, a.pkeyIndex)
    case Init2Rtr(a, w, udpSport) =>
      Source(If(!a.ah.addressType.IbNoGrh?, a.ah.sgidIndex), Bit(a.ah.addressType.IbGrh?), If(w.roceV2, udpSport),
             If(w.roceV2, a.ah.trafficClass / 4), a.pkeyIndex)
    case Rtr2Rts(_, _) => Source(0, 0, 0, 0, 0)
  }

  function AccessSent(cmd: Command): Access {
    match cmd
    case Rst2Init(a, w) =>
      Access(Bit(w.remoteWrite), Bit(w.remoteRead), Bit(w.atomics), If(w.atomics, a.atomicMode % 16))
    case Init2Rtr(a, w, _) =>
      Access(Bit(w.remoteWrite), Bit(w.remoteRead), Bit(w.atomics), If(w.atomics, a.atomicMode % 16))
    case Rtr2Rts(a, w) => Access(Bit(w.remoteWrite), 0, Bit(w.atomics), If(w.atomics, a.atomicMode % 16))
  }

  function ReadsSent(cmd: Command): Reads {
    match cmd
    case Rst2Init(_, _) => Reads(0, 0, 0)
    case Init2Rtr(a, w, _) => Reads(If(w.destReads, Log2(a.maxDestRdAtomic)), 0, 0)
    case Rtr2Rts(a, w) => Reads(0, If(w.qpReads, Log2(a.maxRdAtomic)), 0)
  }

  function SendingSent(cmd: Command): Sending {
    match cmd
    case Rtr2Rts(a, w) =>
      Sending(a.sqPsn % 0x100_0000, If(w.ackTimeout, a.ackTimeout % 32), If(w.retryCnt, a.retryCnt % 8),
              If(w.rnrRetry, a.rnrRetry % 8))
    case _ => Sending(0, 0, 0, 0)
  }

  function FirstSent(cmd: Command): First {
    match cmd
    case Rst2Init(a, _) => First(a.portNum % 0x100, 3, a.counterSetId % 0x100)
    case _ => First(0, 0, 0)
  }

  // The fields by byte number, from the order and the widths in the device header (include/host/mlx5_ifc.h:3398-3562).

  predicate PeerBytes(c: Context, e: Peer) {
    && Be24At(c, 149) == e.rqPsn
    && Be24At(c, 21) == e.destQpn
    && c[8] % 32 == e.msgMax
    && c[8] / 32 == e.mtu
    && c[148] % 32 == e.rnrTimer
  }

  predicate RouteBytes(c: Context, e: Route) {
    && c[36] % 16 * 16 + c[37] / 16 == e.tclass
    && Be16At(c, 30) == e.dlid
    && c[60] % 16 == e.sl
    && c[34] % 16 == e.rate
    && c[35] == e.hops
  }

  predicate SourceBytes(c: Context, e: Source) {
    && c[33] == e.sgid
    && c[29] / 128 == e.grh
    && Be16At(c, 58) == e.udpSport
    && c[57] % 64 == e.dscp
    && Be16At(c, 26) == e.pkey
  }

  predicate AccessBytes(c: Context, e: Access) {
    && c[146] / 64 % 2 == e.remoteWrite
    && c[146] / 128 == e.remoteRead
    && c[146] / 32 % 2 == e.atomics
    && c[145] % 16 == e.atomicMode
  }

  predicate ReadsBytes(c: Context, e: Reads) {
    && c[145] / 32 == e.logIn
    && c[113] / 32 == e.logOut
    && c[112] / 16 == e.ackFreq
  }

  predicate SendingBytes(c: Context, e: Sending) {
    && Be24At(c, 121) == e.sqPsn
    && c[32] / 8 == e.timeout
    && c[113] % 8 == e.retries
    && c[114] / 32 == e.rnrRetries
  }

  predicate FirstBytes(c: Context, e: First) {
    && c[61] == e.vhcaPort
    && c[2] / 8 % 4 == e.pmState
    && c[12] == e.counterSet
  }

  /** Each attribute is in the bytes the device header gives it, and zeros are in those of the others. */
  predicate Carried(c: Context, cmd: Command) {
    && PeerBytes(c, PeerSent(cmd))
    && RouteBytes(c, RouteSent(cmd))
    && SourceBytes(c, SourceSent(cmd))
    && AccessBytes(c, AccessSent(cmd))
    && ReadsBytes(c, ReadsSent(cmd))
    && SendingBytes(c, SendingSent(cmd))
    && FirstBytes(c, FirstSent(cmd))
  }

  /** The number of values a field of each width has. */
  function Values(sz: nat): (p: nat)
    requires sz <= 8 || sz == 16 || sz == 24
    ensures p > 0
  {
    if sz <= 8 then P(sz) else if sz == 16 then 0x1_0000 else 0x100_0000
  }

  function Width(n: QpcField): (w: nat)
    ensures w <= 8 || w == 16 || w == 24
  {
    At(n).sz
  }

  lemma ValuesArePow2(sz: nat)
    requires sz <= 8 || sz == 16 || sz == 24
    ensures Values(sz) == Pow2(sz)
  {
    if sz <= 8 { PIsPow2(sz); } else { Pow2Values(); }
  }

  /** What a command leaves in a field of `m` values. */
  function ValueOf(cmd: Command, n: QpcField, m: nat): nat
    requires m > 0
  {
    OrZero(Carries(cmd, n)) % m
  }

  lemma ReadOf(c: Context, read: Reading, cmd: Command, n: QpcField, m: nat)
    requires ReadsAs(c, read) && HoldsCommand(c, cmd) && m == Values(Width(n))
    ensures read(n) == ValueOf(cmd, n, m)
  {
    assert read(n) == ReadField(c, n);
    ValuesArePow2(Width(n));
  }

  lemma PeerValues(cmd: Command)
    ensures ValueOf(cmd, NextRcvPsn, 0x100_0000) == PeerSent(cmd).rqPsn
    ensures ValueOf(cmd, RemoteQpn, 0x100_0000) == PeerSent(cmd).destQpn
    ensures ValueOf(cmd, LogMsgMax, 32) == PeerSent(cmd).msgMax
    ensures ValueOf(cmd, Mtu, 8) == PeerSent(cmd).mtu
    ensures ValueOf(cmd, MinRnrNak, 32) == PeerSent(cmd).rnrTimer
  {}

  lemma PeerInBytes(c: Context, read: Reading)
    requires ReadsAs(c, read)
    ensures PeerBytes(c, Peer(read(NextRcvPsn), read(RemoteQpn), read(LogMsgMax), read(Mtu), read(MinRnrNak)))
  {
    InThreeBytes(c, read, NextRcvPsn, 37);
    InThreeBytes(c, read, RemoteQpn, 5);
    InByte(c, read, LogMsgMax, 2, 0, 3);
    InByte(c, read, Mtu, 2, 0, 0);
    InByte(c, read, MinRnrNak, 37, 0, 3);
  }

  lemma PeerCarried(c: Context, read: Reading, cmd: Command)
    requires ReadsAs(c, read) && HoldsCommand(c, cmd)
    ensures PeerBytes(c, PeerSent(cmd))
  {
    PeerValues(cmd);
    ReadOf(c, read, cmd, NextRcvPsn, 0x100_0000);
    ReadOf(c, read, cmd, RemoteQpn, 0x100_0000);
    ReadOf(c, read, cmd, LogMsgMax, 32);
    ReadOf(c, read, cmd, Mtu, 8);
    ReadOf(c, read, cmd, MinRnrNak, 32);
    PeerInBytes(c, read);
    assert PeerSent(cmd) == Peer(read(NextRcvPsn), read(RemoteQpn), read(LogMsgMax), read(Mtu), read(MinRnrNak));
  }

  lemma RouteValues(cmd: Command)
    ensures ValueOf(cmd, Tclass, 256) == RouteSent(cmd).tclass
    ensures ValueOf(cmd, Rlid, 0x1_0000) == RouteSent(cmd).dlid
    ensures ValueOf(cmd, Sl, 16) == RouteSent(cmd).sl
    ensures ValueOf(cmd, StatRate, 16) == RouteSent(cmd).rate
    ensures ValueOf(cmd, HopLimit, 256) == RouteSent(cmd).hops
  {}

  lemma RouteInBytes(c: Context, read: Reading)
    requires ReadsAs(c, read)
    ensures RouteBytes(c, Route(read(Tclass), read(Rlid), read(Sl), read(StatRate), read(HopLimit)))
  {
    AcrossBytes(c, read, Tclass, 9);
    InTwoBytes(c, read, Rlid, 7);
    InByte(c, read, Sl, 15, 0, 4);
    InByte(c, read, StatRate, 8, 2, 4);
    InByte(c, read, HopLimit, 8, 3, 0);
  }

  lemma RouteCarried(c: Context, read: Reading, cmd: Command)
    requires ReadsAs(c, read) && HoldsCommand(c, cmd)
    ensures RouteBytes(c, RouteSent(cmd))
  {
    RouteValues(cmd);
    ReadOf(c, read, cmd, Tclass, 256);
    ReadOf(c, read, cmd, Rlid, 0x1_0000);
    ReadOf(c, read, cmd, Sl, 16);
    ReadOf(c, read, cmd, StatRate, 16);
    ReadOf(c, read, cmd, HopLimit, 256);
    RouteInBytes(c, read);
    assert RouteSent(cmd) == Route(read(Tclass), read(Rlid), read(Sl), read(StatRate), read(HopLimit));
  }

  lemma SourceValues(cmd: Command)
    ensures ValueOf(cmd, SrcAddrIndex, 256) == SourceSent(cmd).sgid
    ensures ValueOf(cmd, Grh, 2) == SourceSent(cmd).grh
    ensures ValueOf(cmd, UdpSport, 0x1_0000) == SourceSent(cmd).udpSport
    ensures ValueOf(cmd, Dscp, 64) == SourceSent(cmd).dscp
    ensures ValueOf(cmd, PkeyIndex, 0x1_0000) == SourceSent(cmd).pkey
  {}

  lemma SourceInBytes(c: Context, read: Reading)
    requires ReadsAs(c, read)
    ensures SourceBytes(c, Source(read(SrcAddrIndex), read(Grh), read(UdpSport), read(Dscp), read(PkeyIndex)))
  {
    InByte(c, read, SrcAddrIndex, 8, 1, 0);
    InByte(c, read, Grh, 7, 1, 0);
    InTwoBytes(c, read, UdpSport, 14);
    InByte(c, read, Dscp, 14, 1, 2);
    InTwoBytes(c, read, PkeyIndex, 6);
  }

  lemma SourceCarried(c: Context, read: Reading, cmd: Command)
    requires ReadsAs(c, read) && HoldsCommand(c, cmd)
    ensures SourceBytes(c, SourceSent(cmd))
  {
    SourceValues(cmd);
    ReadOf(c, read, cmd, SrcAddrIndex, 256);
    ReadOf(c, read, cmd, Grh, 2);
    ReadOf(c, read, cmd, UdpSport, 0x1_0000);
    ReadOf(c, read, cmd, Dscp, 64);
    ReadOf(c, read, cmd, PkeyIndex, 0x1_0000);
    SourceInBytes(c, read);
    assert SourceSent(cmd) == Source(read(SrcAddrIndex), read(Grh), read(UdpSport), read(Dscp), read(PkeyIndex));
  }

  lemma AccessValues(cmd: Command)
    ensures ValueOf(cmd, Rwe, 2) == AccessSent(cmd).remoteWrite
    ensures ValueOf(cmd, Rre, 2) == AccessSent(cmd).remoteRead
    ensures ValueOf(cmd, Rae, 2) == AccessSent(cmd).atomics
    ensures ValueOf(cmd, AtomicMode, 16) == AccessSent(cmd).atomicMode
  {}

  lemma AccessInBytes(c: Context, read: Reading)
    requires ReadsAs(c, read)
    ensures AccessBytes(c, Access(read(Rwe), read(Rre), read(Rae), read(AtomicMode)))
  {
    InByte(c, read, Rwe, 36, 2, 1);
    InByte(c, read, Rre, 36, 2, 0);
    InByte(c, read, Rae, 36, 2, 2);
    InByte(c, read, AtomicMode, 36, 1, 4);
  }

  lemma AccessCarried(c: Context, read: Reading, cmd: Command)
    requires ReadsAs(c, read) && HoldsCommand(c, cmd)
    ensures AccessBytes(c, AccessSent(cmd))
  {
    AccessValues(cmd);
    ReadOf(c, read, cmd, Rwe, 2);
    ReadOf(c, read, cmd, Rre, 2);
    ReadOf(c, read, cmd, Rae, 2);
    ReadOf(c, read, cmd, AtomicMode, 16);
    AccessInBytes(c, read);
    assert AccessSent(cmd) == Access(read(Rwe), read(Rre), read(Rae), read(AtomicMode));
  }

  lemma ReadsValues(cmd: Command)
    ensures ValueOf(cmd, LogRraMax, 8) == ReadsSent(cmd).logIn
    ensures ValueOf(cmd, LogSraMax, 8) == ReadsSent(cmd).logOut
    ensures ValueOf(cmd, LogAckReqFreq, 16) == ReadsSent(cmd).ackFreq
  {}

  lemma ReadsInBytes(c: Context, read: Reading)
    requires ReadsAs(c, read)
    ensures ReadsBytes(c, Reads(read(LogRraMax), read(LogSraMax), read(LogAckReqFreq)))
  {
    InByte(c, read, LogRraMax, 36, 1, 0);
    InByte(c, read, LogSraMax, 28, 1, 0);
    InByte(c, read, LogAckReqFreq, 28, 0, 0);
  }

  lemma ReadsCarried(c: Context, read: Reading, cmd: Command)
    requires ReadsAs(c, read) && HoldsCommand(c, cmd)
    ensures ReadsBytes(c, ReadsSent(cmd))
  {
    ReadsValues(cmd);
    ReadOf(c, read, cmd, LogRraMax, 8);
    ReadOf(c, read, cmd, LogSraMax, 8);
    ReadOf(c, read, cmd, LogAckReqFreq, 16);
    ReadsInBytes(c, read);
    assert ReadsSent(cmd) == Reads(read(LogRraMax), read(LogSraMax), read(LogAckReqFreq));
  }

  lemma SendingValues(cmd: Command)
    ensures ValueOf(cmd, NextSendPsn, 0x100_0000) == SendingSent(cmd).sqPsn
    ensures ValueOf(cmd, AckTimeout, 32) == SendingSent(cmd).timeout
    ensures ValueOf(cmd, RetryCount, 8) == SendingSent(cmd).retries
    ensures ValueOf(cmd, RnrRetry, 8) == SendingSent(cmd).rnrRetries
  {}

  lemma SendingInBytes(c: Context, read: Reading)
    requires ReadsAs(c, read)
    ensures SendingBytes(c, Sending(read(NextSendPsn), read(AckTimeout), read(RetryCount), read(RnrRetry)))
  {
    InThreeBytes(c, read, NextSendPsn, 30);
    InByte(c, read, AckTimeout, 8, 0, 0);
    InByte(c, read, RetryCount, 28, 1, 5);
    InByte(c, read, RnrRetry, 28, 2, 0);
  }

  lemma SendingCarried(c: Context, read: Reading, cmd: Command)
    requires ReadsAs(c, read) && HoldsCommand(c, cmd)
    ensures SendingBytes(c, SendingSent(cmd))
  {
    SendingValues(cmd);
    ReadOf(c, read, cmd, NextSendPsn, 0x100_0000);
    ReadOf(c, read, cmd, AckTimeout, 32);
    ReadOf(c, read, cmd, RetryCount, 8);
    ReadOf(c, read, cmd, RnrRetry, 8);
    SendingInBytes(c, read);
    assert SendingSent(cmd) == Sending(read(NextSendPsn), read(AckTimeout), read(RetryCount), read(RnrRetry));
  }

  lemma FirstValues(cmd: Command)
    ensures ValueOf(cmd, VhcaPortNum, 256) == FirstSent(cmd).vhcaPort
    ensures ValueOf(cmd, PmState, 4) == FirstSent(cmd).pmState
    ensures ValueOf(cmd, CounterSetId, 256) == FirstSent(cmd).counterSet
  {}

  lemma FirstInBytes(c: Context, read: Reading)
    requires ReadsAs(c, read)
    ensures FirstBytes(c, First(read(VhcaPortNum), read(PmState), read(CounterSetId)))
  {
    InByte(c, read, VhcaPortNum, 15, 1, 0);
    InByte(c, read, PmState, 0, 2, 3);
    InByte(c, read, CounterSetId, 3, 0, 0);
  }

  lemma FirstCarried(c: Context, read: Reading, cmd: Command)
    requires ReadsAs(c, read) && HoldsCommand(c, cmd)
    ensures FirstBytes(c, FirstSent(cmd))
  {
    FirstValues(cmd);
    ReadOf(c, read, cmd, VhcaPortNum, 256);
    ReadOf(c, read, cmd, PmState, 4);
    ReadOf(c, read, cmd, CounterSetId, 256);
    FirstInBytes(c, read);
    assert FirstSent(cmd) == First(read(VhcaPortNum), read(PmState), read(CounterSetId));
  }

  lemma CarriedBy(c: Context, read: Reading, cmd: Command)
    requires ReadsAs(c, read) && HoldsCommand(c, cmd)
    ensures Carried(c, cmd)
  {
    PeerCarried(c, read, cmd);
    RouteCarried(c, read, cmd);
    SourceCarried(c, read, cmd);
    AccessCarried(c, read, cmd);
    ReadsCarried(c, read, cmd);
    SendingCarried(c, read, cmd);
    FirstCarried(c, read, cmd);
  }

  /** So it is after every command. */
  lemma CommandOnWire(c: Context, cmd: Command)
    requires HoldsCommand(c, cmd)
    ensures Carried(c, cmd)
  {
    CarriedBy(c, n => ReadField(c, n), cmd);
  }

  /** When each optional part is called for, by attribute bit. */
  lemma ChoicesByBit(a: Attributes, mask: u32, roceV2: bool)
    ensures var w := ChoicesOf(a, mask, roceV2);
      && (w.remoteWrite <==> a.allowRemoteWrite == 1)
      && (w.remoteRead <==> TestBit(mask, 1) && a.allowRemoteRead == 1)
      && (w.minRnr <==> TestBit(mask, 3))
      && (w.ackTimeout <==> TestBit(mask, 11)) && (w.retryCnt <==> TestBit(mask, 12)) && (w.rnrRetry <==> TestBit(mask, 13))
      && (w.atomics <==> TestBit(mask, 15) && a.atomicMode > 0)
      && (w.qpReads <==> TestBit(mask, 16)) && (w.destReads <==> TestBit(mask, 17))
      && (w.roceV2 <==> roceV2)
  {
    HasIsBit(mask, 1);
    HasIsBit(mask, 3);
    HasIsBit(mask, 11);
    HasIsBit(mask, 12);
    HasIsBit(mask, 13);
    HasIsBit(mask, 15);
    HasIsBit(mask, 16);
    HasIsBit(mask, 17);
  }

  // ---------- the device keeps what was written ----------

  /** A device that stores, from a command, the fields that were written into it. */
  function Stored(c: Context, bytes: Context, names: seq<QpcField>): Context
    decreases |names|
  {
    if names == [] then c
    else Stored(SetField(c, names[0], ReadField(bytes, names[0])), bytes, names[1..])
  }

  lemma SmallMod(x: nat, p: nat)
    requires x < p
    ensures x % p == x
  {}

  lemma ReadIsCut(c: Context, n: QpcField)
    ensures Cut(ReadField(c, n), n) == ReadField(c, n)
  {
    FieldFits(n);
    GetBound(c, At(n));
    SmallMod(ReadField(c, n), Pow2(At(n).sz));
  }

  lemma {:induction false} StoredField(c: Context, bytes: Context, names: seq<QpcField>, m: QpcField)
    ensures ReadField(Stored(c, bytes, names), m) == if m in names then ReadField(bytes, m) else ReadField(c, m)
    decreases |names|
  {
    if names != [] {
      StoredField(SetField(c, names[0], ReadField(bytes, names[0])), bytes, names[1..], m);
      ReadAfterSet(c, names[0], ReadField(bytes, names[0]), m);
      ReadIsCut(bytes, m);
    }
  }

  /** A command as it reached the device: its bytes, and the list of fields written into them. */
  datatype Sent = Sent(command: Command, bytes: Context, names: seq<QpcField>)

  ghost predicate WellSent(s: Sent) {
    && HoldsCommand(s.bytes, s.command)
    && forall n :: n in s.names <==> Carries(s.command, n).Some?
  }

  /** The device's context after a list of commands. */
  function DeviceAfter(c: Context, sent: seq<Sent>): Context
    decreases |sent|
  {
    if sent == [] then c
    else
      var last := sent[|sent| - 1];
      Stored(DeviceAfter(c, sent[..|sent| - 1]), last.bytes, last.names)
  }

  /** The value last written to a field by a list of commands. */
  function Latest(sent: seq<Sent>, n: QpcField): Option<u32> {
    if sent == [] then None
    else Else(Carries(sent[|sent| - 1].command, n), Latest(sent[..|sent| - 1], n))
  }

  function Seen(written: Option<u32>, n: QpcField, before: nat): nat {
    if written.Some? then Cut(written.value, n) else before
  }

  /** Whatever was sent, each field reads as the last value written to it, cut to its width. */
  lemma {:induction false} DeviceKeepsLatest(c: Context, sent: seq<Sent>, n: QpcField)
    requires forall s :: s in sent ==> WellSent(s)
    ensures ReadField(DeviceAfter(c, sent), n) == Seen(Latest(sent, n), n, ReadField(c, n))
    decreases |sent|
  {
    if sent != [] {
      var last := sent[|sent| - 1];
      assert last in sent && WellSent(last);
      assert forall s :: s in sent[..|sent| - 1] ==> s in sent;
      DeviceKeepsLatest(c, sent[..|sent| - 1], n);
      StoredField(DeviceAfter(c, sent[..|sent| - 1]), last.bytes, last.names, n);
    }
  }

  // ---------- query ----------

  datatype Queried = Queried(
    pathMtu: Option<nat>, rqPsn: nat, sqPsn: nat, destQpNum: nat, pkeyIndex: nat, portNum: nat,
    ackTimeout: nat, counterSetId: nat, retryCnt: nat, rnrRetry: nat, minRnrTimer: nat,
    allowRemoteWrite: nat, allowRemoteRead: nat, maxRdAtomic: nat, maxDestRdAtomic: nat, ah: QueriedAddress)

  datatype QueriedAddress = QueriedAddress(
    dlid: nat, sl: nat, sgidIndex: nat, staticRate: nat, hopLimit: nat, trafficClass: nat)

  /** `query_qp`, on the context the device returns. */
  function Query(c: Context): Queried { QueryOf(n => ReadField(c, n)) }

  function QueryOf(read: Reading): Queried {
    Queried(
      MtuOf(read(Mtu)), read(NextRcvPsn), read(NextSendPsn), read(RemoteQpn),
      read(PkeyIndex), read(VhcaPortNum), read(AckTimeout), read(CounterSetId), read(RetryCount), read(RnrRetry),
      read(MinRnrNak), read(Rwe), read(Rre), Shl(1, read(LogSraMax)), Shl(1, read(LogRraMax)),
      QueriedAddress(read(Rlid), read(Sl), read(SrcAddrIndex), read(StatRate), read(HopLimit), read(Tclass)))
  }

  lemma PeerQueried(c: Context, read: Reading)
    requires ReadsAs(c, read)
    ensures var q := QueryOf(read);
      && q.rqPsn == Be24At(c, 149) && q.destQpNum == Be24At(c, 21)
      && q.pathMtu == MtuOf(c[8] / 32) && q.minRnrTimer == c[148] % 32
  {
    PeerInBytes(c, read);
  }

  lemma SendingQueried(c: Context, read: Reading)
    requires ReadsAs(c, read)
    ensures var q := QueryOf(read);
      && q.sqPsn == Be24At(c, 121) && q.ackTimeout == c[32] / 8 && q.retryCnt == c[113] % 8 && q.rnrRetry == c[114] / 32
      && q.maxRdAtomic == Shl(1, c[113] / 32) && q.maxDestRdAtomic == Shl(1, c[145] / 32)
  {
    SendingInBytes(c, read);
    ReadsInBytes(c, read);
  }

  lemma PortQueried(c: Context, read: Reading)
    requires ReadsAs(c, read)
    ensures var q := QueryOf(read);
      && q.portNum == c[61] && q.counterSetId == c[12] && q.pkeyIndex == Be16At(c, 26)
      && q.allowRemoteWrite == c[146] / 64 % 2 && q.allowRemoteRead == c[146] / 128
  {
    FirstInBytes(c, read);
    SourceInBytes(c, read);
    AccessInBytes(c, read);
  }

  lemma AddressQueried(c: Context, read: Reading)
    requires ReadsAs(c, read)
    ensures var v := QueryOf(read).ah;
      && v.trafficClass == c[36] % 16 * 16 + c[37] / 16 && v.dlid == Be16At(c, 30) && v.sl == c[60] % 16
      && v.staticRate == c[34] % 16 && v.hopLimit == c[35] && v.sgidIndex == c[33]
  {
    RouteInBytes(c, read);
    SourceInBytes(c, read);
  }

  /** Each queried attribute comes from the header's bytes for it. */
  lemma QueryFromBytes(c: Context)
    ensures var q := Query(c);
      && q.rqPsn == Be24At(c, 149) && q.destQpNum == Be24At(c, 21)
      && q.pathMtu == MtuOf(c[8] / 32) && q.minRnrTimer == c[148] % 32
      && q.sqPsn == Be24At(c, 121) && q.ackTimeout == c[32] / 8 && q.retryCnt == c[113] % 8 && q.rnrRetry == c[114] / 32
      && q.maxRdAtomic == Shl(1, c[113] / 32) && q.maxDestRdAtomic == Shl(1, c[145] / 32)
      && q.portNum == c[61] && q.counterSetId == c[12] && q.pkeyIndex == Be16At(c, 26)
      && q.allowRemoteWrite == c[146] / 64 % 2 && q.allowRemoteRead == c[146] / 128
      && q.ah.trafficClass == c[36] % 16 * 16 + c[37] / 16 && q.ah.dlid == Be16At(c, 30) && q.ah.sl == c[60] % 16
      && q.ah.staticRate == c[34] % 16 && q.ah.hopLimit == c[35] && q.ah.sgidIndex == c[33]
  {
    var read: Reading := n => ReadField(c, n);
    PeerQueried(c, read);
    SendingQueried(c, read);
    PortQueried(c, read);
    AddressQueried(c, read);
  }

  /** Any commands at all, then the two that connect: ready to receive with `a`, ready to send with `b`. */
  datatype Connection = Connection(a: Attributes, aMask: u32, roceV2: bool, udpSport: u16, b: Attributes, bMask: u32) {
    function ToReceive(): Command { Init2Rtr(a, ChoicesOf(a, aMask, roceV2), udpSport) }

    function ToSend(): Command { Rtr2Rts(b, ChoicesOf(b, bMask, roceV2)) }

    ghost predicate Ends(sent: seq<Sent>) {
      && |sent| >= 2
      && sent[|sent| - 2].command == ToReceive()
      && sent[|sent| - 1].command == ToSend()
      && forall s :: s in sent ==> WellSent(s)
    }
  }

  lemma LatestOfTwo(sent: seq<Sent>, n: QpcField, x: Option<u32>, y: Option<u32>)
    requires |sent| >= 2
    requires Carries(sent[|sent| - 2].command, n) == x && Carries(sent[|sent| - 1].command, n) == y
    ensures Latest(sent, n) == Else(y, Else(x, Latest(sent[..|sent| - 2], n)))
  {
    var front := sent[..|sent| - 1];
    assert front[|front| - 1] == sent[|sent| - 2] && front[..|front| - 1] == sent[..|sent| - 2];
  }

  lemma ReadConnected(c: Context, sent: seq<Sent>, k: Connection, n: QpcField, x: Option<u32>, y: Option<u32>)
    requires k.Ends(sent) && Carries(k.ToReceive(), n) == x && Carries(k.ToSend(), n) == y
    requires Else(y, x).Some?
    ensures ReadField(DeviceAfter(c, sent), n) == Cut(Else(y, x).value, n)
  {
    DeviceKeepsLatest(c, sent, n);
    LatestOfTwo(sent, n, x, y);
  }

  lemma Cut24(v: u32, n: QpcField)
    requires At(n).sz == W24
    ensures Cut(v, n) == v % 0x100_0000
  {
    Pow2Values();
  }

  lemma ReceivePsnRead(c: Context, sent: seq<Sent>, k: Connection)
    requires k.Ends(sent)
    ensures ReadField(DeviceAfter(c, sent), NextRcvPsn) == k.a.rqPsn % 0x100_0000
  {
    ReadConnected(c, sent, k, NextRcvPsn, Some(k.a.rqPsn), None);
    Cut24(k.a.rqPsn, NextRcvPsn);
  }

  lemma SendPsnRead(c: Context, sent: seq<Sent>, k: Connection)
    requires k.Ends(sent)
    ensures ReadField(DeviceAfter(c, sent), NextSendPsn) == k.b.sqPsn % 0x100_0000
  {
    ReadConnected(c, sent, k, NextSendPsn, None, Some(k.b.sqPsn));
    Cut24(k.b.sqPsn, NextSendPsn);
  }

  lemma PeerRead(c: Context, sent: seq<Sent>, k: Connection)
    requires k.Ends(sent)
    ensures ReadField(DeviceAfter(c, sent), RemoteQpn) == k.a.destQpNum % 0x100_0000
  {
    ReadConnected(c, sent, k, RemoteQpn, Some(k.a.destQpNum), None);
    Cut24(k.a.destQpNum, RemoteQpn);
  }

  /** Both sequence numbers come back modulo 2^24, for every 32-bit input; so does the peer's number. */
  lemma PsnsComeBack(c: Context, sent: seq<Sent>, k: Connection)
    requires k.Ends(sent)
    ensures Query(DeviceAfter(c, sent)).rqPsn == k.a.rqPsn % 0x100_0000
    ensures Query(DeviceAfter(c, sent)).sqPsn == k.b.sqPsn % 0x100_0000
    ensures Query(DeviceAfter(c, sent)).destQpNum == k.a.destQpNum % 0x100_0000
  {
    ReceivePsnRead(c, sent, k);
    SendPsnRead(c, sent, k);
    PeerRead(c, sent, k);
  }

  /** A 24-bit value of the two last commands, in the device's bytes. */
  lemma BytesConnected(c: Context, sent: seq<Sent>, k: Connection, n: QpcField, x: Option<u32>, y: Option<u32>, dw: nat)
    requires k.Ends(sent) && Carries(k.ToReceive(), n) == x && Carries(k.ToSend(), n) == y && Else(y, x).Some?
    requires At(n).off == 32 * dw + 8 && At(n).sz == 24
    ensures 4 * dw + 4 <= QPC_BYTES && Be24At(DeviceAfter(c, sent), 4 * dw + 1) == Else(y, x).value % 0x100_0000
  {
    ReadConnected(c, sent, k, n, x, y);
    Cut24(Else(y, x).value, n);
    ThreeBytesOf(DeviceAfter(c, sent), n, dw);
  }

  lemma PeerNumberBytes(c: Context, sent: seq<Sent>, k: Connection)
    requires k.Ends(sent)
    ensures Be24At(DeviceAfter(c, sent), 21) == k.a.destQpNum % 0x100_0000
  {
    BytesConnected(c, sent, k, RemoteQpn, Some(k.a.destQpNum), None, 5);
  }

  lemma SendPsnBytes(c: Context, sent: seq<Sent>, k: Connection)
    requires k.Ends(sent)
    ensures Be24At(DeviceAfter(c, sent), 121) == k.b.sqPsn % 0x100_0000
  {
    BytesConnected(c, sent, k, NextSendPsn, None, Some(k.b.sqPsn), 30);
  }

  lemma ReceivePsnBytes(c: Context, sent: seq<Sent>, k: Connection)
    requires k.Ends(sent)
    ensures Be24At(DeviceAfter(c, sent), 149) == k.a.rqPsn % 0x100_0000
  {
    BytesConnected(c, sent, k, NextRcvPsn, Some(k.a.rqPsn), None, 37);
  }

  /** And they are in the device's own bytes for them: 21 to 23, 121 to 123 and 149 to 151 of its context. */
  lemma PsnsOnDevice(c: Context, sent: seq<Sent>, k: Connection)
    requires k.Ends(sent)
    ensures Be24At(DeviceAfter(c, sent), 21) == k.a.destQpNum % 0x100_0000
    ensures Be24At(DeviceAfter(c, sent), 121) == k.b.sqPsn % 0x100_0000
    ensures Be24At(DeviceAfter(c, sent), 149) == k.a.rqPsn % 0x100_0000
  {
    PeerNumberBytes(c, sent, k);
    SendPsnBytes(c, sent, k);
    ReceivePsnBytes(c, sent, k);
  }

  lemma ThreeBytesOf(d: Context, n: QpcField, dw: nat)
    requires At(n).off == 32 * dw + 8 && At(n).sz == 24
    ensures 4 * dw + 4 <= QPC_BYTES && ReadField(d, n) == Be24At(d, 4 * dw + 1)
  {
    FieldFits(n);
    GetLow24(d, At(n), dw);
  }

  lemma DepthComesBack(v: u8)
    ensures Cut(Log2u8(v), LogSraMax) == Log2(v) && Cut(Log2u8(v), LogRraMax) == Log2(v)
    ensures Shl(1, Log2(v)) == v <==> IsPow2(v)
  {
    assert Pow2(3) == 8;
    Log2Small(v);
    ShlIsMul(1, Log2(v));
  }

  lemma SendDepthRead(c: Context, sent: seq<Sent>, k: Connection)
    requires k.Ends(sent) && Has(k.bMask, MAX_QP_RD_ATOMIC)
    ensures ReadField(DeviceAfter(c, sent), LogSraMax) == Log2(k.b.maxRdAtomic)
  {
    ReadConnected(c, sent, k, LogSraMax, None, Some(Log2u8(k.b.maxRdAtomic)));
    DepthComesBack(k.b.maxRdAtomic);
  }

  lemma ReceiveDepthRead(c: Context, sent: seq<Sent>, k: Connection)
    requires k.Ends(sent) && Has(k.aMask, MAX_DEST_RD_ATOMIC)
    ensures ReadField(DeviceAfter(c, sent), LogRraMax) == Log2(k.a.maxDestRdAtomic)
  {
    ReadConnected(c, sent, k, LogRraMax, Some(Log2u8(k.a.maxDestRdAtomic)), None);
    DepthComesBack(k.a.maxDestRdAtomic);
  }

  /** A depth comes back exactly when it is one its setter accepts. */
  lemma DepthsComeBack(c: Context, sent: seq<Sent>, k: Connection)
    requires k.Ends(sent)
    ensures Has(k.bMask, MAX_QP_RD_ATOMIC) ==>
      (Query(DeviceAfter(c, sent)).maxRdAtomic == k.b.maxRdAtomic <==> IsPowerOfTwo(k.b.maxRdAtomic))
    ensures Has(k.aMask, MAX_DEST_RD_ATOMIC) ==>
      (Query(DeviceAfter(c, sent)).maxDestRdAtomic == k.a.maxDestRdAtomic <==> IsPowerOfTwo(k.a.maxDestRdAtomic))
  {
    DepthComesBack(k.b.maxRdAtomic);
    DepthComesBack(k.a.maxDestRdAtomic);
    if Has(k.bMask, MAX_QP_RD_ATOMIC) { SendDepthRead(c, sent, k); }
    if Has(k.aMask, MAX_DEST_RD_ATOMIC) { ReceiveDepthRead(c, sent, k); }
  }

  lemma CutFits(v: nat, n: QpcField, w: nat)
    requires At(n).sz == w
    ensures Cut(v, n) == v <==> v < Pow2(w)
  {
    NarrowMod(v, Pow2(w));
  }

  lemma NarrowMod(v: nat, p: nat)
    requires p > 0
    ensures v % p == v <==> v < p
  {}

  lemma TimersRequired(mask: u32)
    requires MaskAccepted(mask, RTR2RTS_REQUIRED, RTR2RTS_OPTIONAL)
    ensures Has(mask, ACK_TIMEOUT) && Has(mask, RETRY_CNT) && Has(mask, RNR_RETRY)
  {
    MaskAcceptedMeans(mask, RTR2RTS_REQUIRED, RTR2RTS_OPTIONAL);
    assert RTR2RTS_REQUIRED[1] == ACK_TIMEOUT && RTR2RTS_REQUIRED[2] == RETRY_CNT && RTR2RTS_REQUIRED[3] == RNR_RETRY;
  }

  lemma AckTimeoutRead(c: Context, sent: seq<Sent>, k: Connection)
    requires k.Ends(sent) && Has(k.bMask, ACK_TIMEOUT)
    ensures ReadField(DeviceAfter(c, sent), AckTimeout) == k.b.ackTimeout <==> k.b.ackTimeout < 32
  {
    ReadConnected(c, sent, k, AckTimeout, None, Some(k.b.ackTimeout));
    CutFits(k.b.ackTimeout, AckTimeout, W5);
    Pow2Values();
  }

  lemma RetryCountRead(c: Context, sent: seq<Sent>, k: Connection)
    requires k.Ends(sent) && Has(k.bMask, RETRY_CNT)
    ensures ReadField(DeviceAfter(c, sent), RetryCount) == k.b.retryCnt <==> k.b.retryCnt < 8
  {
    ReadConnected(c, sent, k, RetryCount, None, Some(k.b.retryCnt));
    CutFits(k.b.retryCnt, RetryCount, W3);
    Pow2Values();
  }

  lemma RnrRetryRead(c: Context, sent: seq<Sent>, k: Connection)
    requires k.Ends(sent) && Has(k.bMask, RNR_RETRY)
    ensures ReadField(DeviceAfter(c, sent), RnrRetry) == k.b.rnrRetry <==> k.b.rnrRetry < 8
  {
    ReadConnected(c, sent, k, RnrRetry, None, Some(k.b.rnrRetry));
    CutFits(k.b.rnrRetry, RnrRetry, W3);
    Pow2Values();
  }

  /** The required timers have no range check: each comes back exactly when it fits its field. */
  lemma TimersComeBack(c: Context, sent: seq<Sent>, k: Connection)
    requires k.Ends(sent) && MaskAccepted(k.bMask, RTR2RTS_REQUIRED, RTR2RTS_OPTIONAL)
    ensures Query(DeviceAfter(c, sent)).ackTimeout == k.b.ackTimeout <==> k.b.ackTimeout < 32
    ensures Query(DeviceAfter(c, sent)).retryCnt == k.b.retryCnt <==> k.b.retryCnt < 8
    ensures Query(DeviceAfter(c, sent)).rnrRetry == k.b.rnrRetry <==> k.b.rnrRetry < 8
  {
    TimersRequired(k.bMask);
    AckTimeoutRead(c, sent, k);
    RetryCountRead(c, sent, k);
    RnrRetryRead(c, sent, k);
  }

  lemma MtuRead(c: Context, sent: seq<Sent>, k: Connection)
    requires k.Ends(sent)
    ensures ReadField(DeviceAfter(c, sent), Mtu) == PrmMtu(k.a.pathMtu)
  {
    ReadConnected(c, sent, k, Mtu, Some(PrmMtu(k.a.pathMtu)), None);
    CutFits(PrmMtu(k.a.pathMtu), Mtu, W3);
    Pow2Values();
  }

  lemma MtuInverts(m: nat)
    requires m <= 5
    ensures MtuOf(PrmMtu(m)) == Some(m)
  {}

  /** Every transfer unit the checks let through comes back. */
  lemma MtuComesBack(c: Context, sent: seq<Sent>, k: Connection)
    requires k.Ends(sent) && k.a.pathMtu <= 5
    ensures Query(DeviceAfter(c, sent)).pathMtu == Some(k.a.pathMtu)
  {
    MtuRead(c, sent, k);
    MtuInverts(k.a.pathMtu);
  }

  // ---------- the one flag set through the 64-bit writer ----------

  const CD_MASTER: Field := Field(0x49f, 1)

  lemma CdMasterQuad(c: Context, v: u8, f: Field, shift: nat)
    requires FitsIn(QPC_BYTES, f) && f.off / 64 == CD_MASTER.off / 64 && f.off % 64 + f.sz + shift == 64
    ensures Fits64(c, CD_MASTER.off)
    ensures Get(Set64(c, v, CD_MASTER.off), f) == v / Pow2(shift) % Pow2(f.sz)
  {
    GetAfterSet64(c, v, CD_MASTER.off, f);
  }

  lemma SmallDiv(v: u8, n: nat)
    requires W8 <= n
    ensures v / Pow2(n) == 0
  {
    ByteBelow(v, n);
    ModUnique(v, Pow2(n), 0, v);
  }

  lemma CdMasterUnset(c: Context, v: u8)
    ensures Fits(c, CD_MASTER) && Fits64(c, CD_MASTER.off)
    ensures Get(Set64(c, v, CD_MASTER.off), CD_MASTER) == 0
  {
    CdMasterQuad(c, v, CD_MASTER, W32);
    SmallDiv(v, W32);
    SmallMod(0, Pow2(CD_MASTER.sz));
  }

  lemma PsnTakesCdMaster(c: Context, v: u8)
    ensures Fits64(c, CD_MASTER.off) && ReadField(Set64(c, v, CD_MASTER.off), NextRcvPsn) == v
  {
    CdMasterQuad(c, v, At(NextRcvPsn), 0);
    ByteHeld(v, At(NextRcvPsn).sz);
  }

  lemma ByteHeld(v: u8, n: nat)
    requires W8 <= n
    ensures v / Pow2(0) % Pow2(n) == v
  {
    assert Pow2(0) == 1;
    ByteBelow(v, n);
    SmallMod(v, Pow2(n));
  }

  lemma ByteBelow(v: u8, n: nat)
    requires W8 <= n
    ensures v < Pow2(n)
  {
    Pow2Values();
    Pow2Monotone(W8, n);
  }

  /** Setting `cd_master` at creation never sets it: the value lands in the receive sequence number. */
  lemma CdMasterMissesItsField(c: Context, v: u8)
    ensures Fits(c, CD_MASTER) && Fits64(c, CD_MASTER.off)
    ensures Get(Set64(c, v, CD_MASTER.off), CD_MASTER) == 0
    ensures ReadField(Set64(c, v, CD_MASTER.off), NextRcvPsn) == v
  {
    CdMasterUnset(c, v);
    PsnTakesCdMaster(c, v);
  }

}
