/**
 Sizing of a queue pair's receive and send queues and the layout of the buffer that holds
 them, in the code's 32-bit arithmetic.  A division by zero is an outcome of its own.
 */
module QpSizing {
  import opened Bits
  import opened PowerOfTwo

  const DATA_SEG: nat := 16
  const WQEBB: nat := 64
  const CACHELINE: nat := 64
  const DOORBELL: nat := 64
  const PAGE: nat := 4096

  /** The most bytes a ring rounded up in 32 bits can have. */
  const RING_MAX: nat := 0x8000_0000

  /** What the device reports. */
  datatype Limits = Limits(maxQpWr: u32, maxRqDesc: u32, maxSqDesc: u32, maxSendWqebb: u32)

  datatype Plan<T> = Rejected | DividesByZero | Planned(value: T)

  datatype Receive = Receive(maxSges: u32, wqeSize: u32, logWqe: nat, logStride: u32, size: u32, logSize: nat)

  datatype SendQueue = SendQueue(
    maxSges: u32, wqeSize: u32, wqebbs: u32, logWqebbs: nat, size: u32, maxInline: u32)

  const NO_RECEIVE := Receive(0, 0, 0, 0, 0, 0)
  const NO_SEND := SendQueue(0, 0, 0, 0, 0, 0)

  // ---------- the plans ----------

  function ReceivePlan(rqWr: u32, sges: u32, srq: bool, dev: Limits): Plan<Receive> {
    if rqWr == 0 || srq then Planned(NO_RECEIVE)
    else if rqWr > dev.maxQpWr || sges == 0 then Rejected
    else
      var maxSges := U32(RoundedUp(sges));
      var wqe := U32(maxSges * DATA_SEG);
      if wqe > dev.maxRqDesc then Rejected
      else if wqe == 0 then DividesByZero
      else
        var size := Quotient(AtLeast(Rounded32(rqWr * wqe), WQEBB), wqe);
        Planned(Receive(maxSges, wqe, Log2(wqe), U32(Log2(wqe) - 4), size, Log2(size)))
  }

  function AtLeast(x: u32, y: u32): u32 { if x >= y then x else y }

  function SendBytes(sges: u32): u32 { U32(32 + sges * DATA_SEG) }

  /** The size of a request that carries `inline` bytes of inline data. */
  function InlineBytes(inline: u32): u32 {
    if inline == 0 then 0 else U32(32 + U32(AlignUp64(U32(4 + inline), 16)))
  }

  /** The aligned size of one send request. */
  function SendWqe(sges: u32, inline: u32): u32 {
    AlignUp32(AtLeast(SendBytes(sges), InlineBytes(inline)), WQEBB)
  }

  function SendPlan(sqWr: u32, sges: u32, inline: u32, dev: Limits): Plan<SendQueue> {
    if sqWr == 0 then Planned(NO_SEND)
    else if dev.maxSqDesc == 0 then DividesByZero
    else if sqWr > 0x7fff_ffff / dev.maxSqDesc || sges == 0 then Rejected
    else if SendBytes(sges) > dev.maxSqDesc || InlineBytes(inline) > dev.maxSqDesc then Rejected
    else
      var wqe := SendWqe(sges, inline);
      var bytes := Rounded32(wqe * sqWr);
      var wqebbs := Quotient(bytes, WQEBB);
      if wqebbs > dev.maxSendWqebb then Rejected
      else if wqe == 0 then DividesByZero
      else
        Planned(SendQueue(sges, wqe, wqebbs, Log2(wqebbs), Quotient(bytes, wqe), if inline == 0 then 0 else U32(wqe - 36)))
  }

  datatype Layout = Layout(sqStart: nat, doorbell: u32, total: u32)

  /** Offsets in the internal buffer: the receive queue at 0, the send queue, then the doorbell record. */
  function LayoutOf(rq: Receive, sq: SendQueue): Layout {
    var doorbell := AlignUp32(U32(U32(rq.size * rq.wqeSize) + U32(sq.wqebbs * WQEBB)), CACHELINE);
    Layout(Shl(rq.size, rq.logWqe), doorbell, AlignUp32(U32(doorbell + DOORBELL), PAGE))
  }

  /** The caller's memory: registered bases and the offsets the caller gave for the queues and for the doorbell record. */
  datatype External = External(wqBase: u64, wqOffset: u64, dbrBase: u64, dbrOffset: u64)

  datatype Pointers = Pointers(rq: u64, sq: u64, doorbell: u64)

  /** Where the CPU looks. */
  function CpuView(e: External, rq: Receive): Pointers {
    var start := U64(e.wqBase + e.wqOffset);
    Pointers(start, U64(start + Shl(rq.size, rq.logWqe)), U64(e.dbrBase + e.dbrOffset))
  }

  /** Where the device looks: it is told the memory of the queues, but of the two offsets only the doorbell's. */
  function DeviceView(e: External, rq: Receive): Pointers {
    Pointers(e.wqBase, U64(e.wqBase + Shl(rq.size, rq.logWqe)), U64(e.dbrBase + e.dbrOffset))
  }

  // ---------- the code that follows the plans ----------

  class Queues {
    var receive: Receive
    var send: SendQueue
    var layout: Layout
    var pointers: Pointers

    constructor ()
      ensures receive == NO_RECEIVE && send == NO_SEND
    {
      receive, send := NO_RECEIVE, NO_SEND;
    }

    method SizeReceive(rqWr: u32, sges: u32, srq: bool, dev: Limits) returns (o: Plan<()>)
      requires receive == NO_RECEIVE
      modifies this`receive
      ensures match ReceivePlan(rqWr, sges, srq, dev)
        case Rejected => o == Rejected
        case DividesByZero => o == DividesByZero
        case Planned(p) => o == Planned(()) && receive == p
    {
      if rqWr > 0 && !srq {
        if rqWr > dev.maxQpWr { return Rejected; }
        if sges == 0 { return Rejected; }
        var rounded := NextPowerOfTwo(sges);
        var maxSges := U32(rounded);
        var wqe := U32(maxSges * DATA_SEG);
        if wqe > dev.maxRqDesc { return Rejected; }
        var logWqe: int := Log2(wqe);
        var logStride := U32(logWqe - 4);
        rounded := NextPowerOfTwo(U32(rqWr * wqe));
        var bytes := AtLeast(U32(rounded), WQEBB);
        if wqe == 0 { return DividesByZero; }
        var size := Quotient(bytes, wqe);
        receive := Receive(maxSges, wqe, logWqe, logStride, size, Log2(size));
      }
      return Planned(());
    }

    method SizeSend(sqWr: u32, sges: u32, inline: u32, dev: Limits) returns (o: Plan<()>)
      requires send == NO_SEND
      modifies this`send
      ensures match SendPlan(sqWr, sges, inline, dev)
        case Rejected => o == Rejected
        case DividesByZero => o == DividesByZero
        case Planned(p) => o == Planned(()) && send == p
    {
      if sqWr > 0 {
        if dev.maxSqDesc == 0 { return DividesByZero; }
        if sqWr > 0x7fff_ffff / dev.maxSqDesc { return Rejected; }
        if sges == 0 { return Rejected; }
        var plain := SendBytes(sges);
        if plain > dev.maxSqDesc { return Rejected; }
        var inlined: u32 := 0;
        if inline > 0 {
          inlined := InlineBytes(inline);
          if inlined > dev.maxSqDesc { return Rejected; }
        }
        var wqe := AlignUp32(AtLeast(plain, inlined), WQEBB);
        var rounded := NextPowerOfTwo(U32(wqe * sqWr));
        var bytes := U32(rounded);
        var wqebbs := Quotient(bytes, WQEBB);
        if wqebbs > dev.maxSendWqebb { return Rejected; }
        if wqe == 0 { return DividesByZero; }
        send := SendQueue(sges, wqe, wqebbs, Log2(wqebbs), Quotient(bytes, wqe), 0);
        if inline > 0 { send := send.(maxInline := U32(wqe - 36)); }
      }
      return Planned(());
    }

    /** The internal buffer, once both queues are sized. */
    method Place()
      modifies this`layout
      ensures layout == LayoutOf(receive, send)
    {
      var offset := U32(U32(receive.size * receive.wqeSize) + U32(send.wqebbs * WQEBB));
      offset := AlignUp32(offset, CACHELINE);
      var total := AlignUp32(U32(offset + DOORBELL), PAGE);
      layout := Layout(Shl(receive.size, receive.logWqe), offset, total);
    }

    /** The same for the caller's memory. */
    method PlaceExternal(e: External)
      modifies this`pointers
      ensures pointers == CpuView(e, receive)
      ensures pointers == DeviceView(e, receive) <==> e.wqOffset == 0
    {
      ExternalViewsAgree(e, receive);
      var wqBuf := e.wqBase;
      wqBuf := U64(wqBuf + e.wqOffset);
      var sqBuf := U64(wqBuf + Shl(receive.size, receive.logWqe));
      pointers := Pointers(wqBuf, sqBuf, U64(e.dbrBase + e.dbrOffset));
    }
  }

  // ---------- the receive queue ----------

  lemma SgesRounded(sges: u32)
    requires sges > 0
    ensures sges <= 0x800_0000 ==>
      && U32(RoundedUp(sges)) == LeastPow2(sges) <= 0x800_0000
      && U32(U32(RoundedUp(sges)) * DATA_SEG) == 16 * LeastPow2(sges)
    ensures sges > 0x800_0000 ==> U32(U32(RoundedUp(sges)) * DATA_SEG) == 0
  {
    Pow2Values();
    Rounded32Of(sges);
    if sges <= 0x800_0000 {
      LeastPow2Bound(sges, W27);
    } else if sges <= RING_MAX {
      LeastPow2IsLeast(sges);
      Pow2Gap(LeastPow2(sges), W28);
      assert IsPow2(Pow2(W28));
      Pow2Divides(Pow2(W28), LeastPow2(sges));
      ModUnique(LeastPow2(sges) * 16, TWO_32, LeastPow2(sges) / 0x1000_0000, 0);
    }
  }

  /** The receive side divides by zero exactly when the requested segment count is above 2^27. */
  lemma ReceiveDivides(rqWr: u32, sges: u32, srq: bool, dev: Limits)
    ensures ReceivePlan(rqWr, sges, srq, dev) == DividesByZero <==>
            0 < rqWr <= dev.maxQpWr && !srq && sges > 0x800_0000
  {
    if sges > 0 {
      SgesRounded(sges);
      LeastPow2Above(sges);
    }
  }

  /** A device that takes requests of 2^27 + 1 segments makes it so. */
  lemma ReceiveDividesAt()
    ensures ReceivePlan(1, 0x800_0001, false, Limits(1, 16, 0, 0)) == DividesByZero
  {
    ReceiveDivides(1, 0x800_0001, false, Limits(1, 16, 0, 0));
  }

  lemma EntryIsPow2(sges: u32)
    requires 0 < sges <= 0x800_0000
    ensures IsPow2(16 * LeastPow2(sges)) && 16 <= 16 * LeastPow2(sges) <= RING_MAX
  {
    SgesRounded(sges);
    LeastPow2IsLeast(sges);
    Pow2Values();
    assert IsPow2(Pow2(W4));
    Pow2Product(Pow2(W4), LeastPow2(sges));
  }

  lemma StrideLog(wqe: nat)
    requires IsPow2(wqe) && 16 <= wqe <= RING_MAX
    ensures Pow2(Log2(wqe)) == wqe && 4 <= Log2(wqe) < 32 && U32(Log2(wqe) - 4) + 4 == Log2(wqe)
  {
    Pow2Values();
    Log2Inverts(wqe);
    LogAtLeast(wqe, W4);
    if Log2(wqe) >= 32 { Pow2Monotone(W32, Log2(wqe)); }
  }

  /** The entry: a power of two with room for the segments asked for, its stride log exact. */
  lemma ReceiveEntry(rqWr: u32, sges: u32, dev: Limits)
    requires rqWr > 0 && ReceivePlan(rqWr, sges, false, dev).Planned?
    ensures var p := ReceivePlan(rqWr, sges, false, dev).value;
      && 0 < sges <= p.maxSges < 2 * sges && IsPow2(p.maxSges)
      && p.maxSges == LeastPow2(sges) && p.wqeSize == 16 * p.maxSges && IsPow2(p.wqeSize)
      && 16 <= p.wqeSize <= RING_MAX
      && Pow2(p.logWqe) == p.wqeSize && p.logStride + 4 == p.logWqe
  {
    SgesRounded(sges);
    LeastPow2IsLeast(sges);
    EntryIsPow2(sges);
    StrideLog(16 * LeastPow2(sges));
  }

  lemma LogAtLeast(x: nat, n: nat)
    requires IsPow2(x) && x >= Pow2(n)
    ensures Log2(x) >= n
  {
    Log2Inverts(x);
    if Log2(x) < n { Pow2Monotone(Log2(x), n); }
  }

  /**
   The queue holds the entries asked for exactly when they fill at most 2^31 bytes, an entry being
   16 bytes a segment and the segments rounded up; then it has a power of two of them and its log is exact.
   */
  lemma ReceiveHolds(rqWr: u32, sges: u32, dev: Limits)
    requires rqWr > 0 && ReceivePlan(rqWr, sges, false, dev).Planned?
    ensures var p := ReceivePlan(rqWr, sges, false, dev).value;
      && (p.size >= rqWr <==> rqWr * (16 * LeastPow2(sges)) <= RING_MAX)
      && (p.size >= rqWr ==> IsPow2(p.size) && Pow2(p.logSize) == p.size)
  {
    ReceiveEntry(rqWr, sges, dev);
    EntriesHold(rqWr, ReceivePlan(rqWr, sges, false, dev).value.wqeSize);
  }

  /**
   A receive request is accepted and served in full, as many entries as asked for and each with the
   segments asked for, exactly when it is within the device's two limits and within 2^31 bytes.
   */
  lemma ReceiveServedExactly(rqWr: u32, sges: u32, dev: Limits)
    requires rqWr > 0
    ensures var plan := ReceivePlan(rqWr, sges, false, dev);
      plan.Planned? && plan.value.size >= rqWr && plan.value.maxSges >= sges
      <==> && rqWr <= dev.maxQpWr && sges > 0 && 16 * LeastPow2(sges) <= dev.maxRqDesc
           && rqWr * (16 * LeastPow2(sges)) <= RING_MAX
  {
    var plan := ReceivePlan(rqWr, sges, false, dev);
    if plan.Planned? {
      ReceiveEntry(rqWr, sges, dev);
      ReceiveHolds(rqWr, sges, dev);
      SgesRounded(sges);
    } else if sges > 0 && rqWr <= dev.maxQpWr {
      SgesRounded(sges);
      LeastPow2IsLeast(sges);
      MulGrows(16 * LeastPow2(sges), rqWr);
      assert rqWr * (16 * LeastPow2(sges)) == 16 * LeastPow2(sges) * rqWr;
    }
  }

  /** One entry more than 2^31 bytes hold is accepted, and the queue gets four. */
  lemma ReceiveFallsShort()
    ensures var plan := ReceivePlan(0x800_0001, 1, false, Limits(0x800_0001, 16, 0, 0));
      plan.Planned? && plan.value.size < 0x800_0001
  {
    SgesRounded(1);
    SmallestLeast();
    ReceiveHolds(0x800_0001, 1, Limits(0x800_0001, 16, 0, 0));
  }

  lemma SmallestLeast()
    ensures LeastPow2(1) == 1
  {
    LeastPow2OfPow2(0);
  }

  lemma EntriesHold(count: u32, wqe: u32)
    requires count > 0 && wqe > 0 && IsPow2(wqe)
    ensures var size := Quotient(AtLeast(Rounded32(count * wqe), WQEBB), wqe);
      && (size >= count <==> count * wqe <= RING_MAX)
      && (size >= count ==> IsPow2(size) && Pow2(Log2(size)) == size)
  {
    var p := count * wqe;
    var bytes := AtLeast(Rounded32(p), WQEBB);
    RoundedHolds(p);
    MulGrows(wqe, count);
    QuotientBound(bytes, wqe, count);
    if p <= RING_MAX {
      RoundedRing(p);
      Pow2Divides(wqe, bytes);
      Log2Inverts(bytes / wqe);
    }
  }

  // ---------- the send queue ----------

  lemma LeastMultipleWithin(x: nat, a: nat, d: nat)
    requires a > 0 && x <= d && d % a == 0
    ensures LeastMultiple(x, a) <= d
  {
    var r := LeastMultiple(x, a);
    assert r == a * (r / a) && d == a * (d / a);
    if r > d {
      assert a * (r / a - d / a) == r - d;
      MulBetween(a, r / a - d / a, r - d);
    }
  }

  /** The largest segment count and inline size whose request size does not wrap in 32 bits. */
  predicate InRange(sges: u32, inline: u32) {
    sges <= 0xfff_fffd && inline <= 0xffff_ffcc
  }

  lemma SegmentsFit(sges: u32)
    ensures SendBytes(sges) >= 32 + 16 * sges <==> sges <= 0xfff_fffd
    ensures sges <= 0xfff_fffd ==> SendBytes(sges) == 32 + 16 * sges
  {}

  lemma InlineFits(inline: u32)
    requires 0 < inline <= 0xffff_ffcc
    ensures InlineBytes(inline) == 32 + LeastMultiple(4 + inline, 16)
    ensures InlineBytes(inline) >= 36 + inline
  {
    var m := LeastMultiple(4 + inline, 16);
    LeastMultipleWithin(4 + inline, 16, 0xffff_ffd0);
    CastFits32(4 + inline);
    assert AlignUp64(4 + inline, 16) == m by { AlignUpExact(4 + inline, 16); }
    CastFits32(m);
    CastFits32(32 + m);
  }

  /** What is planned has passed the guards. */
  lemma PlannedIsGuarded(sqWr: u32, sges: u32, inline: u32, dev: Limits)
    requires sqWr > 0 && SendPlan(sqWr, sges, inline, dev).Planned?
    ensures dev.maxSqDesc > 0 && sqWr <= 0x7fff_ffff / dev.maxSqDesc && sges > 0
    ensures SendBytes(sges) <= dev.maxSqDesc && InlineBytes(inline) <= dev.maxSqDesc && SendWqe(sges, inline) > 0
  {}

  lemma GuardedSize(sqWr: u32, sges: u32, inline: u32, d: u32)
    requires sqWr > 0 && d > 0 && sqWr <= 0x7fff_ffff / d
    requires SendBytes(sges) <= d && InlineBytes(inline) <= d && SendWqe(sges, inline) > 0
    ensures var checked := AtLeast(SendBytes(sges), InlineBytes(inline));
      && checked <= d <= 0x7fff_ffff && sqWr * d <= 0x7fff_ffff
      && SendWqe(sges, inline) == LeastMultiple(checked, WQEBB)
      && 64 <= SendWqe(sges, inline) <= RING_MAX && SendWqe(sges, inline) % 64 == 0
  {
    QuotientBound(0x7fff_ffff, d, sqWr);
    MulGrows(d, sqWr);
    var checked := AtLeast(SendBytes(sges), InlineBytes(inline));
    AlignUp32Exact(checked, WQEBB);
    LeastMultipleWithin(checked, WQEBB, RING_MAX);
  }

  /** A request is a whole number of 64-byte units, below 2^31 bytes and at least what was checked. */
  lemma SendWqeIs(sqWr: u32, sges: u32, inline: u32, dev: Limits)
    requires sqWr > 0 && SendPlan(sqWr, sges, inline, dev).Planned?
    ensures var checked := AtLeast(SendBytes(sges), InlineBytes(inline));
      && checked <= dev.maxSqDesc <= 0x7fff_ffff && sqWr * dev.maxSqDesc <= 0x7fff_ffff
      && SendWqe(sges, inline) == LeastMultiple(checked, WQEBB)
      && 64 <= SendWqe(sges, inline) <= RING_MAX && SendWqe(sges, inline) % 64 == 0
  {
    PlannedIsGuarded(sqWr, sges, inline, dev);
    GuardedSize(sqWr, sges, inline, dev.maxSqDesc);
  }

  /** The bytes of one request in unbounded arithmetic: the larger of its two forms, in whole units. */
  function RequestBytes(sges: nat, inline: nat): nat {
    var plain, inlined := 32 + 16 * sges, if inline == 0 then 0 else 32 + LeastMultiple(4 + inline, 16);
    LeastMultiple(if plain >= inlined then plain else inlined, WQEBB)
  }

  lemma LargerForm(sges: u32, inline: u32)
    requires InRange(sges, inline)
    ensures LeastMultiple(AtLeast(SendBytes(sges), InlineBytes(inline)), WQEBB) == RequestBytes(sges, inline)
  {
    SegmentsFit(sges);
    if inline > 0 { InlineFits(inline); }
  }

  /** In range, that is the size the code computes. */
  lemma SendWqeInRange(sqWr: u32, sges: u32, inline: u32, dev: Limits)
    requires sqWr > 0 && SendPlan(sqWr, sges, inline, dev).Planned? && InRange(sges, inline)
    ensures SendWqe(sges, inline) == RequestBytes(sges, inline)
  {
    SendWqeIs(sqWr, sges, inline, dev);
    LargerForm(sges, inline);
  }

  lemma EntryHasRoom(sges: u32, inline: u32, checked: nat, wqe: u32)
    requires InRange(sges, inline) && checked == AtLeast(SendBytes(sges), InlineBytes(inline)) && checked <= wqe
    ensures wqe >= 32 + 16 * sges && (inline > 0 ==> U32(wqe - 36) >= inline)
  {
    SegmentsFit(sges);
    if inline > 0 { InlineFits(inline); }
  }

  lemma EntryHasNoRoom(sges: u32, inline: u32, wqe: u32)
    requires !InRange(sges, inline) && 64 <= wqe <= RING_MAX
    ensures wqe < 32 + 16 * sges || (inline > 0 && U32(wqe - 36) < inline)
  {}

  lemma EntryRoom(sges: u32, inline: u32, wqe: u32)
    requires AtLeast(SendBytes(sges), InlineBytes(inline)) <= wqe && 64 <= wqe <= RING_MAX
    ensures wqe >= 32 + 16 * sges && (inline > 0 ==> U32(wqe - 36) >= inline) <==> InRange(sges, inline)
  {
    if InRange(sges, inline) {
      EntryHasRoom(sges, inline, AtLeast(SendBytes(sges), InlineBytes(inline)), wqe);
    } else {
      EntryHasNoRoom(sges, inline, wqe);
    }
  }

  /** A request has room for its segments and its inline data. */
  predicate HasRoom(p: SendQueue, sges: u32, inline: u32) {
    p.wqeSize >= 32 + 16 * sges && (inline > 0 ==> p.maxInline >= inline)
  }

  lemma RoomOf(p: SendQueue, sges: u32, inline: u32)
    requires p.wqeSize == SendWqe(sges, inline) && p.maxInline == if inline == 0 then 0 else U32(p.wqeSize - 36)
    requires AtLeast(SendBytes(sges), InlineBytes(inline)) <= p.wqeSize && 64 <= p.wqeSize <= RING_MAX
    ensures HasRoom(p, sges, inline) <==> InRange(sges, inline)
    ensures U32(p.wqeSize - 36) == p.wqeSize - 36
  {
    CastFits32(p.wqeSize - 36);
    EntryRoom(sges, inline, p.wqeSize);
  }

  /** What a plan says of one request. */
  lemma PlannedEntry(sqWr: u32, sges: u32, inline: u32, dev: Limits)
    requires sqWr > 0 && SendPlan(sqWr, sges, inline, dev).Planned?
    ensures var p := SendPlan(sqWr, sges, inline, dev).value;
      p.wqeSize == SendWqe(sges, inline) && p.maxInline == if inline == 0 then 0 else U32(p.wqeSize - 36)
  {}

  lemma WqeBounds(sqWr: u32, sges: u32, inline: u32, dev: Limits)
    requires sqWr > 0 && SendPlan(sqWr, sges, inline, dev).Planned?
    ensures AtLeast(SendBytes(sges), InlineBytes(inline)) <= SendWqe(sges, inline)
    ensures 64 <= SendWqe(sges, inline) <= RING_MAX && SendWqe(sges, inline) % 64 == 0
  {
    SendWqeIs(sqWr, sges, inline, dev);
  }

  /** It does exactly when neither size wrapped. */
  lemma SendEntry(sqWr: u32, sges: u32, inline: u32, dev: Limits)
    requires sqWr > 0 && SendPlan(sqWr, sges, inline, dev).Planned?
    ensures var p := SendPlan(sqWr, sges, inline, dev).value;
      && p.wqeSize % 64 == 0 && (HasRoom(p, sges, inline) <==> InRange(sges, inline))
      && p.maxInline == if inline == 0 then 0 else p.wqeSize - 36
  {
    PlannedEntry(sqWr, sges, inline, dev);
    WqeBounds(sqWr, sges, inline, dev);
    RoomOf(SendPlan(sqWr, sges, inline, dev).value, sges, inline);
  }

  /**
   The queue holds the requests asked for exactly when they fill at most 2^31 bytes; then it has
   a power of two of 64-byte units and its log is exact.
   */
  lemma SendHolds(sqWr: u32, sges: u32, inline: u32, dev: Limits)
    requires sqWr > 0 && SendPlan(sqWr, sges, inline, dev).Planned?
    ensures var p := SendPlan(sqWr, sges, inline, dev).value;
      && (p.size >= sqWr <==> sqWr * SendWqe(sges, inline) <= RING_MAX)
      && (p.size >= sqWr ==> IsPow2(p.wqebbs) && Pow2(p.logWqebbs) == p.wqebbs)
  {
    SendWqeIs(sqWr, sges, inline, dev);
    var wqe := SendWqe(sges, inline);
    RingHolds(sqWr, wqe);
    assert sqWr * wqe == wqe * sqWr;
    MulGrows(wqe, sqWr);
    RoundedHolds(wqe * sqWr);
    if wqe * sqWr <= RING_MAX {
      WholeUnits(wqe * sqWr);
    }
  }

  /**
   So the queue serves the request, as many as asked for and each with the room asked for, exactly when
   neither size wraps and the requests fill at most 2^31 bytes.
   */
  lemma SendServes(sqWr: u32, sges: u32, inline: u32, dev: Limits)
    requires sqWr > 0 && SendPlan(sqWr, sges, inline, dev).Planned?
    ensures var p := SendPlan(sqWr, sges, inline, dev).value;
      p.size >= sqWr && HasRoom(p, sges, inline)
      <==> InRange(sges, inline) && sqWr * RequestBytes(sges, inline) <= RING_MAX
  {
    SendEntry(sqWr, sges, inline, dev);
    SendHolds(sqWr, sges, inline, dev);
    if InRange(sges, inline) { SendWqeInRange(sqWr, sges, inline, dev); }
  }

  lemma NoUnits(n: u32)
    requires 0 < n <= 0x7fff_ffff / 48 && 64 * n > RING_MAX
    ensures SendPlan(n, 1, 0, Limits(1, 1, 48, 0)) == Planned(SendQueue(1, 64, 0, 0, 0, 0))
  {
    UnitRequest();
    RoundsToNothing(64 * n);
  }

  lemma RoundsToNothing(p: nat)
    requires RING_MAX < p < TWO_32
    ensures Rounded32(p) == 0
  {
    CastFits32(p);
    Rounded32Of(p);
  }

  /** With a descriptor limit of 48 bytes the guard lets a request through that gets no queue at all. */
  lemma SendFallsShort()
    ensures SendPlan(44_739_242, 1, 0, Limits(1, 1, 48, 0)) == Planned(SendQueue(1, 64, 0, 0, 0, 0))
  {
    NoUnits(44_739_242);
  }

  lemma UnitRequest()
    ensures SendWqe(1, 0) == 64 && SendBytes(1) == 48 && InlineBytes(0) == 0
  {
    assert SendBytes(1) == 48 && InlineBytes(0) == 0;
    assert AlignUp64(48, 64) == 64;
  }

  lemma NoSegments(sges: u32)
    ensures SendBytes(sges) == 0 <==> sges % 0x1000_0000 == 0xfff_fffe
  {
    var q, t := (sges + 2) / 0x1000_0000, (sges + 2) % 0x1000_0000;
    assert 32 + sges * DATA_SEG == TWO_32 * q + 16 * t;
    ModUnique(32 + sges * DATA_SEG, TWO_32, q, 16 * t);
  }

  lemma InlineWraps(x: u32, k: nat)
    requires x <= 16 * k < x + 16
    ensures U32(32 + U32(16 * k)) == 0 <==> 0xffff_ffd0 < x <= 0xffff_ffe0
  {
    if k < 0x1000_0000 { CastFits32(16 * k); }
  }

  lemma NoInline(inline: u32)
    ensures InlineBytes(inline) == 0 <==> inline == 0 || 0xffff_ffcd <= inline <= 0xffff_ffdc
  {
    if inline > 0 {
      AlignedBy16(U32(4 + inline));
    }
  }

  lemma AlignedBy16(x: u32)
    ensures U32(32 + U32(AlignUp64(x, 16))) == 0 <==> 0xffff_ffd0 < x <= 0xffff_ffe0
  {
    var m := LeastMultiple(x, 16);
    AlignUpExact(x, 16);
    CastFits64(m);
    assert m == 16 * (m / 16);
    InlineWraps(x, m / 16);
  }

  /** The send side divides by zero exactly when the device states no limit, or when an accepted request's size wraps to 0. */
  lemma SendDivides(sqWr: u32, sges: u32, inline: u32, dev: Limits)
    ensures SendPlan(sqWr, sges, inline, dev) == DividesByZero <==>
      && sqWr > 0
      && (|| dev.maxSqDesc == 0
          || (&& sqWr <= 0x7fff_ffff / dev.maxSqDesc
              && sges % 0x1000_0000 == 0xfff_fffe
              && (inline == 0 || 0xffff_ffcd <= inline <= 0xffff_ffdc)))
  {
    NoSegments(sges);
    NoInline(inline);
    if sqWr > 0 && dev.maxSqDesc > 0 && sqWr <= 0x7fff_ffff / dev.maxSqDesc {
      LimitBelow(sqWr, dev.maxSqDesc);
      var checked := AtLeast(SendBytes(sges), InlineBytes(inline));
      if checked <= dev.maxSqDesc { NothingToAlign(checked); }
      NoRing(sqWr);
    }
  }

  lemma LimitBelow(sqWr: u32, d: u32)
    requires sqWr > 0 && d > 0 && sqWr <= 0x7fff_ffff / d
    ensures d <= 0x7fff_ffff
  {
    QuotientBound(0x7fff_ffff, d, sqWr);
    MulGrows(d, sqWr);
  }

  lemma NothingToAlign(x: u32)
    requires x <= 0x7fff_ffff
    ensures AlignUp32(x, WQEBB) == 0 <==> x == 0
  {
    AlignUp32Exact(x, WQEBB);
    assert x <= LeastMultiple(x, WQEBB) < x + WQEBB;
    AlignedAlready(0, WQEBB);
  }

  lemma NoRing(count: u32)
    ensures Rounded32(0 * count) == 0
  {
    assert 0 * count == 0;
    Rounded32Of(0);
  }

  /** One request of 2^28 - 2 segments. */
  lemma SendDividesAt()
    ensures SendPlan(1, 0xfff_fffe, 0, Limits(1, 1, 64, 1)) == DividesByZero
  {
    SendDivides(1, 0xfff_fffe, 0, Limits(1, 1, 64, 1));
  }

  lemma WholeUnits(p: nat)
    requires 64 <= p <= RING_MAX
    ensures IsPow2(LeastPow2(p) / WQEBB) && LeastPow2(p) / WQEBB * WQEBB == LeastPow2(p)
    ensures Pow2(Log2(LeastPow2(p) / WQEBB)) == LeastPow2(p) / WQEBB
  {
    LeastPow2IsLeast(p);
    Pow2Values();
    assert IsPow2(Pow2(W6));
    Pow2Divides(Pow2(W6), LeastPow2(p));
    Log2Inverts(LeastPow2(p) / WQEBB);
  }

  /** The limits a send request is held against, in unbounded arithmetic. */
  predicate WithinSendLimits(sqWr: u32, sges: u32, inline: u32, dev: Limits) {
    && sges > 0 && sqWr * dev.maxSqDesc <= 0x7fff_ffff
    && 32 + 16 * sges <= dev.maxSqDesc && (inline > 0 ==> 32 + LeastMultiple(4 + inline, 16) <= dev.maxSqDesc)
  }

  lemma GuardsAreLimits(sqWr: u32, sges: u32, inline: u32, dev: Limits)
    requires sqWr > 0 && InRange(sges, inline)
    ensures && dev.maxSqDesc > 0 && sqWr <= 0x7fff_ffff / dev.maxSqDesc && sges > 0
            && SendBytes(sges) <= dev.maxSqDesc && InlineBytes(inline) <= dev.maxSqDesc
            <==> WithinSendLimits(sqWr, sges, inline, dev)
  {
    SegmentsFit(sges);
    if inline > 0 { InlineFits(inline); }
    if dev.maxSqDesc > 0 {
      QuotientBound(0x7fff_ffff, dev.maxSqDesc, sqWr);
      assert sqWr * dev.maxSqDesc == dev.maxSqDesc * sqWr;
    }
  }

  /** The request size of whatever passes the guards. */
  lemma GuardedWqe(sqWr: u32, sges: u32, inline: u32, d: u32)
    requires sqWr > 0 && InRange(sges, inline) && d > 0 && sqWr <= 0x7fff_ffff / d
    requires SendBytes(sges) <= d && InlineBytes(inline) <= d
    ensures SendWqe(sges, inline) == RequestBytes(sges, inline) && 64 <= SendWqe(sges, inline) <= RING_MAX
  {
    LimitBelow(sqWr, d);
    var checked := AtLeast(SendBytes(sges), InlineBytes(inline));
    SegmentsFit(sges);
    AlignUp32Exact(checked, WQEBB);
    LeastMultipleWithin(checked, WQEBB, RING_MAX);
    LargerForm(sges, inline);
  }

  lemma UnitsWithin(sqWr: u32, wqe: u32)
    requires sqWr > 0 && 64 <= wqe && sqWr * wqe <= RING_MAX
    ensures Quotient(Rounded32(wqe * sqWr), WQEBB) == LeastPow2(sqWr * wqe) / 64
  {
    assert sqWr * wqe == wqe * sqWr;
    MulGrows(wqe, sqWr);
    RoundedHolds(wqe * sqWr);
  }

  lemma GuardedPlan(sqWr: u32, sges: u32, inline: u32, dev: Limits)
    requires sqWr > 0 && dev.maxSqDesc > 0 && sqWr <= 0x7fff_ffff / dev.maxSqDesc && sges > 0
    requires SendBytes(sges) <= dev.maxSqDesc && InlineBytes(inline) <= dev.maxSqDesc && SendWqe(sges, inline) > 0
    ensures SendPlan(sqWr, sges, inline, dev).Planned? <==>
            Quotient(Rounded32(SendWqe(sges, inline) * sqWr), WQEBB) <= dev.maxSendWqebb
  {}

  /**
   A send request is accepted and served in full exactly when neither size wraps, it is within the device's
   limits on descriptors and on 64-byte units, and it fills at most 2^31 bytes.
   */
  lemma SendServedExactly(sqWr: u32, sges: u32, inline: u32, dev: Limits)
    requires sqWr > 0
    ensures var plan, total := SendPlan(sqWr, sges, inline, dev), sqWr * RequestBytes(sges, inline);
      plan.Planned? && plan.value.size >= sqWr && HasRoom(plan.value, sges, inline)
      <==> && InRange(sges, inline) && WithinSendLimits(sqWr, sges, inline, dev)
           && total <= RING_MAX && LeastPow2(total) / 64 <= dev.maxSendWqebb
  {
    var plan := SendPlan(sqWr, sges, inline, dev);
    if plan.Planned? {
      SendServes(sqWr, sges, inline, dev);
      PlannedIsGuarded(sqWr, sges, inline, dev);
    }
    if InRange(sges, inline) {
      GuardsAreLimits(sqWr, sges, inline, dev);
      if WithinSendLimits(sqWr, sges, inline, dev) && sqWr * RequestBytes(sges, inline) <= RING_MAX {
        GuardedWqe(sqWr, sges, inline, dev.maxSqDesc);
        GuardedPlan(sqWr, sges, inline, dev);
        UnitsWithin(sqWr, SendWqe(sges, inline));
      }
    }
  }

  /** When the device's descriptor limit is a whole number of units, the guard on `sq_wr` is enough. */
  lemma GuardIsEnough(sqWr: u32, sges: u32, inline: u32, dev: Limits)
    requires sqWr > 0 && SendPlan(sqWr, sges, inline, dev).Planned?
    requires dev.maxSqDesc % WQEBB == 0
    ensures var p := SendPlan(sqWr, sges, inline, dev).value;
      && sqWr * p.wqeSize <= 0x7fff_ffff
      && p.size >= sqWr && IsPow2(p.wqebbs) && Pow2(p.logWqebbs) == p.wqebbs
  {
    SendWqeIs(sqWr, sges, inline, dev);
    var wqe, d := SendWqe(sges, inline), dev.maxSqDesc;
    LeastMultipleWithin(AtLeast(SendBytes(sges), InlineBytes(inline)), WQEBB, d);
    MulMonotone(sqWr, wqe, d);
    SendHolds(sqWr, sges, inline, dev);
  }

  lemma MulMonotone(k: nat, x: nat, y: nat)
    requires x <= y
    ensures k * x <= k * y
  {
    assert k * (y - x) >= 0;
  }

  // ---------- the buffer ----------

  ghost predicate RingSize(b: int) {
    b == 0 || (64 <= b <= RING_MAX && IsPow2(b))
  }

  lemma WholeEntries(p: nat, wqe: u32)
    requires wqe > 0 && IsPow2(wqe)
    ensures RingSize(Quotient(AtLeast(Rounded32(p), WQEBB), wqe) * wqe)
  {
    var bytes := AtLeast(Rounded32(p), WQEBB);
    RoundedRing(p);
    if wqe <= bytes {
      Pow2Divides(wqe, bytes);
    } else {
      ModUnique(bytes, wqe, 0, bytes);
    }
  }

  lemma ShiftByLog(x: nat, k: nat, m: nat)
    requires Pow2(k) == m
    ensures Shl(x, k) == x * m
  {
    ShlIsMul(x, k);
  }

  lemma PlannedBytes(count: u32, p: Receive)
    requires p.wqeSize > 0 && IsPow2(p.wqeSize) && Pow2(p.logWqe) == p.wqeSize
    requires p.size == Quotient(AtLeast(Rounded32(count * p.wqeSize), WQEBB), p.wqeSize)
    ensures RingSize(p.size * p.wqeSize) && Shl(p.size, p.logWqe) == p.size * p.wqeSize
  {
    ShiftByLog(p.size, p.logWqe, p.wqeSize);
    WholeEntries(count * p.wqeSize, p.wqeSize);
  }

  lemma ReceiveBytes(rqWr: u32, sges: u32, srq: bool, dev: Limits)
    requires ReceivePlan(rqWr, sges, srq, dev).Planned?
    ensures var p := ReceivePlan(rqWr, sges, srq, dev).value;
      RingSize(p.size * p.wqeSize) && Shl(p.size, p.logWqe) == p.size * p.wqeSize
  {
    if rqWr > 0 && !srq {
      ReceiveEntry(rqWr, sges, dev);
      PlannedBytes(rqWr, ReceivePlan(rqWr, sges, srq, dev).value);
    }
  }

  lemma RoundedRing(p: nat)
    ensures Rounded32(p) == 0 || IsPow2(Rounded32(p))
    ensures Rounded32(p) <= RING_MAX
    ensures IsPow2(AtLeast(Rounded32(p), WQEBB)) && AtLeast(Rounded32(p), WQEBB) <= RING_MAX
  {
    Pow2Values();
    assert IsPow2(Pow2(W6));
    Rounded32Of(U32(p));
    LeastPow2IsLeast(U32(p));
  }

  lemma UnitsOf(bytes: u32)
    requires bytes <= RING_MAX && (bytes == 0 || IsPow2(bytes))
    ensures RingSize(Quotient(bytes, WQEBB) * WQEBB)
  {
    if bytes >= 64 {
      Pow2Values();
      assert IsPow2(Pow2(W6));
      Pow2Divides(Pow2(W6), bytes);
    }
  }

  lemma SendUnits(sqWr: u32, sges: u32, inline: u32, dev: Limits)
    requires SendPlan(sqWr, sges, inline, dev).Planned?
    ensures RingSize(SendPlan(sqWr, sges, inline, dev).value.wqebbs * WQEBB)
  {
    if sqWr > 0 {
      RoundedRing(SendWqe(sges, inline) * sqWr);
      UnitsOf(Rounded32(SendWqe(sges, inline) * sqWr));
    }
  }

  lemma TwoRings(r: nat, s: nat)
    requires RingSize(r) && RingSize(s)
    ensures r % 64 == 0 && s % 64 == 0
    ensures r + s < TWO_32 ==> r + s <= 0xc000_0000
    ensures r + s >= TWO_32 ==> r == RING_MAX && s == RING_MAX
  {
    Pow2Values();
    RingIs(r);
    RingIs(s);
  }

  lemma RingIs(r: nat)
    requires RingSize(r)
    ensures r % 64 == 0
    ensures r < RING_MAX ==> r <= 0x4000_0000
  {
    Pow2Values();
    assert Pow2(W31) == 2 * Pow2(W31 - 1);
    if r > 0 {
      Pow2MultipleOf(r, W6);
      Pow2Gap(r, W31);
    }
  }

  lemma MultiplesAdd(r: nat, s: nat)
    requires r % 64 == 0 && s % 64 == 0
    ensures (r + s) % 64 == 0
  {}

  lemma AlignedAlready(v: u32, a: u32)
    requires a > 0 && v % a == 0
    ensures AlignUp32(v, a) == v
  {}

  lemma TotalIs(doorbell: u32)
    requires doorbell <= 0xc000_0000
    ensures var total := AlignUp32(U32(doorbell + DOORBELL), PAGE);
      doorbell + DOORBELL <= total < doorbell + DOORBELL + PAGE && total % 4096 == 0
  {
    var v := doorbell + DOORBELL;
    CastFits32(v);
    AlignUp32Exact(v, PAGE);
    assert v <= LeastMultiple(v, PAGE) < v + PAGE && LeastMultiple(v, PAGE) % PAGE == 0;
  }

  /** Where the pieces lie, given the two ring sizes. */
  lemma Pieces(r: nat, s: nat, doorbell: u32, total: u32)
    requires RingSize(r) && RingSize(s)
    requires doorbell == AlignUp32(U32(r + s), CACHELINE) && total == AlignUp32(U32(doorbell + DOORBELL), PAGE)
    ensures r + s < TWO_32 ==> doorbell == r + s && doorbell + DOORBELL <= total < doorbell + DOORBELL + PAGE
    ensures r + s >= TWO_32 ==> doorbell == 0
  {
    TwoRings(r, s);
    if r + s < TWO_32 {
      CastFits32(r + s);
      MultiplesAdd(r, s);
      AlignedAlready(r + s, CACHELINE);
      TotalIs(r + s);
    } else {
      AlignedAlready(0, CACHELINE);
    }
  }

  lemma PlansApart(rqWr: u32, rqSges: u32, srq: bool, sqWr: u32, sqSges: u32, inline: u32, dev: Limits)
    requires ReceivePlan(rqWr, rqSges, srq, dev).Planned? && SendPlan(sqWr, sqSges, inline, dev).Planned?
    ensures
      var rq, sq := ReceivePlan(rqWr, rqSges, srq, dev).value, SendPlan(sqWr, sqSges, inline, dev).value;
      var l, r, s := LayoutOf(rq, sq), rq.size * rq.wqeSize, sq.wqebbs * WQEBB;
      && l.sqStart == r && r % 64 == 0
      && (l.sqStart + s <= l.doorbell && l.doorbell + DOORBELL <= l.total <==> r + s < TWO_32)
      && (r + s < TWO_32 <==> !(r == RING_MAX && s == RING_MAX))
      && (r + s >= TWO_32 ==> l.doorbell == 0)
  {
    var rq, sq := ReceivePlan(rqWr, rqSges, srq, dev).value, SendPlan(sqWr, sqSges, inline, dev).value;
    var l, r, s := LayoutOf(rq, sq), rq.size * rq.wqeSize, sq.wqebbs * WQEBB;
    ReceiveBytes(rqWr, rqSges, srq, dev);
    SendUnits(sqWr, sqSges, inline, dev);
    TwoRings(r, s);
    CastFits32(r);
    CastFits32(s);
    Pieces(r, s, l.doorbell, l.total);
  }

  /** The bytes asked for, cut to 32 bits, round up to the largest ring. */
  predicate Largest(bytes: int) {
    0x4000_0000 < bytes % TWO_32 <= RING_MAX
  }

  lemma LargestExactly(bytes: nat)
    ensures Rounded32(bytes) == RING_MAX <==> Largest(bytes)
  {
    var q := U32(bytes);
    Rounded32Of(q);
    if 1 <= q <= RING_MAX {
      Pow2Values();
      assert Pow2(W31) == 2 * Pow2(W31 - 1);
      LeastPow2IsLeast(q);
      LeastPow2Bound(q, W31 - 1);
      Pow2Gap(LeastPow2(q), W31);
    }
  }

  lemma LargestEntries(bytes: u32, wqe: u32)
    requires wqe > 0 && IsPow2(wqe) && wqe <= RING_MAX && bytes <= RING_MAX
    ensures Quotient(bytes, wqe) * wqe == RING_MAX <==> bytes == RING_MAX
  {
    assert bytes == wqe * (bytes / wqe) + bytes % wqe;
    if bytes == RING_MAX {
      Pow2Values();
      assert IsPow2(Pow2(W31));
      Pow2Divides(wqe, Pow2(W31));
    }
  }

  lemma ReceiveIsLargest(rqWr: u32, sges: u32, srq: bool, dev: Limits)
    requires ReceivePlan(rqWr, sges, srq, dev).Planned?
    ensures var p := ReceivePlan(rqWr, sges, srq, dev).value;
      p.size * p.wqeSize == RING_MAX <==> rqWr > 0 && !srq && Largest(rqWr * (16 * LeastPow2(sges)))
  {
    if rqWr > 0 && !srq {
      ReceiveEntry(rqWr, sges, dev);
      RingIsLargest(rqWr, ReceivePlan(rqWr, sges, srq, dev).value.wqeSize);
    }
  }

  lemma RingIsLargest(count: u32, wqe: u32)
    requires wqe > 0 && IsPow2(wqe) && wqe <= RING_MAX
    ensures Quotient(AtLeast(Rounded32(count * wqe), WQEBB), wqe) * wqe == RING_MAX <==> Largest(count * wqe)
  {
    RoundedRing(count * wqe);
    LargestExactly(count * wqe);
    LargestEntries(AtLeast(Rounded32(count * wqe), WQEBB), wqe);
  }

  lemma SendIsLargest(sqWr: u32, sges: u32, inline: u32, dev: Limits)
    requires SendPlan(sqWr, sges, inline, dev).Planned?
    ensures SendPlan(sqWr, sges, inline, dev).value.wqebbs * WQEBB == RING_MAX <==>
            sqWr > 0 && Largest(sqWr * SendWqe(sges, inline))
  {
    if sqWr > 0 { UnitsAreLargest(SendWqe(sges, inline), sqWr); }
  }

  lemma UnitsAreLargest(wqe: u32, count: u32)
    ensures Quotient(Rounded32(wqe * count), WQEBB) * WQEBB == RING_MAX <==> Largest(count * wqe)
  {
    var p: nat := wqe * count;
    assert count * wqe == p;
    LargestExactly(p);
    RoundedRing(p);
    LargestUnits(Rounded32(p));
  }

  lemma LargestUnits(bytes: u32)
    requires bytes <= RING_MAX
    ensures Quotient(bytes, WQEBB) * WQEBB == RING_MAX <==> bytes == RING_MAX
  {}

  /**
   The receive queue, the send queue and the doorbell record follow one another inside the buffer, the
   send queue on a 64-byte boundary, exactly when not both queues are asked for bytes that round to 2^31.
   */
  lemma PiecesAreApart(rqWr: u32, rqSges: u32, srq: bool, sqWr: u32, sqSges: u32, inline: u32, dev: Limits)
    requires ReceivePlan(rqWr, rqSges, srq, dev).Planned? && SendPlan(sqWr, sqSges, inline, dev).Planned?
    ensures
      var rq, sq := ReceivePlan(rqWr, rqSges, srq, dev).value, SendPlan(sqWr, sqSges, inline, dev).value;
      var l := LayoutOf(rq, sq);
      && l.sqStart == rq.size * rq.wqeSize && l.sqStart % 64 == 0
      && (l.sqStart + sq.wqebbs * WQEBB <= l.doorbell && l.doorbell + DOORBELL <= l.total <==>
          !(&& rqWr > 0 && !srq && Largest(rqWr * (16 * LeastPow2(rqSges)))
            && sqWr > 0 && Largest(sqWr * SendWqe(sqSges, inline))))
  {
    PlansApart(rqWr, rqSges, srq, sqWr, sqSges, inline, dev);
    ReceiveIsLargest(rqWr, rqSges, srq, dev);
    SendIsLargest(sqWr, sqSges, inline, dev);
  }

  /** The buffer is always a whole number of pages. */
  lemma WholePages(rq: Receive, sq: SendQueue)
    ensures LayoutOf(rq, sq).total % 4096 == 0
  {
    AlignedToPage(U32(LayoutOf(rq, sq).doorbell + DOORBELL));
  }

  lemma AlignedToPage(v: u32)
    ensures AlignUp32(v, PAGE) % 4096 == 0
  {
    AlignUp32Exact(v, PAGE);
    var m := LeastMultiple(v, PAGE);
    assert m % PAGE == 0 && m < v + PAGE;
    if m < TWO_32 { CastFits32(m); } else { ModUnique(m, TWO_32, 1, m - TWO_32); }
  }

  const LARGE: Limits := Limits(0x800_0000, 0xffff_ffff, 64, 0x200_0000)

  lemma SegmentAccepted(rqWr: u32)
    requires 0 < rqWr <= 0x800_0000
    ensures ReceivePlan(rqWr, 1, false, LARGE).Planned?
  {
    SgesRounded(1);
    SmallestLeast();
  }

  lemma OneSegmentPlanned(rqWr: u32)
    requires 0 < rqWr <= 0x800_0000
    ensures ReceivePlan(rqWr, 1, false, LARGE).Planned?
    ensures var p := ReceivePlan(rqWr, 1, false, LARGE).value;
      p.size * p.wqeSize == RING_MAX <==> Largest(16 * rqWr)
  {
    SegmentAccepted(rqWr);
    SmallestLeast();
    assert rqWr * (16 * LeastPow2(1)) == 16 * rqWr;
    ReceiveIsLargest(rqWr, 1, false, LARGE);
  }

  lemma UnitsAccepted(sqWr: u32)
    requires 0 < sqWr <= 0x1ff_ffff
    ensures SendPlan(sqWr, 1, 0, LARGE).Planned?
  {
    UnitRequest();
    RoundedRing(64 * sqWr);
    LimitOfUnits(Rounded32(64 * sqWr));
  }

  lemma OneUnitPlanned(sqWr: u32)
    requires 0 < sqWr <= 0x1ff_ffff
    ensures SendPlan(sqWr, 1, 0, LARGE).Planned?
    ensures SendPlan(sqWr, 1, 0, LARGE).value.wqebbs * WQEBB == RING_MAX <==> Largest(64 * sqWr)
  {
    UnitsAccepted(sqWr);
    UnitRequest();
    SendIsLargest(sqWr, 1, 0, LARGE);
  }

  lemma LimitOfUnits(bytes: u32)
    requires bytes <= RING_MAX
    ensures Quotient(bytes, WQEBB) <= 0x200_0000
  {}

  /** Both queues at 2^31 bytes are accepted, and the doorbell record lies at offset 0, on the receive queue. */
  lemma PiecesOverlap()
    ensures ReceivePlan(0x800_0000, 1, false, LARGE).Planned? && SendPlan(0x1ff_ffff, 1, 0, LARGE).Planned?
    ensures LayoutOf(ReceivePlan(0x800_0000, 1, false, LARGE).value, SendPlan(0x1ff_ffff, 1, 0, LARGE).value).doorbell == 0
  {
    OverlapAt(0x800_0000, 0x1ff_ffff);
  }

  lemma OverlapAt(rqWr: u32, sqWr: u32)
    requires 0 < rqWr <= 0x800_0000 && 0 < sqWr <= 0x1ff_ffff
    requires Largest(16 * rqWr) && Largest(64 * sqWr)
    ensures ReceivePlan(rqWr, 1, false, LARGE).Planned? && SendPlan(sqWr, 1, 0, LARGE).Planned?
    ensures LayoutOf(ReceivePlan(rqWr, 1, false, LARGE).value, SendPlan(sqWr, 1, 0, LARGE).value).doorbell == 0
  {
    OneSegmentPlanned(rqWr);
    OneUnitPlanned(sqWr);
    PlansApart(rqWr, 1, false, sqWr, 1, 0, LARGE);
  }

  /** In the caller's memory the CPU and the device find the queues in the same place exactly when the queue offset is 0. */
  lemma ExternalViewsAgree(e: External, rq: Receive)
    ensures CpuView(e, rq) == DeviceView(e, rq) <==> e.wqOffset == 0
    ensures CpuView(e, rq).doorbell == DeviceView(e, rq).doorbell == (e.dbrBase + e.dbrOffset) % TWO_64
    ensures CpuView(e, rq).rq == (e.wqBase + e.wqOffset) % TWO_64 && DeviceView(e, rq).rq == e.wqBase
    // The send queue follows the receive queue's bytes.
    ensures Pow2(rq.logWqe) == rq.wqeSize ==>
      && CpuView(e, rq).sq == (CpuView(e, rq).rq + rq.size * rq.wqeSize) % TWO_64
      && DeviceView(e, rq).sq == (DeviceView(e, rq).rq + rq.size * rq.wqeSize) % TWO_64
  {
    ShlIsMul(rq.size, rq.logWqe);
    OffsetMoves(e.wqBase, e.wqOffset);
  }

  lemma OffsetMoves(base: u64, offset: u64)
    ensures U64(base + offset) == base <==> offset == 0
  {
    var sum := base + offset;
    if sum < TWO_64 { CastFits64(sum); } else { ModUnique(sum, TWO_64, 1, sum - TWO_64); }
  }

}
