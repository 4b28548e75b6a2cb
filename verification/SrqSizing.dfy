/** Sizing of a shared receive queue and the place of its doorbell record, in its own memory or the caller's. */
module SrqSizing {
  import opened Bits
  import opened PowerOfTwo
  import opened QpSizing

  datatype Kind = LinkedList | Contiguous

  const LINK_SEG: nat := 16
  const MIN_WQE: nat := 32

  /** `maxSges` and `size` are what the queue got, in segments and entries. */
  datatype Sizes = Sizes(maxSges: u32, wqeSize: u32, logWqe: nat, size: u32, logSize: nat)

  function LinkBytes(kind: Kind): nat { if kind.LinkedList? then LINK_SEG else 0 }

  /** The bytes of one entry before rounding. */
  function EntryBytes(kind: Kind, sges: u32): u32 {
    var data := U32(sges * DATA_SEG);
    if kind.LinkedList? then AtLeast(U32(data + LINK_SEG), MIN_WQE) else data
  }

  /** The segments that fit an entry; the subtraction is in 64 bits. */
  function SegmentsIn(kind: Kind, wqe: u32): u32 {
    U32(U64(wqe - LinkBytes(kind)) / DATA_SEG)
  }

  function SizesOf(kind: Kind, wr: u32, sges: u32, maxWr: u32, maxSge: u32): Plan<Sizes> {
    if wr == 0 || wr > maxWr || sges == 0 || sges > maxSge then Rejected
    else
      var wqe := U32(RoundedUp(EntryBytes(kind, sges)));
      if wqe == 0 then DividesByZero
      else
        var size := Quotient(RingBytes(wr, wqe), wqe);
        Planned(Sizes(SegmentsIn(kind, wqe), wqe, Log2(wqe), size, Log2(size)))
  }

  /** Where the doorbell record starts, from the start of the queue. */
  function DoorbellAt(s: Sizes): u32 {
    AlignUp32(U32(s.size * s.wqeSize), CACHELINE)
  }

  /** Registered memory: `base` is the address the device's offsets count from. */
  datatype Memory = Internal(buffer: u64) | External(base: u64, offset: u64)

  function Base(m: Memory): u64 { if m.Internal? then m.buffer else m.base }

  function Start(m: Memory): u64 { if m.Internal? then 0 else m.offset }

  /** Where the CPU finds the queue. */
  function QueueAddress(m: Memory): u64 {
    match m
    case Internal(buffer) => buffer
    case External(base, offset) => U64(base + offset)
  }

  /** What the device is told about the doorbell record. */
  function DbrOffset(m: Memory, at: u32): u64 {
    match m
    case Internal(buffer) => at
    case External(base, offset) => U64(offset + at)
  }

  lemma SegmentsFill(kind: Kind, wqe: u32)
    requires wqe % 16 == 0 && wqe >= 16 + LinkBytes(kind)
    ensures 16 * SegmentsIn(kind, wqe) + LinkBytes(kind) == wqe
  {
    var rest: nat := wqe - LinkBytes(kind);
    CastFits64(rest);
    assert rest == 16 * (rest / 16);
    CastFits32(rest / 16);
  }

  class Srq {
    var sizes: Sizes
    var srqBuf: u64
    var dbBuffer: u64
    var wqUmemOffset: u64
    var dbrUmemOffset: u64
    var totalUmemSize: u32

    constructor ()
    {
      sizes := Sizes(0, 0, 0, 0, 0);
    }

    method Size(kind: Kind, wr: u32, sges: u32, maxWr: u32, maxSge: u32) returns (o: Plan<()>)
      modifies this`sizes
      ensures match SizesOf(kind, wr, sges, maxWr, maxSge)
        case Rejected => o == Rejected
        case DividesByZero => o == DividesByZero
        case Planned(p) => o == Planned(()) && sizes == p
    {
      if wr == 0 || wr > maxWr || sges == 0 || sges > maxSge { return Rejected; }
      var wqe := EntrySize(kind, sges);
      var maxSges := Segments(kind, wqe);
      var bytes := RoundRing(wr, wqe);
      if wqe == 0 { return DividesByZero; }
      var size := Quotient(bytes, wqe);
      sizes := Sizes(maxSges, wqe, Log2(wqe), size, Log2(size));
      return Planned(());
    }

    static method EntrySize(kind: Kind, sges: u32) returns (wqe: u32)
      ensures wqe == U32(RoundedUp(EntryBytes(kind, sges)))
    {
      wqe := U32(sges * DATA_SEG);
      if kind.LinkedList? {
        wqe := U32(wqe + LINK_SEG);
        wqe := AtLeast(wqe, MIN_WQE);
      }
      var rounded := NextPowerOfTwo(wqe);
      wqe := U32(rounded);
    }

    static method Segments(kind: Kind, wqe: u32) returns (sges: u32)
      ensures sges == SegmentsIn(kind, wqe)
      // The segments and the link fill an entry that holds at least one of each.
      ensures wqe % 16 == 0 && wqe >= 16 + LinkBytes(kind) ==> 16 * sges + LinkBytes(kind) == wqe
    {
      if wqe % 16 == 0 && wqe >= 16 + LinkBytes(kind) { SegmentsFill(kind, wqe); }
      if kind.LinkedList? {
        sges := U32(U64(wqe - LINK_SEG) / DATA_SEG);
      } else {
        sges := U32(wqe / DATA_SEG);
      }
    }

    /** Pointers and offsets, once the queue is sized; `m` is what the allocator or the caller provides. */
    method Place(m: Memory)
      modifies this`srqBuf, this`dbBuffer, this`wqUmemOffset, this`dbrUmemOffset, this`totalUmemSize
      ensures srqBuf == QueueAddress(m) && dbBuffer == U64(QueueAddress(m) + DoorbellAt(sizes))
      ensures wqUmemOffset == Start(m) && dbrUmemOffset == DbrOffset(m, DoorbellAt(sizes))
      ensures m.Internal? ==> totalUmemSize == AlignUp32(U32(DoorbellAt(sizes) + DOORBELL), PAGE)
    {
      PlaceAt(m, DoorbellAt(sizes));
    }

    method PlaceAt(m: Memory, at: u32)
      modifies this`srqBuf, this`dbBuffer, this`wqUmemOffset, this`dbrUmemOffset, this`totalUmemSize
      ensures srqBuf == QueueAddress(m) && dbBuffer == U64(QueueAddress(m) + at)
      ensures wqUmemOffset == Start(m) && dbrUmemOffset == DbrOffset(m, at)
      ensures m.Internal? ==> totalUmemSize == AlignUp32(U32(at + DOORBELL), PAGE)
    {
      match m {
        case Internal(buffer) =>
          totalUmemSize := AlignUp32(U32(at + DOORBELL), PAGE);
          srqBuf := buffer;
          wqUmemOffset := 0;
          dbrUmemOffset := at;
        case External(base, offset) =>
          srqBuf := U64(base + offset);
          wqUmemOffset := offset;
          dbrUmemOffset := U64(offset + at);
      }
      dbBuffer := U64(srqBuf + at);
    }
  }

  // ---------- the entry ----------

  /** The segment counts whose entry, link segment included, is at most 2^31 bytes. */
  predicate InRange(kind: Kind, sges: u32) {
    sges <= if kind.LinkedList? then 0x7ff_ffff else 0x800_0000
  }

  lemma EntryInRange(kind: Kind, sges: u32)
    requires sges > 0 && InRange(kind, sges)
    ensures EntryBytes(kind, sges) == 16 * sges + LinkBytes(kind) && 16 <= EntryBytes(kind, sges) <= RING_MAX
  {}

  lemma EntryRounded(x: u32)
    ensures U32(RoundedUp(x)) == 0 || (x <= U32(RoundedUp(x)) <= RING_MAX && IsPow2(U32(RoundedUp(x))))
    ensures U32(RoundedUp(x)) == 0 <==> x == 0 || x > RING_MAX
    ensures 0 < x <= RING_MAX ==> U32(RoundedUp(x)) == LeastPow2(x)
  {
    Rounded32Of(x);
    LeastPow2IsLeast(x);
  }

  lemma SegmentsOf(kind: Kind, wqe: nat)
    requires 16 <= wqe <= RING_MAX && (kind.LinkedList? ==> wqe >= MIN_WQE)
    ensures SegmentsIn(kind, wqe) == (wqe - LinkBytes(kind)) / 16
  {}

  /** An entry is a power of two; it holds the segments and the link exactly when those fill at most 2^31 bytes. */
  lemma SrqEntry(kind: Kind, wr: u32, sges: u32, maxWr: u32, maxSge: u32)
    requires SizesOf(kind, wr, sges, maxWr, maxSge).Planned?
    ensures var p := SizesOf(kind, wr, sges, maxWr, maxSge).value;
      && IsPow2(p.wqeSize) && Pow2(p.logWqe) == p.wqeSize
      && 16 * p.maxSges + LinkBytes(kind) <= p.wqeSize
      && (p.maxSges >= sges <==> InRange(kind, sges))
  {
    var p := SizesOf(kind, wr, sges, maxWr, maxSge).value;
    EntryRounded(EntryBytes(kind, sges));
    Log2Inverts(p.wqeSize);
    EntryAtLeast(kind, sges);
    SegmentsOf(kind, p.wqeSize);
    if InRange(kind, sges) { EntryInRange(kind, sges); }
  }

  lemma EntryAtLeast(kind: Kind, sges: u32)
    ensures EntryBytes(kind, sges) == 0 || EntryBytes(kind, sges) >= 16
    ensures kind.LinkedList? ==> EntryBytes(kind, sges) >= MIN_WQE
  {}

  /** The segment counts whose 32-bit entry size is 0 or above 2^31: it repeats every 2^28. */
  predicate Unroundable(kind: Kind, sges: u32) {
    var m := sges % 0x1000_0000;
    if kind.LinkedList? then 0x800_0000 <= m < 0xfff_ffff else m == 0 || m > 0x800_0000
  }

  lemma EntryRepeats(kind: Kind, sges: u32)
    ensures EntryBytes(kind, sges) == 0 || EntryBytes(kind, sges) > RING_MAX <==> Unroundable(kind, sges)
  {
    var m := sges % 0x1000_0000;
    ModUnique(16 * sges, TWO_32, sges / 0x1000_0000, 16 * m);
    if kind.LinkedList? { assert 16 * m + 16 == TWO_32 * ((16 * m + 16) / TWO_32) + U32(16 * m + 16); }
  }

  /** Creation divides by zero exactly when an accepted segment count is in one of those ranges. */
  lemma SrqDivides(kind: Kind, wr: u32, sges: u32, maxWr: u32, maxSge: u32)
    ensures SizesOf(kind, wr, sges, maxWr, maxSge) == DividesByZero <==>
      0 < wr <= maxWr && 0 < sges <= maxSge && Unroundable(kind, sges)
  {
    EntryRepeats(kind, sges);
    EntryRounded(EntryBytes(kind, sges));
  }

  /** The least such counts of either kind, accepted by a device that takes as many. */
  lemma SrqDividesAt()
    ensures SizesOf(Contiguous, 1, 0x800_0001, 1, 0x800_0001) == DividesByZero
    ensures SizesOf(LinkedList, 1, 0x800_0000, 1, 0x800_0000) == DividesByZero
  {
    SrqDivides(Contiguous, 1, 0x800_0001, 1, 0x800_0001);
    SrqDivides(LinkedList, 1, 0x800_0000, 1, 0x800_0000);
  }

  // ---------- the queue and its doorbell ----------

  /** The queue holds the entries asked for exactly when they fill at most 2^31 bytes; then it is a power of two of them. */
  lemma SrqHolds(kind: Kind, wr: u32, sges: u32, maxWr: u32, maxSge: u32)
    requires SizesOf(kind, wr, sges, maxWr, maxSge).Planned?
    ensures var p := SizesOf(kind, wr, sges, maxWr, maxSge).value;
      && (p.size >= wr <==> wr * LeastPow2(EntryBytes(kind, sges)) <= RING_MAX)
      && (p.size >= wr ==> IsPow2(p.size) && Pow2(p.logSize) == p.size)
  {
    EntryRounded(EntryBytes(kind, sges));
    PlainEntriesHold(wr, SizesOf(kind, wr, sges, maxWr, maxSge).value.wqeSize);
  }

  /**
   So it serves the request, as many entries as asked for and each with the segments asked for, exactly
   when an entry fits 2^31 bytes and the entries, rounded up, fill at most 2^31 bytes.
   */
  lemma SrqServes(kind: Kind, wr: u32, sges: u32, maxWr: u32, maxSge: u32)
    requires SizesOf(kind, wr, sges, maxWr, maxSge).Planned?
    ensures var p := SizesOf(kind, wr, sges, maxWr, maxSge).value;
      p.size >= wr && p.maxSges >= sges
      <==> InRange(kind, sges) && wr * LeastPow2(16 * sges + LinkBytes(kind)) <= RING_MAX
  {
    SrqEntry(kind, wr, sges, maxWr, maxSge);
    SrqHolds(kind, wr, sges, maxWr, maxSge);
    if InRange(kind, sges) { EntryInRange(kind, sges); }
  }

  /** A request is accepted and served in full exactly when it is within the device's two limits and 2^31 bytes. */
  lemma SrqServedExactly(kind: Kind, wr: u32, sges: u32, maxWr: u32, maxSge: u32)
    ensures var plan := SizesOf(kind, wr, sges, maxWr, maxSge);
      plan.Planned? && plan.value.size >= wr && plan.value.maxSges >= sges
      <==> && 0 < wr <= maxWr && 0 < sges <= maxSge && InRange(kind, sges)
           && wr * LeastPow2(16 * sges + LinkBytes(kind)) <= RING_MAX
  {
    var plan := SizesOf(kind, wr, sges, maxWr, maxSge);
    if plan.Planned? {
      SrqServes(kind, wr, sges, maxWr, maxSge);
    } else if sges > 0 && InRange(kind, sges) {
      EntryInRange(kind, sges);
      EntryRounded(EntryBytes(kind, sges));
    }
  }

  /** One 16-byte entry more than 2^31 bytes hold is accepted, and the queue gets none. */
  lemma SrqFallsShort()
    ensures var plan := SizesOf(Contiguous, 0x800_0001, 1, 0x800_0001, 1);
      plan.Planned? && plan.value.size < 0x800_0001
  {
    assert EntryBytes(Contiguous, 1) == 16;
    EntryRounded(16);
    LeastOfSixteen();
    SrqHolds(Contiguous, 0x800_0001, 1, 0x800_0001, 1);
  }

  lemma LeastOfSixteen()
    ensures LeastPow2(16) == 16
  {
    Pow2Values();
    LeastPow2OfPow2(W4);
  }

  lemma PlainEntriesHold(count: u32, wqe: u32)
    requires count > 0 && wqe > 0 && IsPow2(wqe)
    ensures var size := Quotient(RingBytes(count, wqe), wqe);
      && (size >= count <==> count * wqe <= RING_MAX)
      && (size >= count ==> IsPow2(size) && Pow2(Log2(size)) == size)
  {
    var p := count * wqe;
    RoundedHolds(p);
    RingHolds(count, wqe);
    MulGrows(wqe, count);
    if p <= RING_MAX {
      LeastPow2IsLeast(p);
      Pow2Divides(wqe, Rounded32(p));
      Log2Inverts(Rounded32(p) / wqe);
    }
  }

  lemma QuotientTimes(x: u32, y: u32)
    requires y > 0
    ensures Quotient(x, y) * y <= x
  {
    assert x == y * (x / y) + x % y;
  }

  /** The doorbell record lies past the last entry, on its own cache line, inside the internal buffer of whole pages. */
  lemma DoorbellPastQueue(kind: Kind, wr: u32, sges: u32, maxWr: u32, maxSge: u32)
    requires SizesOf(kind, wr, sges, maxWr, maxSge).Planned?
    ensures var p := SizesOf(kind, wr, sges, maxWr, maxSge).value; var total := AlignUp32(U32(DoorbellAt(p) + DOORBELL), PAGE);
      && p.size * p.wqeSize <= DoorbellAt(p) < p.size * p.wqeSize + 64 && DoorbellAt(p) % 64 == 0
      && DoorbellAt(p) + 64 <= total && total % 4096 == 0
  {
    var p := SizesOf(kind, wr, sges, maxWr, maxSge).value;
    PlacedQueue(p, RingBytes(wr, p.wqeSize));
  }

  lemma PlacedQueue(p: Sizes, bytes: u32)
    requires p.wqeSize > 0 && bytes <= RING_MAX && p.size == Quotient(bytes, p.wqeSize)
    ensures p.size * p.wqeSize <= DoorbellAt(p) < p.size * p.wqeSize + 64 && DoorbellAt(p) % 64 == 0
    ensures DoorbellAt(p) + 64 <= AlignUp32(U32(DoorbellAt(p) + DOORBELL), PAGE)
    ensures AlignUp32(U32(DoorbellAt(p) + DOORBELL), PAGE) % 4096 == 0
  {
    QuotientTimes(bytes, p.wqeSize);
    PlacedAfter(p.size * p.wqeSize);
  }

  lemma PlacedAfter(used: nat)
    requires used <= RING_MAX
    ensures var at := AlignUp32(U32(used), CACHELINE);
      && used <= at < used + CACHELINE && at % CACHELINE == 0
      && at + DOORBELL <= AlignUp32(U32(at + DOORBELL), PAGE) && AlignUp32(U32(at + DOORBELL), PAGE) % 4096 == 0
  {
    AlignedLine(used);
    TotalIs(AlignUp32(U32(used), CACHELINE));
  }

  lemma AlignedLine(used: nat)
    requires used <= RING_MAX
    ensures used <= AlignUp32(U32(used), CACHELINE) < used + CACHELINE && AlignUp32(U32(used), CACHELINE) % CACHELINE == 0
  {
    CastFits32(used);
    AlignUp32Exact(used, CACHELINE);
    var at := LeastMultiple(used, CACHELINE);
    assert used <= at < used + CACHELINE && at % CACHELINE == 0;
    CastFits32(at);
  }

  /**
   The byte the CPU's doorbell pointer names is the byte the device's offset names, and both
   put the queue at the same address, in either kind of memory.
   */
  lemma SameDoorbell(m: Memory, at: u32)
    ensures U64(QueueAddress(m) + at) == U64(Base(m) + DbrOffset(m, at))
    ensures QueueAddress(m) == U64(Base(m) + Start(m))
  {
    if m.External? {
      WrapAdd(m.base + m.offset, at);
      WrapAdd(m.offset + at, m.base);
    }
  }

  lemma WrapAdd(x: nat, y: nat)
    ensures U64(U64(x) + y) == U64(x + y)
  {
    var q := x / TWO_64;
    var z := x % TWO_64 + y;
    assert x + y == TWO_64 * q + z;
    ModUnique(x + y, TWO_64, q + z / TWO_64, z % TWO_64);
  }

}
