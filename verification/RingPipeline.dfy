/**
 One requested depth, carried through the high-level queue-pair creation: the completion queue,
 the send queue, the two external buffers and the masks the device code indexes with.
 */
module RingPipeline {
  import opened Bits
  import opened PowerOfTwo
  import opened QpSizing

  const CQE: nat := 64
  const CQE_DBR_BYTES: nat := 8
  const TWO_16: nat := 0x1_0000

  /** The deepest ring whose entry count survives the 16-bit cast. */
  const DEEPEST: nat := 0x8000

  function U16(x: int): u16 { x % TWO_16 }

  // ---------- the completion queue ----------

  datatype CqShape = CqShape(entries: u32, logEntries: nat, ciDbr: u64, armDbr: u64)

  /** `doca_verbs_cq_open::create`: the entry count and the two doorbell words, from the start of the buffer. */
  function CqOf(size: u32, maxCqe: u32): Plan<CqShape> {
    if !IsPowerOfTwo(size) || size > maxCqe then Rejected
    else
      var dbr := AlignUp32(U32(size * CQE), CACHELINE);
      Planned(CqShape(size, Log2(size), dbr, dbr + 4))
  }

  class Cq {
    var shape: CqShape
    var cqBuf: u64
    var ciDbr: u64
    var armDbr: u64

    constructor ()
    {
      shape := CqShape(0, 0, 0, 0);
    }

    /** `buf` is the address of the internal allocation or of the caller's memory. */
    method Create(size: u32, maxCqe: u32, buf: u64) returns (o: Plan<()>)
      modifies this
      ensures match CqOf(size, maxCqe)
        case Planned(p) =>
          && o == Planned(()) && shape == p && cqBuf == buf
          && ciDbr == U64(buf + p.ciDbr) && armDbr == U64(buf + p.armDbr)
        case _ => o == Rejected
    {
      if !IsPowerOfTwo(size) { return Rejected; }
      var entries := size;
      var log := Log2(entries);
      if entries > maxCqe { return Rejected; }
      var offset := U32(entries * CQE);
      offset := AlignUp32(offset, CACHELINE);
      cqBuf := buf;
      shape := CqShape(entries, log, offset, offset + 4);
      ciDbr := U64(buf + offset);
      armDbr := U64(buf + offset + 4);
      return Planned(());
    }
  }

  /** Accepted exactly for powers of two within the device's limit; then as many entries, their exact log, and doorbells past them. */
  lemma CqExactly(size: u32, maxCqe: u32)
    ensures CqOf(size, maxCqe).Planned? <==> IsPow2(size) && size <= maxCqe
    ensures CqOf(size, maxCqe).Planned? ==>
              var p := CqOf(size, maxCqe).value;
              && p.entries == size && Pow2(p.logEntries) == size
              && p.armDbr == p.ciDbr + 4 && (p.ciDbr == 64 * size <==> size < 0x400_0000)
  {
    if IsPow2(size) { Log2Inverts(size); }
    AlignedAlready(U32(size * 64), CACHELINE);
  }

  /** The external buffers of the high-level layer, page by page. */
  function CqUmemBytes(entries: u32, page: u32): u32
    requires page > 0
  {
    AlignUp32(if entries == 0 then 0 else U32(U32(entries * CQE) + CQE_DBR_BYTES), page)
  }

  function SqUmemBytes(entries: u32, page: u32): u32
    requires page > 0
  {
    AlignUp32(if entries == 0 then 0 else U32(entries * WQEBB), page)
  }

  // ---------- the pipeline ----------

  /** What the device code is given. */
  datatype Ring = Ring(
    depth: u32, cq: CqShape, sq: SendQueue, cqUmem: u32, sqUmem: u32,
    sqWqeNum: u16, sqWqeMask: u16, cqeNum: u32, cqeMask: u32)

  function PipelineOf(requested: u32, dev: Limits, maxCqe: u32, page: u32): Plan<Ring>
    requires page > 0
  {
    if requested == 0 then Rejected
    else
      var depth := U32(RoundedUp(requested));
      var cq := CqOf(depth, maxCqe);
      if !cq.Planned? then Rejected
      else
        var sq := SendPlan(depth, 1, 0, dev);
        if sq.DividesByZero? then DividesByZero
        else if sq.Rejected? then Rejected
        else Planned(Exported(depth, cq.value, sq.value, CqUmemBytes(depth, page), SqUmemBytes(depth, page)))
  }

  function Exported(depth: u32, cq: CqShape, sq: SendQueue, cqUmem: u32, sqUmem: u32): Ring {
    Ring(depth, cq, sq, cqUmem, sqUmem,
         U16(sq.wqebbs), U16(U16(sq.wqebbs) - 1), cq.entries, U32(cq.entries - 1))
  }

  /** The creation calls of the high-level layer, in order; `cqBuf` is the completion queue's memory. */
  method CreateRing(requested: u32, dev: Limits, maxCqe: u32, page: u32, cqBuf: u64) returns (o: Plan<Ring>)
    requires page > 0
    ensures o == PipelineOf(requested, dev, maxCqe, page)
  {
    if requested == 0 { return Rejected; }
    var rounded := NextPowerOfTwo(requested);
    var depth := U32(rounded);
    var cq := new Cq();
    var made := cq.Create(depth, maxCqe, cqBuf);
    if !made.Planned? { return Rejected; }
    var queues := new Queues();
    var sized := queues.SizeSend(depth, 1, 0, dev);
    if sized.Rejected? { return Rejected; }
    if sized.DividesByZero? { return DividesByZero; }
    o := Planned(Exported(depth, cq.shape, queues.send, CqUmemBytes(depth, page), SqUmemBytes(depth, page)));
  }

  // ---------- everything agrees up to 32768 entries ----------

  lemma DepthRounded(requested: u32)
    requires requested > 0
    ensures var depth := U32(RoundedUp(requested));
      && (depth == 0 || IsPow2(depth))
      && (requested <= DEEPEST ==> requested <= depth <= DEEPEST && depth == LeastPow2(requested))
      && (requested > DEEPEST ==> depth == 0 || depth >= TWO_16)
  {
    Pow2Values();
    Rounded32Of(requested);
    LeastPow2IsLeast(requested);
    LeastPow2Bound(requested, W15);
    if requested > DEEPEST { Pow2Gap(LeastPow2(requested), W16); }
  }

  /** One data segment and no inline data make a 64-byte request. */
  lemma OneUnit(depth: u32, dev: Limits)
    requires depth > 0 && SendPlan(depth, 1, 0, dev).Planned?
    ensures SendPlan(depth, 1, 0, dev).value.wqeSize == 64
    ensures SendPlan(depth, 1, 0, dev).value.wqebbs == Rounded32(64 * depth) / 64
  {
    UnitBytes();
  }

  lemma UnitBytes()
    ensures SendWqe(1, 0) == 64
  {
    assert SendBytes(1) == 48 && InlineBytes(0) == 0;
    assert AlignUp64(48, 64) == 64;
  }

  lemma UnitsOfDepth(depth: u32)
    requires IsPow2(depth)
    ensures Rounded32(64 * depth) / 64 == if depth <= 0x200_0000 then depth else 0
  {
    Pow2Values();
    assert IsPow2(Pow2(W6));
    Pow2Product(Pow2(W6), depth);
    if depth <= 0x200_0000 {
      var e: nat :| 64 * depth == Pow2(e);
      RoundedHolds(64 * depth);
      LeastPow2OfPow2(e);
    } else {
      BigProduct(depth);
      Rounded32Of(U32(64 * depth));
    }
  }

  lemma BigProduct(depth: u32)
    requires IsPow2(depth) && depth > 0x200_0000
    ensures U32(64 * depth) == 0
  {
    Pow2Values();
    assert Pow2(25) == 0x200_0000 by { Pow2Add(W24, 1); }
    Pow2Gap(depth, 26);
    Pow2Add(25, 1);
    Pow2MultipleOf(depth, 26);
    assert depth == 0x400_0000 * (depth / 0x400_0000);
    ModUnique(64 * depth, TWO_32, depth / 0x400_0000, 0);
  }

  lemma PipelineIs(requested: u32, dev: Limits, maxCqe: u32, page: u32)
    requires page > 0 && PipelineOf(requested, dev, maxCqe, page).Planned?
    ensures var depth := U32(RoundedUp(requested));
      && requested > 0 && depth > 0
      && CqOf(depth, maxCqe) == Planned(PipelineOf(requested, dev, maxCqe, page).value.cq)
      && SendPlan(depth, 1, 0, dev) == Planned(PipelineOf(requested, dev, maxCqe, page).value.sq)
      && PipelineOf(requested, dev, maxCqe, page).value ==
           Exported(depth, CqOf(depth, maxCqe).value, SendPlan(depth, 1, 0, dev).value,
                    CqUmemBytes(depth, page), SqUmemBytes(depth, page))
  {}

  lemma DepthIs(depth: u32, sq: SendQueue, dev: Limits)
    requires depth > 0 && IsPow2(depth) && SendPlan(depth, 1, 0, dev) == Planned(sq)
    ensures sq.wqebbs == if depth <= 0x200_0000 then depth else 0
    ensures depth <= DEEPEST ==> sq.size == depth
  {
    OneUnit(depth, dev);
    UnitsOfDepth(depth);
    if depth <= DEEPEST { SizeInUnits(depth, dev); }
  }

  /**
   For every requested depth, when creation succeeds: the depth, the completion entries, the send
   units and the exported count are one number exactly when the request is at most 32768.
   */
  lemma DepthsAgree(requested: u32, dev: Limits, maxCqe: u32, page: u32)
    requires page > 0 && PipelineOf(requested, dev, maxCqe, page).Planned?
    ensures var r := PipelineOf(requested, dev, maxCqe, page).value;
      && IsPow2(r.depth) && r.cqeNum == r.cq.entries == r.depth && r.cqeMask == r.depth - 1
      && (r.sqWqeNum == r.depth && r.sqWqeMask == r.depth - 1 <==> requested <= DEEPEST)
      && (requested <= DEEPEST ==> requested <= r.depth <= DEEPEST && r.sq.wqebbs == r.depth == r.sq.size)
  {
    PipelineIs(requested, dev, maxCqe, page);
    DepthRounded(requested);
    var depth := U32(RoundedUp(requested));
    var cq, sq := CqOf(depth, maxCqe).value, SendPlan(depth, 1, 0, dev).value;
    DepthIs(depth, sq, dev);
    var r := Exported(depth, cq, sq, CqUmemBytes(depth, page), SqUmemBytes(depth, page));
    ExportedAgrees(r, cq, sq, requested <= DEEPEST);
  }

  lemma ExportedAgrees(r: Ring, cq: CqShape, sq: SendQueue, small: bool)
    requires r == Exported(r.depth, cq, sq, r.cqUmem, r.sqUmem)
    requires IsPow2(r.depth) && cq.entries == r.depth && sq.wqebbs == if r.depth <= 0x200_0000 then r.depth else 0
    requires small ==> r.depth <= DEEPEST
    requires !small ==> r.depth >= TWO_16
    ensures r.cqeNum == r.cq.entries == r.depth && r.cqeMask == r.depth - 1
    ensures r.sqWqeNum == r.depth && r.sqWqeMask == r.depth - 1 <==> small
  {
    CountAfterCast(r.depth, sq.wqebbs, small);
  }

  lemma SizeInUnits(depth: u32, dev: Limits)
    requires 0 < depth <= DEEPEST && IsPow2(depth) && SendPlan(depth, 1, 0, dev).Planned?
    ensures SendPlan(depth, 1, 0, dev).value.size == depth
  {
    OneUnit(depth, dev);
    UnitsOfDepth(depth);
    UnitBytes();
  }

  lemma CountAfterCast(depth: u32, units: u32, small: bool)
    requires IsPow2(depth) && units == if depth <= 0x200_0000 then depth else 0
    requires small ==> depth <= DEEPEST
    requires !small ==> depth >= TWO_16
    ensures U16(units) == depth && U16(U16(units) - 1) == depth - 1 <==> small
  {}

  // ---------- the masks ----------

  /** Masking with a power of two less one is the remainder. */
  lemma MaskIsMod(i: nat, n: nat)
    requires IsPow2(n)
    ensures And(i, n - 1) == i % n
  {
    var e: nat :| n == Pow2(e);
    AndMaskIsLow(i, e);
    LowIsMod(i, e);
  }

  /** The slot the device code picks for a 64-bit index: cut to 16 bits, then masked. */
  function SlotOf(i: u64, mask: u16): nat { And(U16(i), mask) }

  /** It is the index modulo the depth, inside the ring, and indices less than a ring apart never share it. */
  lemma SlotIsMod(i: u64, j: u64, depth: u32)
    requires 0 < depth <= DEEPEST && IsPow2(depth)
    ensures SlotOf(i, depth - 1) == i % depth
    ensures 64 * SlotOf(i, depth - 1) + 64 <= 64 * depth
    ensures i < j < i + depth ==> SlotOf(i, depth - 1) != SlotOf(j, depth - 1)
  {
    SlotMod(i, depth);
    SlotMod(j, depth);
    if i < j < i + depth { NearbyMods(i, j, depth); }
  }

  lemma SlotMod(i: u64, depth: u32)
    requires 0 < depth <= DEEPEST && IsPow2(depth)
    ensures SlotOf(i, depth - 1) == i % depth
  {
    MaskIsMod(U16(i), depth);
    Pow2Values();
    assert IsPow2(Pow2(W16));
    Pow2Divides(depth, Pow2(W16));
    ModMod(i, depth, TWO_16, TWO_16 / depth);
  }

  lemma ModMod(i: nat, n: nat, m: nat, k: nat)
    requires n > 0 && k > 0 && m == n * k
    ensures m > 0 && i % m % n == i % n
  {
    MulGrows(n, k);
    var q, r := i / m, i % m;
    Regroup(n, k, q, r / n, r % n);
    assert i == m * q + r && r == n * (r / n) + r % n;
    ModUnique(i, n, k * q + r / n, r % n);
  }

  lemma Regroup(n: nat, k: nat, q: nat, s: nat, t: nat)
    ensures n * k * q + (n * s + t) == n * (k * q + s) + t
  {
    assert n * k * q == n * (k * q);
    assert n * (k * q + s) == n * (k * q) + n * s;
  }

  lemma NearbyMods(i: nat, j: nat, n: nat)
    requires i < j < i + n
    ensures i % n != j % n
  {
    if i % n == j % n {
      assert i == n * (i / n) + i % n && j == n * (j / n) + j % n;
      assert n * (j / n - i / n) == j - i;
      MulBetween(n, j / n - i / n, j - i);
    }
  }

  // ---------- the buffers ----------

  /** The send ring starts its buffer and fits; both doorbell words lie past the last entry, inside theirs. */
  lemma BuffersHold(requested: u32, dev: Limits, maxCqe: u32, page: u32)
    requires 0 < page <= 0x8000_0000 && requested <= DEEPEST && PipelineOf(requested, dev, maxCqe, page).Planned?
    ensures var r := PipelineOf(requested, dev, maxCqe, page).value;
      && r.sq.wqebbs * WQEBB == r.depth * 64 <= r.sqUmem && r.sqUmem % page == 0
      && r.cq.ciDbr == r.cqeNum * CQE && r.cq.armDbr == r.cq.ciDbr + 4
      && r.cq.armDbr + 4 <= r.cqUmem && r.cqUmem % page == 0
  {
    DepthsAgree(requested, dev, maxCqe, page);
    PipelineIs(requested, dev, maxCqe, page);
    BuffersOf(U32(RoundedUp(requested)), page);
  }

  lemma BuffersOf(depth: u32, page: u32)
    requires 0 < page <= 0x8000_0000 && 0 < depth <= DEEPEST
    ensures depth * 64 <= SqUmemBytes(depth, page) && SqUmemBytes(depth, page) % page == 0
    ensures depth * 64 + 8 <= CqUmemBytes(depth, page) && CqUmemBytes(depth, page) % page == 0
    ensures AlignUp32(U32(depth * CQE), CACHELINE) == depth * 64
  {
    PagesFor(depth * 64, page);
    PagesFor(depth * 64 + 8, page);
    AlignedAlready(depth * 64, CACHELINE);
  }

  lemma PagesFor(bytes: nat, page: u32)
    requires 0 < page <= 0x8000_0000 && bytes <= 0x20_0008
    ensures U32(bytes) == bytes
    ensures bytes <= AlignUp32(bytes, page) && AlignUp32(bytes, page) % page == 0
  {
    CastFits32(bytes);
    AlignUp32Exact(bytes, page);
    assert LeastMultiple(bytes, page) < bytes + page;
  }

  // ---------- the initial completion entries ----------

  /** Invalid opcode, owned by the device. */
  const FRESH: u8 := 0xf1

  /** `mlx5_init_cqes`: the last byte of every entry, and nothing else. */
  method InitCqes(cqes: array<u8>, n: u32)
    requires n * CQE <= cqes.Length
    modifies cqes
    ensures forall k :: 0 <= k < cqes.Length ==>
      cqes[k] == if k < 64 * n && k % 64 == 63 then 0xf1 else old(cqes[k])
  {
    var i: nat := 0;
    while i < n
      invariant i <= n
      invariant forall k :: 0 <= k < cqes.Length ==>
        cqes[k] == if k < i * CQE && k % CQE == 63 then FRESH else old(cqes[k])
    {
      cqes[i * CQE + 63] := FRESH;
      i := i + 1;
    }
  }

  /** The consumer's test: the owner bit against the parity of the lap. */
  predicate Observed(opOwn: u8, index: nat, n: nat) {
    (And(opOwn, 1) == 1) == (And(index, n) != 0)
  }

  /** The bit the producer writes for an index: the parity of its lap. */
  function OwnerBit(index: nat, n: nat): nat
    requires n > 0
  {
    index / n % 2
  }

  lemma LapParity(index: nat, n: nat)
    requires IsPow2(n)
    ensures And(index, n) != 0 <==> OwnerBit(index, n) == 1
  {
    var e: nat :| n == Pow2(e);
    LapBit(index, e);
    ShrIsDiv(index, e);
  }

  lemma {:induction false} LapBit(index: nat, e: nat)
    ensures And(index, Pow2(e)) != 0 <==> Shr(index, e) % 2 == 1
  {
    if index == 0 {
      ShrZero(e);
    } else if e > 0 {
      LapBit(index / 2, e - 1);
      assert Pow2(e) / 2 == Pow2(e - 1) && Pow2(e) % 2 == 0;
    } else {
      assert Pow2(0) == 1;
      assert And(index / 2, 0) == 0;
    }
  }

  /** No entry looks complete on the first lap before the device has written it. */
  lemma FreshIsUnobserved(index: nat, n: nat)
    requires IsPow2(n) && index < n
    ensures !Observed(FRESH, index, n)
    ensures FRESH / 16 == 15    // the invalid opcode
  {
    LapParity(index, n);
    ModUnique(index, n, 0, index);
    FreshOwner();
  }

  lemma FreshOwner()
    ensures And(FRESH, 1) == 1
  {
    assert Pow2(1) == 2;
    AndMaskIsLow(FRESH, 1);
    LowIsMod(FRESH, 1);
  }

  lemma NextLap(j: nat, n: nat)
    requires n > 0
    ensures OwnerBit(j + n, n) == 1 - OwnerBit(j, n)
  {
    assert j + n == n * (j / n + 1) + j % n;
    ModUnique(j + n, n, j / n + 1, j % n);
  }

  /** The test of the older architectures: the entry's work-queue counter must be the index's as well. */
  predicate ObservedWithCounter(opOwn: u8, counter: u16, index: nat, reserved: nat, n: nat)
    requires reserved <= index
  {
    Observed(opOwn, index, n) && counter == (index - reserved) % TWO_16
  }

  /**
   A slot that holds the entry of this lap or of the lap before, with the owner bit and the counter its
   producer wrote, passes the consumer's test exactly when it holds the entry of this lap; `reserved` is
   the completion index at which the queue pair's own count started.
   */
  lemma PollTellsLaps(opOwn: u8, counter: u16, index: nat, reserved: nat, held: nat, n: nat)
    requires IsPow2(n) && (held == index || held + n == index) && reserved <= index
    requires (And(opOwn, 1) == 1) == (OwnerBit(held, n) == 1)
    requires held >= reserved ==> counter == (held - reserved) % TWO_16
    ensures Observed(opOwn, index, n) <==> held == index
    ensures ObservedWithCounter(opOwn, counter, index, reserved, n) <==> held == index
  {
    LapParity(index, n);
    NextLap(held, n);
  }

  // ---------- after a reset ----------

  /** What a reset fills every entry with. */
  const WIPED: u8 := 0xff

  lemma WipedOwner()
    ensures And(WIPED, 1) == 1
  {
    assert Pow2(1) == 2;
    AndMaskIsLow(WIPED, 1);
    LowIsMod(WIPED, 1);
  }

  /** A wiped entry passes the owner test exactly on odd laps. */
  lemma WipedIsObserved(index: u64, n: u32)
    requires IsPow2(n)
    ensures WIPED == 0xff && (Observed(0xff, index, n) <==> index / n % 2 == 1)
  {
    LapParity(index, n);
    WipedOwner();
  }

  lemma LapOf(lap: nat, rest: nat, n: nat)
    requires n > 0 && rest < n
    ensures (n * lap + rest) / n == lap
  {
    ModUnique(n * lap + rest, n, lap, rest);
  }

  lemma EvenLapIsSafe(reserved: u64, n: u32, lap: nat)
    requires IsPow2(n) && reserved == n * lap && lap % 2 == 0
    ensures forall i: u64 :: reserved <= i < reserved + n ==> !Observed(WIPED, i, n)
  {
    forall i: u64 | reserved <= i < reserved + n ensures !Observed(WIPED, i, n) {
      LapOf(lap, i - reserved, n);
      WipedIsObserved(i, n);
    }
  }

  lemma OddLapIsTaken(reserved: u64, n: u32, lap: nat, rest: nat)
    requires IsPow2(n) && reserved == n * lap + rest && rest < n && lap % 2 == 1
    ensures Observed(WIPED, reserved, n)
  {
    LapOf(lap, rest, n);
    WipedIsObserved(reserved, n);
  }

  lemma NextLapIsTaken(reserved: u64, n: u32, lap: nat, rest: nat)
    requires IsPow2(n) && reserved + n < TWO_64 && reserved == n * lap + rest && 0 < rest < n && lap % 2 == 0
    ensures exists i: u64 :: reserved <= i < reserved + n && Observed(WIPED, i, n)
  {
    var i: u64 := reserved + (n - rest);
    LapStart(i, lap + 1, n);
    WipedIsObserved(i, n);
    assert Observed(WIPED, i, n);
  }

  lemma LapStart(i: nat, lap: nat, n: nat)
    requires n > 0 && lap > 0 && i == n * (lap - 1) + n
    ensures i / n == lap
  {
    assert i == n * lap + 0;
    LapOf(lap, 0, n);
  }

  lemma WipedCases(reserved: u64, n: u32, lap: nat, rest: nat)
    requires IsPow2(n) && reserved + n < TWO_64 && reserved == n * lap + rest && rest < n
    ensures (forall i: u64 :: reserved <= i < reserved + n ==> !Observed(WIPED, i, n)) <==> rest == 0 && lap % 2 == 0
  {
    if lap % 2 == 1 {
      OddLapIsTaken(reserved, n, lap, rest);
    } else if rest > 0 {
      NextLapIsTaken(reserved, n, lap, rest);
    } else {
      EvenLapIsSafe(reserved, n, lap);
    }
  }

  /**
   After a reset polling starts at `reserved`.  No wiped entry of the first ring's worth is taken for a
   completion exactly when `reserved` is a whole number of double laps.
   */
  lemma WipedEntriesAreSafeExactly(reserved: u64, n: u32)
    requires IsPow2(n) && reserved + n < TWO_64
    ensures (forall i: u64 :: reserved <= i < reserved + n ==> !Observed(WIPED, i, n)) <==>
            reserved % n == 0 && reserved / n % 2 == 0
  {
    WipedCases(reserved, n, reserved / n, reserved % n);
  }

  /** 64 entries and one reserved completion: the first entry of the second lap is taken for a completion. */
  lemma WipedEntryAt()
    ensures IsPow2(64) && Observed(WIPED, 64, 64) && !(forall i: u64 :: 1 <= i < 65 ==> !Observed(WIPED, i, 64))
  {
    Pow2Values();
    assert IsPow2(Pow2(W6));
    WipedIsObserved(64, 64);
    WipedEntriesAreSafeExactly(1, 64);
  }

}
