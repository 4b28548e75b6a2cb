/**
 The allocation table of a GPU device against the raw memory the drivers have handed out, and
 against the host memory the GPU driver has been asked to pin.

 The drivers' answers are parameters: they may refuse any call.  `leaked` and `stale` are history:
 raw allocations that are live and that no table entry will ever free, and pins that none will undo.
 */
module MemTable {
  import opened Bits
  import opened PowerOfTwo
  import opened Wrappers

  const GPU_PAGE: u64 := 0x1_0000

  datatype Kind = Gpu | GpuCpu | CpuGpu

  datatype Entry = Entry(kind: Kind, base: u64, gpu: u64, cpu: u64, sizeOrig: u64, size: u64)

  /** One raw allocation: how many bytes, and whether it is host memory. */
  datatype Raw = Raw(size: nat, host: bool)

  /** Host addresses registered with the GPU driver, and those of them nobody will unregister. */
  datatype Pins = Pins(held: set<u64>, stale: set<u64>)

  datatype State = State(table: map<u64, Entry>, live: map<u64, Raw>, leaked: set<u64>, pins: Pins)

  /** Whether the device maps its memory through gdrcopy, and the host's page size. */
  datatype Config = Config(gdrcopy: bool, page: u64)

  /**
   The drivers' answers to one call: the raw address, and whether each later step worked.  `freed` answers
   the `cudaFree` that cleans up, whose result the code drops.
   */
  datatype Answers = Answers(
    address: Option<u64>, attribute: bool, mapping: Option<u64>, register: bool, device: Option<u64>, unpin: bool,
    freed: bool)

  datatype Request = Request(kind: Kind, size: u64, alignment: u64)

  datatype Reply = Done(gpu: u64, cpu: u64) | InvalidValue | DriverError | Freed

  const EMPTY: State := State(map[], map[], {}, Pins({}, {}))

  // ---------- one allocation ----------

  /** The alignment in force: a page by default, 64 KiB for memory the CPU reaches through the GPU. */
  function Alignment(q: Request, c: Config): u64 {
    if q.kind.GpuCpu? then GPU_PAGE else if q.alignment == 0 then c.page else q.alignment
  }

  predicate Accepted(q: Request, c: Config) {
    q.size != 0 && IsPowerOfTwo(if q.alignment == 0 then c.page else q.alignment)
  }

  predicate Fallback(k: Kind, c: Config) { k.GpuCpu? && !c.gdrcopy }

  predicate OnHost(k: Kind, c: Config) { k.CpuGpu? || Fallback(k, c) }

  /** The size asked of the driver, in 64 bits. */
  function SizeOrig(q: Request, c: Config): u64 {
    if Fallback(q.kind, c) then q.size else U64(q.size + Alignment(q, c))
  }

  /** The bytes the driver hands out: the fallback multiplies. */
  function RawBytes(q: Request, c: Config): nat {
    if Fallback(q.kind, c) then Times(Alignment(q, c), q.size) else SizeOrig(q, c)
  }

  function Times(x: nat, y: nat): (r: nat)
    ensures x > 0 ==> r >= y
  {
    assert x > 0 ==> (x - 1) * y >= 0;
    x * y
  }

  /** Where the memory the caller gets starts, in the raw allocation's own space. */
  function StartOf(b: u64, q: Request, c: Config): u64
    requires Accepted(q, c)
  {
    AlignmentPositive(q, c);
    if Fallback(q.kind, c) then b else AlignUp64(b, Alignment(q, c))
  }

  lemma AlignmentPositive(q: Request, c: Config)
    requires Accepted(q, c)
    ensures Alignment(q, c) > 0 && IsPow2(Alignment(q, c))
  {
    Pow2Values();
    assert IsPow2(Pow2(W16));
  }

  /** The driver's steps after the raw allocation all worked. */
  predicate StepsWork(q: Request, c: Config, r: Answers) {
    if OnHost(q.kind, c) then r.register && r.device.Some?
    else r.attribute && (q.kind.GpuCpu? ==> r.mapping.Some?)
  }

  /** The failures after which the raw allocation is not given back: a mapping's, and a refused clean-up. */
  predicate LosesRaw(q: Request, c: Config, r: Answers) {
    !OnHost(q.kind, c) && if r.attribute then q.kind.GpuCpu? && r.mapping.None? else !r.freed
  }

  /** The frees after which the raw allocation is still live: the fallback's always, device memory's when refused. */
  predicate FreeKeepsRaw(k: Kind, freed: bool, c: Config) {
    Fallback(k, c) || (!OnHost(k, c) && !freed)
  }

  function EntryOf(q: Request, c: Config, b: u64, r: Answers): Entry
    requires Accepted(q, c) && StepsWork(q, c, r)
  {
    var start := StartOf(b, q, c);
    var gpu := if OnHost(q.kind, c) then r.device.value else start;
    var cpu := if OnHost(q.kind, c) then start else if q.kind.GpuCpu? then r.mapping.value else 0;
    Entry(q.kind, b, gpu, cpu, SizeOrig(q, c), q.size)
  }

  /** `doca_gpu_mem_alloc`: a key already in the table is not replaced, and the insertion does not report it. */
  function Alloc(s: State, q: Request, c: Config, r: Answers): (State, Reply) {
    (AllocMemory(s, q, c, r).0.(pins := PinsAfterAlloc(s, q, c, r)), AllocMemory(s, q, c, r).1)
  }

  function AllocMemory(s: State, q: Request, c: Config, r: Answers): (State, Reply) {
    if !Accepted(q, c) then (s, InvalidValue)
    else if r.address.None? then (s, DriverError)
    else
      var b := r.address.value;
      var got := s.(live := s.live[b := Raw(RawBytes(q, c), OnHost(q.kind, c))]);
      if LosesRaw(q, c, r) then (got.(leaked := s.leaked + {b}), DriverError)
      else if !StepsWork(q, c, r) then (s, DriverError)
      else
        var e := EntryOf(q, c, b, r);
        if e.gpu in s.table then (got.(leaked := s.leaked + {b}), Done(e.gpu, e.cpu))
        else (got.(table := s.table[e.gpu := e]), Done(e.gpu, e.cpu))
  }

  /** Host memory is registered; when its GPU address cannot be had, only CPU_GPU memory is unregistered again. */
  function PinsAfterAlloc(s: State, q: Request, c: Config, r: Answers): Pins {
    if !Accepted(q, c) || r.address.None? || !OnHost(q.kind, c) || !r.register then s.pins
    else
      var start := StartOf(r.address.value, q, c);
      if r.device.None? then
        if Fallback(q.kind, c) || !r.unpin then Pins(s.pins.held + {start}, s.pins.stale + {start})
        else Pins(s.pins.held - {start}, s.pins.stale)
      else Pins(s.pins.held + {start}, if r.device.value in s.table then s.pins.stale + {start} else s.pins.stale)
  }

  /** Freeing unregisters CPU_GPU memory and not the fallback; a refusal is only logged. */
  function PinsAfterFree(s: State, addr: u64, unpin: bool, c: Config): Pins {
    if addr == 0 || addr !in s.table || !OnHost(s.table[addr].kind, c) then s.pins
    else
      var cpu := s.table[addr].cpu;
      if Fallback(s.table[addr].kind, c) || !unpin then Pins(s.pins.held, s.pins.stale + {cpu})
      else Pins(s.pins.held - {cpu}, s.pins.stale)
  }

  /** `doca_gpu_mem_free`: the GPU driver refuses to free host memory, and may refuse any; a refusal is ignored. */
  function Free(s: State, addr: u64, unpin: bool, freed: bool, c: Config): (State, Reply) {
    (FreeMemory(s, addr, freed, c).0.(pins := PinsAfterFree(s, addr, unpin, c)), FreeMemory(s, addr, freed, c).1)
  }

  function FreeMemory(s: State, addr: u64, freed: bool, c: Config): (State, Reply) {
    if addr == 0 || addr !in s.table then (s, InvalidValue)
    else
      var e := s.table[addr];
      var left := s.(table := s.table - {addr});
      if FreeKeepsRaw(e.kind, freed, c) then (left.(leaked := s.leaked + {e.base}), Freed)
      else (left.(live := s.live - {e.base}), Freed)
  }

  // ---------- the code that follows ----------

  /** The two drivers' raw memory. */
  class Driver {
    var live: map<u64, Raw>
    var held: set<u64>

    constructor ()
      ensures live == map[] && held == {}
    {
      live, held := map[], {};
    }

    method Register(a: u64, works: bool)
      modifies this`held
      ensures held == if works then old(held) + {a} else old(held)
    {
      if works { held := held + {a}; }
    }

    method Unregister(a: u64, works: bool)
      modifies this`held
      ensures held == if works then old(held) - {a} else old(held)
    {
      if works { held := held - {a}; }
    }

    method Allocate(address: Option<u64>, size: nat, host: bool) returns (p: Option<u64>)
      requires address.Some? ==> address.value !in live
      modifies this`live
      ensures p == address
      ensures live == if p.Some? then old(live)[p.value := Raw(size, host)] else old(live)
    {
      p := address;
      if p.Some? { live := live[p.value := Raw(size, host)]; }
    }

    /** `cudaFree`: device memory only, and it may refuse. */
    method CudaFree(b: u64, works: bool)
      modifies this`live
      ensures live == if b in old(live) && !old(live)[b].host && works then old(live) - {b} else old(live)
    {
      if b in live && !live[b].host && works { live := live - {b}; }
    }

    /** `free`: host memory only. */
    method HostFree(b: u64)
      modifies this`live
      ensures live == if b in old(live) && old(live)[b].host then old(live) - {b} else old(live)
    {
      if b in live && live[b].host { live := live - {b}; }
    }
  }

  class GpuDevice {
    var mtable: map<u64, Entry>
    const config: Config
    ghost var leaked: set<u64>
    ghost var stale: set<u64>

    constructor (c: Config)
      ensures config == c && mtable == map[] && leaked == {} && stale == {}
    {
      config, mtable, leaked, stale := c, map[], {}, {};
    }

    ghost function Now(drv: Driver): State
      reads this, drv
    {
      State(mtable, drv.live, leaked, Pins(drv.held, stale))
    }

    /** Register host memory and look up its GPU address; on failure the raw allocation is given back. */
    method MapHost(drv: Driver, b: u64, start: u64, fallback: bool, r: Answers) returns (ok: bool)
      requires b in drv.live && drv.live[b].host
      modifies drv, this`stale
      ensures ok <==> r.register && r.device.Some?
      ensures drv.live == if ok then old(drv.live) else old(drv.live) - {b}
      ensures !r.register ==> drv.held == old(drv.held) && stale == old(stale)
      ensures ok ==> drv.held == old(drv.held) + {start} && stale == old(stale)
      ensures r.register && !ok ==>
                if fallback || !r.unpin then drv.held == old(drv.held) + {start} && stale == old(stale) + {start}
                else drv.held == old(drv.held) - {start} && stale == old(stale)
    {
      drv.Register(start, r.register);
      ok := r.register && r.device.Some?;
      if r.register && r.device.None? {
        if !fallback { drv.Unregister(start, r.unpin); }
        if fallback || !r.unpin { stale := stale + {start}; }
        assert old(drv.held) + {start} - {start} == old(drv.held) - {start};
      }
      if !ok { drv.HostFree(b); }
    }

    /** Mark device memory and map it for the CPU; a failed mapping does not give the raw allocation back. */
    method MapDevice(drv: Driver, b: u64, mapped: bool, r: Answers) returns (ok: bool, cpu: u64)
      requires b in drv.live && !drv.live[b].host
      modifies drv`live, this`leaked
      ensures ok <==> r.attribute && (mapped ==> r.mapping.Some?)
      ensures ok ==> cpu == if mapped then r.mapping.value else 0
      ensures drv.live == if r.attribute || !r.freed then old(drv.live) else old(drv.live) - {b}
      ensures leaked == if !ok && (r.attribute || !r.freed) then old(leaked) + {b} else old(leaked)
    {
      ok, cpu := false, 0;
      if !r.attribute {
        drv.CudaFree(b, r.freed);
        if !r.freed { leaked := leaked + {b}; }
        return;
      }
      if mapped {
        if r.mapping.None? {
          leaked := leaked + {b};
          return;
        }
        cpu := r.mapping.value;
      }
      ok := true;
    }

    method Insert(e: Entry, host: bool)
      modifies this`mtable, this`leaked, this`stale
      ensures mtable == if e.gpu in old(mtable) then old(mtable) else old(mtable)[e.gpu := e]
      ensures leaked == if e.gpu in old(mtable) then old(leaked) + {e.base} else old(leaked)
      ensures stale == if e.gpu in old(mtable) && host then old(stale) + {e.cpu} else old(stale)
    {
      if e.gpu in mtable {
        leaked := leaked + {e.base};
        if host { stale := stale + {e.cpu}; }
      } else {
        mtable := mtable[e.gpu := e];
      }
    }

    method ChooseAlignment(q: Request) returns (ok: bool, alignment: u64)
      ensures ok <==> Accepted(q, config)
      ensures ok ==> alignment == Alignment(q, config)
    {
      ok, alignment := false, q.alignment;
      if q.size == 0 { return; }
      if alignment == 0 { alignment := config.page; }
      if !IsPowerOfTwo(alignment) { return; }
      if q.kind.GpuCpu? && alignment != GPU_PAGE { alignment := GPU_PAGE; }
      ok := true;
    }

    method MemAlloc(drv: Driver, q: Request, r: Answers) returns (reply: Reply)
      requires r.address.Some? ==> r.address.value !in drv.live
      modifies this, drv
      ensures (Now(drv), reply) == Alloc(old(Now(drv)), q, config, r)
      // The address handed out is on the caller's alignment, or on 64 KiB for memory mapped through gdrcopy.
      ensures reply.Done? && q.kind.Gpu? ==> reply.gpu % (if q.alignment == 0 then config.page else q.alignment) == 0
      ensures reply.Done? && q.kind.CpuGpu? ==> reply.cpu % (if q.alignment == 0 then config.page else q.alignment) == 0
      ensures reply.Done? && q.kind.GpuCpu? && config.gdrcopy ==> reply.gpu % 65536 == 0
      // The raw allocation behind it has room for that: the alignment more than was asked for.
      ensures reply.Done? ==>
                r.address.Some? && r.address.value in drv.live &&
                drv.live[r.address.value].size ==
                  (if !q.kind.GpuCpu? then (q.size + if q.alignment == 0 then config.page else q.alignment) % TWO_64
                   else if config.gdrcopy then (q.size + 65536) % TWO_64
                   else Times(65536, q.size))
    {
      ghost var s := Now(drv);
      reply := AllocAndInsert(drv, q, r);
      if reply.Done? { AllocAligned(s, q, config, r); }
    }

    method AllocAndInsert(drv: Driver, q: Request, r: Answers) returns (reply: Reply)
      requires r.address.Some? ==> r.address.value !in drv.live
      modifies this, drv
      ensures (Now(drv), reply) == Alloc(old(Now(drv)), q, config, r)
    {
      var accepted, alignment := ChooseAlignment(q);
      if !accepted { return InvalidValue; }
      AlignmentPositive(q, config);
      ghost var was := drv.live;
      var fallback := q.kind.GpuCpu? && !config.gdrcopy;
      var host := q.kind.CpuGpu? || fallback;
      var sizeOrig := if fallback then q.size else U64(q.size + alignment);
      var p := drv.Allocate(r.address, if fallback then Times(alignment, q.size) else sizeOrig, host);
      if p.None? { return DriverError; }
      var b := p.value;
      assert drv.live - {b} == was;
      var start := if fallback then b else AlignUp64(b, alignment);
      var gpu, cpu: u64 := start, start;
      var ok;
      if host {
        ok := MapHost(drv, b, start, fallback, r);
        if ok { gpu := r.device.value; }
      } else {
        ok, cpu := MapDevice(drv, b, q.kind.GpuCpu?, r);
      }
      if !ok { return DriverError; }
      Insert(Entry(q.kind, b, gpu, cpu, sizeOrig, q.size), host);
      return Done(gpu, cpu);
    }

    method MemFree(drv: Driver, addr: u64, unpin: bool, freed: bool) returns (reply: Reply)
      requires Inv(Now(drv), config)
      modifies this, drv
      ensures (Now(drv), reply) == Free(old(Now(drv)), addr, unpin, freed, config)
    {
      if addr == 0 { return InvalidValue; }
      if addr !in mtable { return InvalidValue; }
      var e := mtable[addr];
      if e.kind.CpuGpu? {
        drv.Unregister(e.cpu, unpin);
        if !unpin { stale := stale + {e.cpu}; }
      }
      if e.kind.CpuGpu? { drv.HostFree(e.base); } else { drv.CudaFree(e.base, freed); }
      if FreeKeepsRaw(e.kind, freed, config) { leaked := leaked + {e.base}; }
      if Fallback(e.kind, config) { stale := stale + {e.cpu}; }
      mtable := mtable - {addr};
      return Freed;
    }
  }

  // ---------- the table and the live memory ----------

  /** Every entry owns one live raw allocation of its kind, no two the same; every other live one is leaked. */
  ghost predicate Inv(s: State, c: Config) {
    && (forall k :: k in s.table ==> Owns(s, c, k))
    && (forall j, k :: j in s.table && k in s.table && s.table[j].base == s.table[k].base ==> j == k)
    && (forall b :: b in s.leaked ==> b in s.live)
    && (forall b :: b in s.live && b !in s.leaked ==> Owned(s, b))
  }

  predicate Owns(s: State, c: Config, k: u64)
    requires k in s.table
  {
    var e := s.table[k];
    e.gpu == k && e.base in s.live && e.base !in s.leaked && s.live[e.base].host == OnHost(e.kind, c)
  }

  ghost predicate Owned(s: State, b: u64) {
    exists k :: k in s.table && s.table[k].base == b
  }

  lemma InsertKeeps(s: State, c: Config, e: Entry, raw: Raw)
    requires Inv(s, c) && e.base !in s.live && e.gpu !in s.table && raw.host == OnHost(e.kind, c)
    ensures Inv(s.(table := s.table[e.gpu := e], live := s.live[e.base := raw]), c)
  {
    var t := s.(table := s.table[e.gpu := e], live := s.live[e.base := raw]);
    forall k | k in t.table ensures Owns(t, c, k) && (k != e.gpu ==> t.table[k].base != e.base) {
      assert k != e.gpu ==> Owns(s, c, k);
    }
    forall b | b in t.live && b !in t.leaked ensures Owned(t, b) {
      if b == e.base {
        assert t.table[e.gpu].base == b;
      } else {
        assert Owned(s, b);
        var k :| k in s.table && s.table[k].base == b;
        assert t.table[k].base == b;
      }
    }
  }

  lemma LeakKeeps(s: State, c: Config, p: u64, raw: Raw)
    requires Inv(s, c) && p !in s.live
    ensures Inv(s.(live := s.live[p := raw], leaked := s.leaked + {p}), c)
  {
    var t := s.(live := s.live[p := raw], leaked := s.leaked + {p});
    forall b | b in t.live && b !in t.leaked ensures Owned(t, b) {
      assert Owned(s, b);
    }
  }

  lemma InvIgnoresPins(s: State, c: Config, pins: Pins)
    ensures Inv(s, c) <==> Inv(s.(pins := pins), c)
  {
    forall b ensures Owned(s, b) <==> Owned(s.(pins := pins), b) {}
  }

  lemma AllocKeeps(s: State, q: Request, c: Config, r: Answers)
    requires Inv(s, c) && (r.address.Some? ==> r.address.value !in s.live)
    ensures Inv(Alloc(s, q, c, r).0, c)
  {
    InvIgnoresPins(AllocMemory(s, q, c, r).0, c, PinsAfterAlloc(s, q, c, r));
    if Accepted(q, c) && r.address.Some? {
      var b, raw := r.address.value, Raw(RawBytes(q, c), OnHost(q.kind, c));
      LeakKeeps(s, c, b, raw);
      if StepsWork(q, c, r) && EntryOf(q, c, b, r).gpu !in s.table {
        InsertKeeps(s, c, EntryOf(q, c, b, r), raw);
      }
    }
  }

  /** What is left when an entry goes, and its raw allocation is either given back or leaked. */
  lemma RemoveKeeps(s: State, c: Config, addr: u64, t: State)
    requires Inv(s, c) && addr in s.table && t.table == s.table - {addr}
    requires var p := s.table[addr].base;
      || (t.live == s.live - {p} && t.leaked == s.leaked)
      || (t.live == s.live && t.leaked == s.leaked + {p})
    ensures Inv(t, c)
  {
    var p := s.table[addr].base;
    forall k | k in t.table ensures Owns(t, c, k) {
      assert Owns(s, c, k) && s.table[k].base != p;
    }
    forall b | b in t.live && b !in t.leaked ensures Owned(t, b) {
      assert Owned(s, b);
      var k :| k in s.table && s.table[k].base == b;
      assert k in t.table && t.table[k].base == b;
    }
  }

  lemma FreeKeeps(s: State, addr: u64, unpin: bool, freed: bool, c: Config)
    requires Inv(s, c)
    ensures Inv(Free(s, addr, unpin, freed, c).0, c)
  {
    if addr != 0 && addr in s.table {
      RemoveKeeps(s, c, addr, Free(s, addr, unpin, freed, c).0);
    } else {
      InvIgnoresPins(s, c, PinsAfterFree(s, addr, unpin, c));
    }
  }

  // ---------- where the memory lies ----------

  /** The size asked of the driver does not wrap. */
  predicate SizeFits(q: Request, c: Config) {
    Fallback(q.kind, c) || q.size + Alignment(q, c) < TWO_64
  }

  lemma RangeOf(b: u64, a: u64, size: u64)
    requires 0 < a <= 0x8000_0000_0000_0000 && size > 0 && b + U64(size + a) <= TWO_64
    ensures b <= AlignUp64(b, a) && AlignUp64(b, a) + size <= b + U64(size + a) <==> size + a < TWO_64
  {
    if size + a < TWO_64 {
      AlignUpExact(b, a);
      CastFits64(size + a);
      assert LeastMultiple(b, a) < b + a;
    } else {
      ModUnique(size + a, TWO_64, 1, size + a - TWO_64);
    }
  }

  /** The range the caller gets is inside the raw allocation exactly when the size did not wrap. */
  lemma RangeInside(q: Request, c: Config, b: u64)
    requires Accepted(q, c) && b + RawBytes(q, c) <= TWO_64
    ensures b <= StartOf(b, q, c) && StartOf(b, q, c) + q.size <= b + RawBytes(q, c) <==> SizeFits(q, c)
  {
    AlignmentPositive(q, c);
    AlignmentBound(q, c);
    if !Fallback(q.kind, c) { RangeOf(b, Alignment(q, c), q.size); }
  }

  lemma AlignmentBound(q: Request, c: Config)
    requires Accepted(q, c)
    ensures Alignment(q, c) <= 0x8000_0000_0000_0000
  {
    AlignmentPositive(q, c);
    Pow2Values();
    Pow2Gap(Alignment(q, c), W64);
  }

  /** Except for the fallback, the range starts on the alignment in force. */
  lemma StartAligned(q: Request, c: Config, b: u64)
    requires Accepted(q, c) && !Fallback(q.kind, c)
    ensures StartOf(b, q, c) % Alignment(q, c) == 0
  {
    AlignmentPositive(q, c);
    AlignmentBound(q, c);
    UpIsMultiple(b, Alignment(q, c));
  }

  lemma UpIsMultiple(b: u64, a: u64)
    requires IsPow2(a) && 0 < a
    ensures AlignUp64(b, a) % a == 0
  {
    var m := LeastMultiple(b, a);
    AlignUpExact(b, a);
    if m >= TWO_64 {
      WordIsMultiple(a);
      MultiplesApart(m, TWO_64, a);
      ModUnique(0, a, 0, 0);
    } else {
      CastFits64(m);
    }
  }

  lemma WordIsMultiple(a: u64)
    requires IsPow2(a) && 0 < a
    ensures TWO_64 % a == 0
  {
    Pow2Values();
    assert IsPow2(Pow2(W64));
    Pow2Divides(a, Pow2(W64));
    ModUnique(TWO_64, a, TWO_64 / a, 0);
  }

  lemma MultiplesApart(m: nat, n: nat, a: nat)
    requires a > 0 && m % a == 0 && n % a == 0 && n <= m < n + a
    ensures m == n
  {
    assert m == a * (m / a) && n == a * (n / a);
    assert a * (m / a - n / a) == m - n;
    MulBetween(a, m / a - n / a, m - n);
  }

  /** What an accepted request is answered with, in terms of the request, the configuration and the reply alone. */
  lemma AllocAligned(s: State, q: Request, c: Config, r: Answers)
    requires Alloc(s, q, c, r).1.Done?
    ensures var reply, own := Alloc(s, q, c, r).1, if q.alignment == 0 then c.page else q.alignment;
      && own > 0
      && (q.kind.Gpu? ==> reply.gpu % own == 0) && (q.kind.CpuGpu? ==> reply.cpu % own == 0)
      && (q.kind.GpuCpu? && c.gdrcopy ==> reply.gpu % 65536 == 0)
    ensures var live, own := Alloc(s, q, c, r).0.live, if q.alignment == 0 then c.page else q.alignment;
      && r.address.Some? && r.address.value in live
      && live[r.address.value].size ==
           (if !q.kind.GpuCpu? then (q.size + own) % TWO_64
            else if c.gdrcopy then (q.size + 65536) % TWO_64
            else Times(65536, q.size))
  {
    Pow2Values();
    assert !IsPow2(0);
    if !Fallback(q.kind, c) { StartAligned(q, c, r.address.value); }
  }

  /** When an allocation succeeds, kind by kind, and which refusal it is otherwise; a free is refused for unknown addresses alone. */
  lemma Replies(s: State, q: Request, c: Config, r: Answers, addr: u64, unpin: bool, freed: bool)
    ensures Alloc(s, q, c, r).1.InvalidValue? <==>
            q.size == 0 || !IsPow2(if q.alignment == 0 then c.page else q.alignment)
    ensures Alloc(s, q, c, r).1.Done? <==>
      && q.size > 0 && IsPow2(if q.alignment == 0 then c.page else q.alignment) && r.address.Some?
      && match q.kind
         case Gpu => r.attribute
         case GpuCpu => if c.gdrcopy then r.attribute && r.mapping.Some? else r.register && r.device.Some?
         case CpuGpu => r.register && r.device.Some?
    ensures Alloc(s, q, c, r).1.Done? ==>
      var reply := Alloc(s, q, c, r).1;
      match q.kind
      case Gpu => reply.cpu == 0
      case GpuCpu => if c.gdrcopy then reply.cpu == r.mapping.value else reply.gpu == r.device.value && reply.cpu == r.address.value
      case CpuGpu => reply.gpu == r.device.value
    ensures Alloc(s, q, c, r).1 != Freed
    ensures Free(s, addr, unpin, freed, c).1 == if addr != 0 && addr in s.table then Freed else InvalidValue
  {}

  /**
   So memory mapped through gdrcopy keeps the caller's own alignment, wherever the raw allocation lies,
   exactly when that is at most 64 KiB.
   */
  lemma MappedAlignment(q: Request, c: Config)
    requires Accepted(q, c) && q.kind.GpuCpu? && c.gdrcopy
    ensures var own := if q.alignment == 0 then c.page else q.alignment;
      own > 0 && ((forall b: u64 :: StartOf(b, q, c) % own == 0) <==> own <= 65536)
  {
    var own := if q.alignment == 0 then c.page else q.alignment;
    Pow2Values();
    assert !IsPow2(0) && IsPow2(Pow2(W16));
    if own <= 65536 {
      Pow2Divides(own, Pow2(W16));
      forall b: u64 ensures StartOf(b, q, c) % own == 0 {
        StartAligned(q, c, b);
        MultipleOfMultiple(StartOf(b, q, c), own, 65536 / own);
      }
    } else {
      AlignUpExact(65536, 65536);
      CastFits64(65536);
      assert StartOf(65536, q, c) == 65536;
    }
  }

  lemma MultipleOfMultiple(x: nat, a: nat, k: nat)
    requires a > 0 && k > 0 && x % (a * k) == 0
    ensures x % a == 0
  {
    var m := x / (a * k);
    assert x == a * k * m == a * (k * m);
    ModUnique(x, a, k * m, 0);
  }

  /** The address handed to gdrcopy passes its assertion, whatever alignment the caller asked for. */
  lemma GdrAssertionHolds(q: Request, c: Config, b: u64)
    requires Accepted(q, c) && q.kind.GpuCpu? && c.gdrcopy
    ensures And(StartOf(b, q, c), GPU_PAGE - 1) == 0
  {
    StartAligned(q, c, b);
    Pow2Values();
    AndMaskIsLow(StartOf(b, q, c), W16);
    LowIsMod(StartOf(b, q, c), W16);
  }

  // ---------- runs ----------

  datatype Event = DoAlloc(q: Request, r: Answers) | DoFree(addr: u64, unpin: bool, freed: bool)

  function Next(s: State, e: Event, c: Config): State {
    if e.DoAlloc? then Alloc(s, e.q, c, e.r).0 else Free(s, e.addr, e.unpin, e.freed, c).0
  }

  function After(es: seq<Event>, c: Config): State {
    if es == [] then EMPTY else Next(After(es[..|es| - 1], c), es[|es| - 1], c)
  }

  /** A raw allocation of `n` bytes at `b` overlaps nothing that is live. */
  predicate Fresh(live: map<u64, Raw>, b: u64, n: nat) {
    && b !in live && b + n <= TWO_64
    && forall k: u64 :: k in live ==> b + n <= k || k + live[k].size <= b
  }

  predicate Sound(s: State, e: Event, c: Config) {
    e.DoAlloc? && e.r.address.Some? ==> Fresh(s.live, e.r.address.value, RawBytes(e.q, c))
  }

  /** Every raw allocation in the run was fresh memory. */
  predicate SoundRun(es: seq<Event>, c: Config) {
    es != [] ==> SoundRun(es[..|es| - 1], c) && Sound(After(es[..|es| - 1], c), es[|es| - 1], c)
  }

  /** No size wraps, and the GPU sees host memory at the host's own address. */
  predicate Ordinary(e: Event, c: Config) {
    e.DoAlloc? && Accepted(e.q, c) && e.r.address.Some? ==>
      && SizeFits(e.q, c)
      && (OnHost(e.q.kind, c) && e.r.device.Some? ==> e.r.device.value == StartOf(e.r.address.value, e.q, c))
  }

  /** Over every run, whatever the drivers refuse. */
  lemma {:induction false} InvHolds(es: seq<Event>, c: Config)
    requires SoundRun(es, c)
    ensures Inv(After(es, c), c)
  {
    if es != [] {
      var s, e := After(es[..|es| - 1], c), es[|es| - 1];
      InvHolds(es[..|es| - 1], c);
      if e.DoAlloc? { AllocKeeps(s, e.q, c, e.r); } else { FreeKeeps(s, e.addr, e.unpin, e.freed, c); }
    }
  }

  /** Every key is an address inside its entry's raw allocation. */
  ghost predicate Within(s: State) {
    forall k :: k in s.table ==>
      s.table[k].base in s.live && s.table[k].base <= k < s.table[k].base + s.live[s.table[k].base].size
  }

  lemma KeyIsNew(s: State, q: Request, c: Config, r: Answers)
    requires Within(s) && Sound(s, DoAlloc(q, r), c) && Ordinary(DoAlloc(q, r), c)
    requires Accepted(q, c) && r.address.Some? && StepsWork(q, c, r)
    ensures var e := EntryOf(q, c, r.address.value, r);
      e.gpu !in s.table && e.base <= e.gpu < e.base + RawBytes(q, c)
  {
    RangeInside(q, c, r.address.value);
  }

  lemma InsertWithin(s: State, e: Entry, raw: Raw)
    requires Within(s) && e.base !in s.live && e.base <= e.gpu < e.base + raw.size
    ensures Within(s.(table := s.table[e.gpu := e], live := s.live[e.base := raw]))
  {}

  lemma AllocWithin(s: State, q: Request, c: Config, r: Answers)
    requires Within(s) && Sound(s, DoAlloc(q, r), c) && Ordinary(DoAlloc(q, r), c)
    ensures Within(Alloc(s, q, c, r).0)
  {
    if Accepted(q, c) && r.address.Some? {
      var b, raw := r.address.value, Raw(RawBytes(q, c), OnHost(q.kind, c));
      if StepsWork(q, c, r) {
        KeyIsNew(s, q, c, r);
        InsertWithin(s, EntryOf(q, c, b, r), raw);
      }
    }
  }

  lemma FreeWithin(s: State, addr: u64, unpin: bool, freed: bool, c: Config)
    requires Inv(s, c) && Within(s)
    ensures Within(Free(s, addr, unpin, freed, c).0)
  {
    var t := Free(s, addr, unpin, freed, c).0;
    forall k | k in t.table
      ensures t.table[k].base in t.live && t.table[k].base <= k < t.table[k].base + t.live[t.table[k].base].size
    {
      assert k in s.table && Owns(s, c, k);
      assert addr in s.table && k != addr ==> s.table[k].base != s.table[addr].base;
    }
  }

  lemma WithinKept(s: State, e: Event, c: Config)
    requires Inv(s, c) && Within(s) && Sound(s, e, c) && Ordinary(e, c)
    ensures Within(Next(s, e, c))
  {
    match e
    case DoAlloc(q, r) => AllocWithin(s, q, c, r);
    case DoFree(addr, unpin, freed) => FreeWithin(s, addr, unpin, freed, c);
  }

  /**
   What one step adds to the leaked memory: a raw allocation whose gdrcopy mapping failed, a fallback
   entry freed, or device memory the driver refuses to take back.
   */
  function Loss(s: State, e: Event, c: Config): set<u64> {
    match e
    case DoAlloc(q, r) =>
      var mapped := q.kind.GpuCpu? && c.gdrcopy;
      if && Accepted(q, c) && r.address.Some?
         && ((mapped && r.attribute && r.mapping.None?) || ((q.kind.Gpu? || mapped) && !r.attribute && !r.freed))
      then {r.address.value} else {}
    case DoFree(addr, _, freed) =>
      if addr == 0 || addr !in s.table then {}
      else
        match s.table[addr].kind
        case Gpu => if freed then {} else {s.table[addr].base}
        case GpuCpu => if c.gdrcopy && freed then {} else {s.table[addr].base}
        case CpuGpu => {}
  }

  lemma LossIsExact(s: State, e: Event, c: Config)
    requires Within(s) && Sound(s, e, c) && Ordinary(e, c)
    ensures Next(s, e, c).leaked == s.leaked + Loss(s, e, c)
  {
    if e.DoAlloc? && Accepted(e.q, c) && e.r.address.Some? && StepsWork(e.q, c, e.r) {
      KeyIsNew(s, e.q, c, e.r);
    }
  }

  function Losses(es: seq<Event>, c: Config): set<u64> {
    if es == [] then {} else Losses(es[..|es| - 1], c) + Loss(After(es[..|es| - 1], c), es[|es| - 1], c)
  }

  predicate OrdinaryRun(es: seq<Event>, c: Config) {
    forall e :: e in es ==> Ordinary(e, c)
  }

  lemma {:induction false} RunLosses(es: seq<Event>, c: Config)
    requires SoundRun(es, c) && OrdinaryRun(es, c)
    ensures Within(After(es, c)) && After(es, c).leaked == Losses(es, c)
  {
    if es != [] {
      var s, e := After(es[..|es| - 1], c), es[|es| - 1];
      assert e in es;
      InvHolds(es[..|es| - 1], c);
      RunLosses(es[..|es| - 1], c);
      WithinKept(s, e, c);
      LossIsExact(s, e, c);
    }
  }

  /**
   Over every ordinary run: a raw allocation is live exactly when one table entry owns it or it was
   lost in one of the three ways `Loss` names.
   */
  lemma LiveIsTable(es: seq<Event>, c: Config, b: u64)
    requires SoundRun(es, c) && OrdinaryRun(es, c)
    ensures b in After(es, c).live <==> Owned(After(es, c), b) || b in Losses(es, c)
  {
    InvHolds(es, c);
    RunLosses(es, c);
  }

  /** So the entries' raw allocations are exactly the live ones when, and only when, no step lost any. */
  lemma TableIsLiveExactly(es: seq<Event>, c: Config)
    requires SoundRun(es, c) && OrdinaryRun(es, c)
    ensures (forall b :: b in After(es, c).live <==> Owned(After(es, c), b)) <==> Losses(es, c) == {}
  {
    InvHolds(es, c);
    RunLosses(es, c);
    var s := After(es, c);
    if Losses(es, c) != {} {
      var b :| b in s.leaked;
      assert b in s.live;
      assert forall k :: k in s.table ==> Owns(s, c, k);
      assert !Owned(s, b);
    }
  }

  /** Only GPU and CPU_GPU memory, and device memory is taken back whenever it is handed back. */
  predicate Plain(e: Event) {
    match e
    case DoAlloc(q, r) => !q.kind.GpuCpu? && (q.kind.Gpu? ==> r.attribute || r.freed)
    case DoFree(_, _, freed) => freed
  }

  predicate PlainRun(es: seq<Event>) {
    forall e :: e in es ==> Plain(e)
  }

  lemma {:induction false} NothingLost(es: seq<Event>, c: Config)
    requires PlainRun(es)
    ensures Losses(es, c) == {}
    ensures forall k :: k in After(es, c).table ==> !After(es, c).table[k].kind.GpuCpu?
  {
    if es != [] {
      assert PlainRun(es[..|es| - 1]);
      NothingLost(es[..|es| - 1], c);
      assert es[|es| - 1] in es;
    }
  }

  /** On such runs the entries' raw allocations are exactly the live ones. */
  lemma TableIsLive(es: seq<Event>, c: Config, b: u64)
    requires SoundRun(es, c) && OrdinaryRun(es, c) && PlainRun(es)
    ensures b in After(es, c).live <==> Owned(After(es, c), b)
  {
    NothingLost(es, c);
    LiveIsTable(es, c, b);
  }

  /**
   Freeing what was just allocated restores the table, the live memory and the pins exactly when the memory
   is not the fallback's and the driver does its part; a second free is refused in any case.
   */
  lemma AllocThenFree(s: State, q: Request, c: Config, r: Answers, unpin: bool, freed: bool)
    requires Alloc(s, q, c, r).1.Done?
    requires r.address.Some? && r.address.value !in s.live && Alloc(s, q, c, r).1.gpu !in s.table
    requires OnHost(q.kind, c) ==> Alloc(s, q, c, r).1.cpu !in s.pins.held
    requires Alloc(s, q, c, r).1.gpu != 0
    ensures var gpu := Alloc(s, q, c, r).1.gpu;
      && Free(Alloc(s, q, c, r).0, gpu, unpin, freed, c).1 == Freed
      && (Free(Alloc(s, q, c, r).0, gpu, unpin, freed, c).0 == s
          <==> !Fallback(q.kind, c) && if OnHost(q.kind, c) then unpin else freed)
      && Free(s, gpu, unpin, freed, c) == (s, InvalidValue)
  {
    var t, gpu, cpu := Alloc(s, q, c, r).0, Alloc(s, q, c, r).1.gpu, Alloc(s, q, c, r).1.cpu;
    assert t.table - {gpu} == s.table;
    assert t.live - {r.address.value} == s.live && r.address.value in t.live;
    if OnHost(q.kind, c) { assert t.pins.held - {cpu} == s.pins.held && cpu in t.pins.held; }
  }

  /** Plain GPU memory whose free the driver refuses: the call succeeds, the entry is gone, the memory stays. */
  lemma RefusedFreeLosesMemory(page: u64)
    ensures var c := Config(true, page);
      var es := [DoAlloc(Request(Gpu, 64, 1), Answers(Some(64), true, None, false, None, false, true)), DoFree(64, true, false)];
      && SoundRun(es, c) && OrdinaryRun(es, c)
      && After(es, c).table == map[] && After(es, c).live == map[64 := Raw(65, false)] && Losses(es, c) == {64}
  {
    var c := Config(true, page);
    var q, r := Request(Gpu, 64, 1), Answers(Some(64), true, None, false, None, false, true);
    var es := [DoAlloc(q, r), DoFree(64, true, false)];
    assert Pow2(0) == 1;
    AlignUpExact(64, 1);
    RunOfTwo(es, c);
    assert Fresh(map[], 64, 65);
    assert Alloc(EMPTY, q, c, r).0.table == map[64 := Entry(Gpu, 64, 64, 0, 65, 64)];
    assert map[64 := Entry(Gpu, 64, 64, 0, 65, 64)] - {64} == map[];
  }

  lemma RunOfTwo(es: seq<Event>, c: Config)
    requires |es| == 2
    ensures After(es, c) == Next(Next(EMPTY, es[0], c), es[1], c)
    ensures Losses(es, c) == Loss(EMPTY, es[0], c) + Loss(Next(EMPTY, es[0], c), es[1], c)
    ensures Sound(EMPTY, es[0], c) && Sound(Next(EMPTY, es[0], c), es[1], c) ==> SoundRun(es, c)
  {
    var one := es[..1];
    assert es[..2][..1] == one && one[..0] == [];
    assert After(one, c) == Next(EMPTY, es[0], c);
    assert Losses(one, c) == {} + Loss(EMPTY, es[0], c);
  }

  // ---------- the table and the pinned host memory ----------

  predicate PinnedBy(s: State, c: Config, k: u64, p: u64) {
    k in s.table && OnHost(s.table[k].kind, c) && s.table[k].cpu == p
  }

  ghost predicate Pinned(s: State, c: Config, p: u64) {
    exists k :: PinnedBy(s, c, k, p)
  }

  /** Every entry of host memory holds one pin, no two the same; every other pin is stale. */
  ghost predicate PinInv(s: State, c: Config) {
    && (forall k, p :: PinnedBy(s, c, k, p) ==> p in s.pins.held && p !in s.pins.stale)
    && (forall j, k, p :: PinnedBy(s, c, j, p) && PinnedBy(s, c, k, p) ==> j == k)
    && (forall p :: p in s.pins.stale ==> p in s.pins.held)
    && (forall p :: p in s.pins.held && p !in s.pins.stale ==> Pinned(s, c, p))
  }

  /** The GPU driver pins only what is not pinned yet. */
  predicate PinsOnce(s: State, e: Event, c: Config) {
    e.DoAlloc? && Accepted(e.q, c) && e.r.address.Some? && OnHost(e.q.kind, c) && e.r.register ==>
      StartOf(e.r.address.value, e.q, c) !in s.pins.held
  }

  lemma StalePinKept(s: State, c: Config, p: u64)
    requires PinInv(s, c) && p !in s.pins.held
    ensures PinInv(s.(pins := Pins(s.pins.held + {p}, s.pins.stale + {p})), c)
  {
    var t := s.(pins := Pins(s.pins.held + {p}, s.pins.stale + {p}));
    forall k, x | PinnedBy(t, c, k, x) ensures PinnedBy(s, c, k, x) {}
    forall x | x in t.pins.held && x !in t.pins.stale ensures Pinned(t, c, x) {
      assert Pinned(s, c, x);
      var k :| PinnedBy(s, c, k, x);
      assert PinnedBy(t, c, k, x);
    }
  }

  lemma EntryPinKept(s: State, c: Config, e: Entry)
    requires PinInv(s, c) && OnHost(e.kind, c) && e.cpu !in s.pins.held && e.gpu !in s.table
    ensures PinInv(s.(table := s.table[e.gpu := e], pins := Pins(s.pins.held + {e.cpu}, s.pins.stale)), c)
  {
    var t := s.(table := s.table[e.gpu := e], pins := Pins(s.pins.held + {e.cpu}, s.pins.stale));
    forall k, p | PinnedBy(t, c, k, p) ensures k == e.gpu || PinnedBy(s, c, k, p) {}
    forall x | x in t.pins.held && x !in t.pins.stale ensures Pinned(t, c, x) {
      if x == e.cpu {
        assert PinnedBy(t, c, e.gpu, x);
      } else {
        assert Pinned(s, c, x);
        var k :| PinnedBy(s, c, k, x);
        assert PinnedBy(t, c, k, x);
      }
    }
  }

  lemma DeviceEntryKept(s: State, c: Config, e: Entry)
    requires PinInv(s, c) && !OnHost(e.kind, c) && e.gpu !in s.table
    ensures PinInv(s.(table := s.table[e.gpu := e]), c)
  {
    var t := s.(table := s.table[e.gpu := e]);
    SamePins(s, t, c);
  }

  /** What the pins say depends on the table's host entries and on the pins alone. */
  lemma SamePins(s: State, t: State, c: Config)
    requires PinInv(s, c) && s.pins == t.pins
    requires forall k, p :: PinnedBy(s, c, k, p) <==> PinnedBy(t, c, k, p)
    ensures PinInv(t, c)
  {
    forall x | x in t.pins.held && x !in t.pins.stale ensures Pinned(t, c, x) {
      assert Pinned(s, c, x);
      var k :| PinnedBy(s, c, k, x);
      assert PinnedBy(t, c, k, x);
    }
  }

  /** An entry of host memory goes; its pin is undone, or is stale from then on. */
  lemma GonePinKept(s: State, c: Config, addr: u64, t: State)
    requires PinInv(s, c) && addr in s.table && OnHost(s.table[addr].kind, c) && t.table == s.table - {addr}
    requires var p := s.table[addr].cpu;
      || t.pins == Pins(s.pins.held - {p}, s.pins.stale)
      || t.pins == Pins(s.pins.held, s.pins.stale + {p})
    ensures PinInv(t, c)
  {
    var p := s.table[addr].cpu;
    assert PinnedBy(s, c, addr, p);
    forall k, x | PinnedBy(t, c, k, x) ensures PinnedBy(s, c, k, x) && x != p {
      assert PinnedBy(s, c, k, x) && k != addr;
    }
    forall x | x in t.pins.held && x !in t.pins.stale ensures Pinned(t, c, x) {
      assert Pinned(s, c, x);
      var k :| PinnedBy(s, c, k, x);
      assert PinnedBy(t, c, k, x);
    }
  }

  lemma AllocKeepsPins(s: State, q: Request, c: Config, r: Answers)
    requires PinInv(s, c) && PinsOnce(s, DoAlloc(q, r), c)
    ensures PinInv(Alloc(s, q, c, r).0, c)
  {
    var t := Alloc(s, q, c, r).0;
    if Accepted(q, c) && r.address.Some? && OnHost(q.kind, c) && r.register {
      var b := r.address.value;
      var start := StartOf(b, q, c);
      if r.device.None? || r.device.value in s.table {
        StalePinKept(s, c, start);
        assert s.pins.held - {start} == s.pins.held;
        if t.pins == s.pins { SamePins(s, t, c); } else { SamePins(s.(pins := t.pins), t, c); }
      } else {
        var e := EntryOf(q, c, b, r);
        EntryPinKept(s, c, e);
        SamePins(s.(table := t.table, pins := t.pins), t, c);
      }
    } else if t.table != s.table {
      DeviceEntryKept(s, c, EntryOf(q, c, r.address.value, r));
      SamePins(s.(table := t.table), t, c);
    } else {
      SamePins(s, t, c);
    }
  }

  lemma FreeKeepsPins(s: State, addr: u64, unpin: bool, freed: bool, c: Config)
    requires PinInv(s, c)
    ensures PinInv(Free(s, addr, unpin, freed, c).0, c)
  {
    var t := Free(s, addr, unpin, freed, c).0;
    if addr != 0 && addr in s.table && OnHost(s.table[addr].kind, c) {
      GonePinKept(s, c, addr, t);
    } else {
      SamePins(s, t, c);
    }
  }

  predicate PinsOnceRun(es: seq<Event>, c: Config) {
    es != [] ==> PinsOnceRun(es[..|es| - 1], c) && PinsOnce(After(es[..|es| - 1], c), es[|es| - 1], c)
  }

  /** Over every run, whatever the drivers refuse: a pin is held by one entry of host memory, or is stale. */
  lemma {:induction false} PinsHold(es: seq<Event>, c: Config)
    requires PinsOnceRun(es, c)
    ensures PinInv(After(es, c), c)
  {
    if es != [] {
      var s, e := After(es[..|es| - 1], c), es[|es| - 1];
      PinsHold(es[..|es| - 1], c);
      match e
      case DoAlloc(q, r) => AllocKeepsPins(s, q, c, r);
      case DoFree(addr, unpin, freed) => FreeKeepsPins(s, addr, unpin, freed, c);
    }
  }

  /**
   What one step of an ordinary run adds to the stale pins: the fallback's, when its GPU address cannot be
   had or it is freed, and CPU_GPU memory's, when the driver refuses to unregister it.
   */
  function NewStale(s: State, e: Event, c: Config): set<u64> {
    match e
    case DoAlloc(q, r) =>
      if && Accepted(q, c) && r.address.Some? && r.register && r.device.None?
         && ((q.kind.GpuCpu? && !c.gdrcopy) || (q.kind.CpuGpu? && !r.unpin)) then {StartOf(r.address.value, q, c)} else {}
    case DoFree(addr, unpin, _) =>
      if addr == 0 || addr !in s.table then {}
      else
        match s.table[addr].kind
        case Gpu => {}
        case GpuCpu => if c.gdrcopy then {} else {s.table[addr].cpu}
        case CpuGpu => if unpin then {} else {s.table[addr].cpu}
  }

  lemma StaleIsExact(s: State, e: Event, c: Config)
    requires Within(s) && Sound(s, e, c) && Ordinary(e, c)
    ensures Next(s, e, c).pins.stale == s.pins.stale + NewStale(s, e, c)
  {
    if e.DoAlloc? && Accepted(e.q, c) && e.r.address.Some? && StepsWork(e.q, c, e.r) {
      KeyIsNew(s, e.q, c, e.r);
    }
  }

  function Stales(es: seq<Event>, c: Config): set<u64> {
    if es == [] then {} else Stales(es[..|es| - 1], c) + NewStale(After(es[..|es| - 1], c), es[|es| - 1], c)
  }

  lemma {:induction false} RunStales(es: seq<Event>, c: Config)
    requires SoundRun(es, c) && OrdinaryRun(es, c)
    ensures After(es, c).pins.stale == Stales(es, c)
  {
    if es != [] {
      assert es[|es| - 1] in es;
      RunStales(es[..|es| - 1], c);
      RunLosses(es[..|es| - 1], c);
      StaleIsExact(After(es[..|es| - 1], c), es[|es| - 1], c);
    }
  }

  /** Over every ordinary run: host memory is pinned exactly when one entry holds it or it went stale in those ways. */
  lemma PinsAreTable(es: seq<Event>, c: Config, p: u64)
    requires SoundRun(es, c) && OrdinaryRun(es, c) && PinsOnceRun(es, c)
    ensures p in After(es, c).pins.held <==> Pinned(After(es, c), c, p) || p in Stales(es, c)
  {
    PinsHold(es, c);
    RunStales(es, c);
  }

}
