/**
 The export of a queue pair, the proxy's progress calls on the exported object, and the
 service thread that repeats them over a set of queue pairs until none progresses.
 */
module ProxyService {
  import opened Bits
  import opened ByteOrder
  import opened Doorbell
  import opened Wrappers
  import P = ProxyProtocol

  datatype SendDbrMode = ValidDbr | NoDbrHw | NoDbrSwEmulated

  datatype NicHandler = Auto | CpuProxy | GpuSmDb | GpuSmBf | GpuSmNoDbr

  datatype Status = Success | NotSupported | DriverError

  // ---------- the export ----------

  /** What the export decides about the proxy. */
  datatype Settings = Settings(cpuProxy: bool, nicHandler: NicHandler, sqNumShift8Be: Bytes4)

  /**
   What the export depends on: the handler asked for, the doorbell-record mode asked for and the one
   the queue was created with, gdrcopy support, whether every query of the queues worked, whether the
   doorbell page could be given to the GPU, whether the shared index cell could be allocated, and the
   queue's number.
   */
  datatype Request = Request(
    handler: NicHandler, ext: SendDbrMode, createdNoDbr: bool, gdrcopy: bool, queries: bool, uar: bool, cell: bool, qpn: Qpn)

  predicate Refused(q: Request) {
    || (q.handler.GpuSmNoDbr? && q.ext.ValidDbr?)
    || (q.ext.NoDbrSwEmulated? && !q.gdrcopy)
    || !q.queries
    || (q.ext.ValidDbr? && q.createdNoDbr)
    || (q.ext.NoDbrHw? && !q.createdNoDbr)
    || (!q.handler.CpuProxy? && !q.handler.Auto? && !q.uar)
    || (FullProxy(q) && !q.cell)
  }

  /** The CPU rings for the GPU: asked for, or because the GPU cannot reach the doorbell page. */
  predicate FullProxy(q: Request) {
    q.handler.CpuProxy? || (q.handler.Auto? && !q.uar)
  }

  /** The handler in force. */
  function HandlerOf(q: Request): NicHandler {
    if FullProxy(q) then CpuProxy
    else if !q.handler.Auto? then q.handler
    else if q.createdNoDbr || q.ext.NoDbrSwEmulated? then GpuSmNoDbr
    else GpuSmDb
  }

  /** What an export is accepted for, record mode by record mode and handler by handler. */
  lemma AcceptedExports(q: Request)
    ensures !Refused(q) <==>
      && q.queries
      && (match q.ext
          case ValidDbr => !q.createdNoDbr && !q.handler.GpuSmNoDbr?
          case NoDbrHw => q.createdNoDbr
          case NoDbrSwEmulated => q.gdrcopy)
      && (match q.handler
          case CpuProxy => q.cell
          case Auto => q.uar || q.cell
          case _ => q.uar)
    ensures !Refused(q) && !q.handler.Auto? ==> HandlerOf(q) == q.handler
  {}

  /**
   Left to choose, the export gives the doorbells to the CPU exactly when the GPU cannot reach the page;
   else the GPU rings, with a record exactly in the mode that keeps valid ones.
   */
  lemma AutoPicks(q: Request)
    requires !Refused(q) && q.handler.Auto?
    ensures HandlerOf(q).CpuProxy? <==> !q.uar
    ensures HandlerOf(q).GpuSmDb? <==> q.uar && q.ext.ValidDbr?
    ensures HandlerOf(q).GpuSmNoDbr? <==> q.uar && !q.ext.ValidDbr?
  {}

  method ExportQp(q: Request) returns (r: Option<Settings>)
    ensures r.None? <==> Refused(q)
    ensures r.Some? ==>
              && (r.value.cpuProxy <==> FullProxy(q) || q.ext.NoDbrSwEmulated?)
              && r.value.nicHandler == HandlerOf(q)
              && r.value.sqNumShift8Be == HeldWord(FullProxy(q), q.qpn)
  {
    if q.handler.GpuSmNoDbr? && q.ext.ValidDbr? { return None; }
    if q.ext.NoDbrSwEmulated? && !q.gdrcopy { return None; }
    // The object is allocated zeroed.
    var cpuProxy, handler, word: Bytes4 := false, Auto, [0, 0, 0, 0];
    if !q.queries { return None; }
    if (q.ext.ValidDbr? && q.createdNoDbr) || (q.ext.NoDbrHw? && !q.createdNoDbr) { return None; }
    var mustProxy := false;
    if !q.handler.CpuProxy? && !q.uar && !q.handler.Auto? { return None; }
    if (!q.handler.CpuProxy? && !q.uar && q.handler.Auto?) || q.handler.CpuProxy? {
      if !q.cell { return None; }
      cpuProxy := true;
      word := QpnDsBytes(q.qpn, 0);
      handler := CpuProxy;
      mustProxy := true;
    }
    if !mustProxy {
      if q.ext.NoDbrSwEmulated? { cpuProxy := true; }
      if q.handler.Auto? {
        handler := if q.createdNoDbr || q.ext.NoDbrSwEmulated? then GpuSmNoDbr else GpuSmDb;
      } else {
        handler := q.handler;
      }
    }
    return Some(Settings(cpuProxy, handler, word));
  }

  /** The branch a progress call takes. */
  function ModeOf(ext: SendDbrMode, handler: NicHandler): Mode {
    if ext.NoDbrSwEmulated? && !handler.CpuProxy? then DbrAssisted
    else if ext.NoDbrHw? then FullAssistedNoDbrHw
    else FullAssisted
  }

  /**
   An exported queue pair with a proxy is a configuration of the protocol as its results assume it; its
   doorbells name its queue exactly when its handler is the CPU proxy, or its number is 0.
   */
  lemma ExportFitsProtocol(q: Request, slots: nat)
    requires !Refused(q) && (FullProxy(q) || q.ext.NoDbrSwEmulated?) && slots > 0
    ensures P.Config(ModeOf(q.ext, HandlerOf(q)), slots, q.qpn, HeldWord(FullProxy(q), q.qpn)).AsExported()
    ensures QpnOf(HeldWord(FullProxy(q), q.qpn)) == q.qpn <==> HandlerOf(q).CpuProxy? || q.qpn == 0
  {
    HeldWordNames(FullProxy(q), q.qpn);
  }

  /** Among exports with a proxy: the record and the fence are left out for the mode without records alone. */
  lemma ModeOfExport(q: Request)
    requires !Refused(q) && (FullProxy(q) || q.ext.NoDbrSwEmulated?)
    ensures ModeOf(q.ext, HandlerOf(q)).FullAssistedNoDbrHw? <==> q.ext.NoDbrHw?
    ensures ModeOf(q.ext, HandlerOf(q)).DbrAssisted? <==> !(q.handler.CpuProxy? || (q.handler.Auto? && !q.uar))
  {}

  /**
   Every accepted export with a proxy and a mode that keeps a record: over all its runs the record covers
   every fenced doorbell that reached the NIC, and at rest the record is the GPU's index and the latest
   call's fenced doorbell has reached the NIC.
   */
  lemma ExportedRecordIsKept(q: Request, slots: nat, run: seq<P.Event>)
    requires !Refused(q) && (FullProxy(q) || q.ext.NoDbrSwEmulated?) && !q.ext.NoDbrHw? && slots > 0
    requires P.IsRun(P.Config(ModeOf(q.ext, HandlerOf(q)), slots, q.qpn, HeldWord(FullProxy(q), q.qpn)), run)
    ensures var s := P.After(P.Config(ModeOf(q.ext, HandlerOf(q)), slots, q.qpn, HeldWord(FullProxy(q), q.qpn)), run);
      && s.fencedCall < |s.rung| && s.recordCall < |s.rung|
      && (s.fencedCall > 0 ==> s.recordCall >= 0 && s.rung[s.fencedCall] <= s.rung[s.recordCall])
      && (s.recordCall >= 0 ==> IndexOfRecord(s.record) == s.rung[s.recordCall] % 0x1_0000)
      && (!s.busy && s.buffer == [] && U32(s.producer) == s.last ==>
            IndexOfRecord(s.record) == s.producer % 0x1_0000 && s.fencedCall == |s.rung| - 1)
  {
    var c := P.Config(ModeOf(q.ext, HandlerOf(q)), slots, q.qpn, HeldWord(FullProxy(q), q.qpn));
    P.RecordCoversFencedDoorbell(c, run);
    P.RecordAtRestIsCurrent(c, run);
    P.FencedAtRest(c, run);
  }

  /** Queue 7 exported for the GPU with the record emulated in software: DBR-assisted, and its doorbells name queue 0. */
  lemma QueueSevenIsExported()
    ensures var q := Request(GpuSmNoDbr, NoDbrSwEmulated, false, true, true, true, true, 7);
      && !Refused(q) && ModeOf(q.ext, HandlerOf(q)) == DbrAssisted
      && HeldWord(FullProxy(q), q.qpn) == [0, 0, 0, 0] && QpnOf([0, 0, 0, 0]) == 0
  {}

  // ---------- the progress calls ----------

  predicate IsRecord(op: Operation, index: nat) {
    op.Store? && op.location.DoorbellRecord? && |op.word| == 4
    && 0x100 * (op.word[2] as nat) + op.word[3] == index % 0x1_0000 && op.word[0] == op.word[1] == 0
  }

  predicate IsDoorbell(op: Operation, index: nat, held: Bytes4) {
    op.Store? && op.location.DoorbellRegister? && |op.word| == 8
    && 0x100 * (op.word[1] as nat) + op.word[2] == index % 0x1_0000 && op.word[4..] == held
  }

  /** A record, a fence and a doorbell, in this order; `early` has the doorbell in front as well. */
  predicate RecordsThenRings(ops: seq<Operation>, index: nat, held: Bytes4, early: bool) {
    var k := if early then 1 else 0;
    && |ops| == k + 3
    && (early ==> IsDoorbell(ops[0], index, held))
    && IsRecord(ops[k], index) && ops[k + 1].ReleaseFence? && IsDoorbell(ops[k + 2], index, held)
  }

  lemma WordsOfCall(cell: u64, held: Bytes4)
    ensures IsRecord(Store(DoorbellRecord, RecordWord(U32(cell))), cell)
    ensures IsDoorbell(Store(DoorbellRegister, DoorbellWord(U32(cell), held)), cell, held)
  {
    BothCarryTheSameIndex(U32(cell), held);
    CastKeepsLowHalf(cell);
    RecordWordHigh(U32(cell));
  }

  lemma StoresOfCall(mode: Mode, cell: u64, held: Bytes4)
    ensures var ops := ProgressStores(mode, U32(cell), held);
      && (mode.FullAssisted? ==> RecordsThenRings(ops, cell, held, true))
      && (mode.DbrAssisted? ==> RecordsThenRings(ops, cell, held, false))
      && (mode.FullAssistedNoDbrHw? ==> |ops| == 1 && IsDoorbell(ops[0], cell, held))
  {
    WordsOfCall(cell, held);
  }

  /** The host side of an exported queue pair. */
  class VerbsQp {
    var cpuDb: u64                 // *cpu_db, written by the GPU
    var sqWqePiLast: u64
    var issued: seq<Operation>     // stores through sq_db and sq_dbrec and fences, in program order
    const cpuProxy: bool
    const sendDbrMode: SendDbrMode
    const nicHandler: NicHandler
    const sqNumShift8Be: Bytes4
    ghost var lastRead: nat        // tmp_db of the latest progress call
    ghost var polls: nat           // progress calls so far

    /** With the settings an export came to. */
    constructor (s: Settings, sendDbrMode: SendDbrMode)
      ensures cpuProxy == s.cpuProxy && nicHandler == s.nicHandler && sqNumShift8Be == s.sqNumShift8Be
      ensures this.sendDbrMode == sendDbrMode
      ensures cpuDb == 0 && sqWqePiLast == 0 && issued == [] && lastRead == 0 && polls == 0
    {
      cpuProxy, nicHandler, sqNumShift8Be := s.cpuProxy, s.nicHandler, s.sqNumShift8Be;
      this.sendDbrMode := sendDbrMode;
      cpuDb, sqWqePiLast, issued, lastRead, polls := 0, 0, [], 0, 0;
    }

    function ProxyMode(): Mode { ModeOf(sendDbrMode, nicHandler) }

    /** A poll now would ring. */
    predicate Pending()
      reads this
    {
      cpuProxy && U32(cpuDb) != sqWqePiLast
    }

    method StoreRelaxed(location: Location, word: seq<u8>)
      modifies this`issued
      ensures issued == old(issued) + [Store(location, word)]
    {
      issued := issued + [Store(location, word)];
    }

    method ThreadFenceRelease()
      modifies this`issued
      ensures issued == old(issued) + [ReleaseFence]
    {
      issued := issued + [ReleaseFence];
    }

    method ProgressFullAssisted() returns (progressed: bool)
      requires !ProxyMode().DbrAssisted?
      modifies this`issued, this`sqWqePiLast, this`lastRead
      ensures progressed <==> U32(cpuDb) != old(sqWqePiLast)
      ensures sqWqePiLast == lastRead == U32(cpuDb)
      ensures issued == old(issued) + if progressed then ProgressStores(ProxyMode(), U32(cpuDb), sqNumShift8Be) else []
      ensures progressed ==>
                var ops := issued[|old(issued)|..];
                if sendDbrMode.NoDbrHw? then |ops| == 1 && IsDoorbell(ops[0], cpuDb, sqNumShift8Be)
                else RecordsThenRings(ops, cpuDb, sqNumShift8Be, true)
    {
      StoresOfCall(ProxyMode(), cpuDb, sqNumShift8Be);
      progressed := false;
      var tmpDb: u32 := U32(cpuDb);
      lastRead := tmpDb;
      if tmpDb != sqWqePiLast {
        var ctrlSeg := DoorbellWord(tmpDb, sqNumShift8Be);
        if !sendDbrMode.NoDbrHw? {
          var dbrVal := RecordWord(tmpDb);
          StoreRelaxed(DoorbellRegister, ctrlSeg);
          StoreRelaxed(DoorbellRecord, dbrVal);
          ThreadFenceRelease();
        }
        StoreRelaxed(DoorbellRegister, ctrlSeg);
        sqWqePiLast := tmpDb;
        progressed := true;
      }
    }

    method ProgressDbrAssisted()
      requires ProxyMode().DbrAssisted?
      modifies this`issued, this`sqWqePiLast, this`lastRead
      ensures sqWqePiLast == lastRead == U32(cpuDb)
      ensures issued == old(issued) +
                        if U32(cpuDb) != old(sqWqePiLast) then ProgressStores(ProxyMode(), U32(cpuDb), sqNumShift8Be) else []
      ensures U32(cpuDb) != old(sqWqePiLast) ==>
                RecordsThenRings(issued[|old(issued)|..], cpuDb, sqNumShift8Be, false)
    {
      StoresOfCall(ProxyMode(), cpuDb, sqNumShift8Be);
      var tmpDb: u32 := U32(cpuDb);
      lastRead := tmpDb;
      if tmpDb != sqWqePiLast {
        StoreRelaxed(DoorbellRecord, RecordWord(tmpDb));
        ThreadFenceRelease();
        StoreRelaxed(DoorbellRegister, DoorbellWord(tmpDb, sqNumShift8Be));
        sqWqePiLast := tmpDb;
      }
    }

    /** One progress call; the DBR-assisted form never reports progress. */
    method Progress() returns (status: Status, progressed: bool)
      modifies this`issued, this`sqWqePiLast, this`lastRead, this`polls
      ensures polls == old(polls) + 1
      ensures status == if cpuProxy then Success else NotSupported
      ensures progressed <==> old(Pending()) && !ProxyMode().DbrAssisted?
      ensures cpuProxy ==> sqWqePiLast == lastRead == U32(cpuDb)
      ensures !cpuProxy ==> sqWqePiLast == old(sqWqePiLast)
      ensures issued == old(issued) +
                        if old(Pending()) then ProgressStores(ProxyMode(), U32(cpuDb), sqNumShift8Be) else []
      // What that comes to: nothing without news, one doorbell without records, else record, fence and doorbell.
      ensures !cpuProxy || cpuDb % TWO_32 == old(sqWqePiLast) ==> issued == old(issued)
      ensures cpuProxy && cpuDb % TWO_32 != old(sqWqePiLast) ==>
                var ops := issued[|old(issued)|..];
                if sendDbrMode.NoDbrHw? then |ops| == 1 && IsDoorbell(ops[0], cpuDb, sqNumShift8Be)
                else RecordsThenRings(ops, cpuDb, sqNumShift8Be, sendDbrMode.ValidDbr? || nicHandler.CpuProxy?)
    {
      StoresOfCall(ProxyMode(), cpuDb, sqNumShift8Be);
      progressed := false;
      polls := polls + 1;
      if !cpuProxy { return NotSupported, false; }
      if sendDbrMode.NoDbrSwEmulated? && !nicHandler.CpuProxy? {
        ProgressDbrAssisted();
      } else {
        progressed := ProgressFullAssisted();
      }
      status := Success;
    }

    /**
     The counters of a paused proxy go back to zero, unless the first device read fails; a later
     failure is reported but they stay reset.  The three flags say whether the first device read,
     the clearing of a record without a proxy, and the later device writes work.
     */
    method ResetTracking(deviceRead: bool, recordCleared: bool, deviceWrites: bool) returns (status: Status)
      modifies this
      ensures status == Success <==> deviceRead && (cpuProxy || recordCleared) && deviceWrites
      ensures status == Success || status == DriverError
      ensures !deviceRead ==> unchanged(this)
      ensures deviceRead ==> sqWqePiLast == 0
      ensures deviceRead && cpuProxy ==> cpuDb == 0 && !Pending() && issued == old(issued) + [Store(DoorbellRecord, Be32(0))]
      ensures !cpuProxy ==> cpuDb == old(cpuDb) && issued == old(issued)
    {
      if !deviceRead { return DriverError; }
      sqWqePiLast := 0;
      if cpuProxy {
        StoreRelaxed(DoorbellRecord, Be32(0));
        cpuDb := 0;
      } else if !recordCleared {
        return DriverError;
      }
      if !deviceWrites { return DriverError; }
      status := Success;
    }
  }

  datatype Post = Post(qp: VerbsQp, index: u64)

  /** The device side: the posts it will still make, in order. */
  class Gpu {
    var schedule: seq<Post>

    constructor (posts: seq<Post>)
      ensures schedule == posts
    {
      schedule := posts;
    }

    /** Some of the remaining posts happen here; any number of them may. */
    method RunsForAWhile(queues: set<VerbsQp>)
      requires forall p :: p in schedule ==> p.qp in queues
      modifies this, queues`cpuDb
      ensures |schedule| <= old(|schedule|)
      ensures forall p :: p in schedule ==> p.qp in queues
      ensures |schedule| == old(|schedule|) ==> forall q :: q in queues ==> q.cpuDb == old(q.cpuDb)
    {
      var n :| 0 <= n <= |schedule|;
      var i := 0;
      while i < n
        invariant 0 <= i <= n
        invariant |schedule| == old(|schedule|) - i
        invariant forall p :: p in schedule ==> p.qp in queues
        invariant i == 0 ==> forall q :: q in queues ==> q.cpuDb == old(q.cpuDb)
      {
        schedule[0].qp.cpuDb := schedule[0].index;
        schedule := schedule[1..];
        i := i + 1;
      }
    }
  }

  ghost predicate AnyPending(qps: set<VerbsQp>)
    reads qps
  {
    exists q :: q in qps && q.Pending()
  }

  /** Bounds the passes still to come: every post can cause at most two. */
  ghost function PassesLeft(qps: set<VerbsQp>, posts: nat): nat
    reads qps
  {
    2 * posts + if AnyPending(qps) then 1 else 0
  }

  class Service {
    var qps: set<VerbsQp>

    constructor ()
      ensures qps == {}
    {
      qps := {};
    }

    method MonitorQp(qp: VerbsQp)
      modifies this`qps
      ensures qps == old(qps) + {qp}
    {
      qps := qps + {qp};
    }

    /** One sweep over the set; the GPU may post before every poll. */
    method Sweep(gpu: Gpu) returns (progressed: bool)
      requires forall p :: p in gpu.schedule ==> p.qp in qps
      modifies gpu, qps
      ensures |gpu.schedule| <= old(|gpu.schedule|)
      ensures forall p :: p in gpu.schedule ==> p.qp in qps
      ensures forall q :: q in qps ==> q.polls == old(q.polls) + 1
      ensures forall q :: q in qps && q.cpuProxy ==> q.sqWqePiLast == q.lastRead
      ensures !progressed ==> forall q :: q in qps && q.cpuProxy && !q.ProxyMode().DbrAssisted? ==>
                q.issued == old(q.issued) && q.sqWqePiLast == old(q.sqWqePiLast)
      ensures |gpu.schedule| == old(|gpu.schedule|) ==> !AnyPending(qps) && (progressed ==> old(AnyPending(qps)))
    {
      progressed := false;
      var todo := qps;
      while todo != {}
        invariant todo <= qps
        invariant |gpu.schedule| <= old(|gpu.schedule|)
        invariant forall p :: p in gpu.schedule ==> p.qp in qps
        invariant forall q :: q in todo ==>
                    q.sqWqePiLast == old(q.sqWqePiLast) && q.issued == old(q.issued) && q.polls == old(q.polls)
        invariant forall q :: q in qps - todo ==> q.polls == old(q.polls) + 1
        invariant forall q :: q in qps - todo && q.cpuProxy ==> q.sqWqePiLast == q.lastRead
        invariant !progressed ==> forall q :: q in qps && q.cpuProxy && !q.ProxyMode().DbrAssisted? ==>
                    q.issued == old(q.issued) && q.sqWqePiLast == old(q.sqWqePiLast)
        invariant |gpu.schedule| == old(|gpu.schedule|) ==>
                    && (forall q :: q in qps ==> q.cpuDb == old(q.cpuDb))
                    && (forall q :: q in qps - todo ==> !q.Pending())
                    && (progressed ==> old(AnyPending(qps)))
        decreases |todo|
      {
        var qp :| qp in todo;
        gpu.RunsForAWhile(qps);
        var status, qpProgressed := qp.Progress();
        progressed := progressed || qpProgressed;
        todo := todo - {qp};
      }
    }

    /**
     The inner loop of the service thread: it ends, after at most two passes per
     post still to come and two more, and its last pass found nothing to ring.
     */
    method SweepUntilIdle(gpu: Gpu) returns (passes: nat, ghost before: map<VerbsQp, u64>, ghost quiet: bool)
      requires forall p :: p in gpu.schedule ==> p.qp in qps
      modifies gpu, qps
      ensures passes <= 2 * old(|gpu.schedule|) + 2
      // Every queue was polled once in every pass.
      ensures forall q :: q in qps ==> q.polls == old(q.polls) + passes
      // What each queue's last pass read is what was already recorded when that pass began.
      ensures forall q :: q in qps && q.cpuProxy && !q.ProxyMode().DbrAssisted? ==>
                q in before && before[q] == q.sqWqePiLast == q.lastRead
      // If the GPU made no post during the last pass, nothing at all is pending.
      ensures quiet ==> !AnyPending(qps)
      ensures old(gpu.schedule) == [] ==> quiet
    {
      var progressed := true;
      passes, before, quiet := 0, map[], false;
      while progressed
        invariant forall p :: p in gpu.schedule ==> p.qp in qps
        invariant |gpu.schedule| <= old(|gpu.schedule|)
        invariant progressed ==> passes + PassesLeft(qps, |gpu.schedule|) <= 2 * old(|gpu.schedule|) + 1
        invariant passes <= 2 * old(|gpu.schedule|) + 2
        invariant forall q :: q in qps ==> q.polls == old(q.polls) + passes
        invariant !progressed ==> forall q :: q in qps && q.cpuProxy && !q.ProxyMode().DbrAssisted? ==>
                    q in before && before[q] == q.sqWqePiLast == q.lastRead
        invariant quiet ==> !AnyPending(qps)
        invariant !progressed ==> passes > 0
        invariant passes > 0 && old(gpu.schedule) == [] ==> quiet
        decreases progressed, PassesLeft(qps, |gpu.schedule|)
      {
        before := map q | q in qps :: q.sqWqePiLast;
        ghost var left := |gpu.schedule|;
        progressed := Sweep(gpu);
        quiet := |gpu.schedule| == left;
        passes := passes + 1;
      }
    }
  }

}
