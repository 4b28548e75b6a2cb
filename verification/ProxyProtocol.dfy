/**
 The CPU proxy, the GPU and the NIC as one transition system.

 The GPU advances a shared producer index; the proxy polls it, cuts it to 32 bits
 and issues the stores of one progress call one at a time into a store buffer; the
 buffer reaches memory in any order that keeps each location's stores in order and
 lets nothing past a release fence (fences: section 29.8 of ISO/IEC 14882:2011).
 The GPU and the NIC are the environment: the index never goes back and is at most
 `slots` ahead of what the NIC has completed.

 `rung`, `recordCall`, `nicCall`, `fencedCall` and `heardCall` are history: they number
 the progress calls since the last reset and say which call each observed word came from.
 The clearing of the record by that reset counts as call 0.
 */
module ProxyProtocol {
  import opened Bits
  import opened ByteOrder
  import opened Doorbell

  /** `slots` is the ring size, `qpn` the queue's number, `qpnDs` the second half of every doorbell. */
  datatype Config = Config(mode: Mode, slots: nat, qpn: Qpn, qpnDs: Bytes4) {
    /** The NIC takes a doorbell for this queue only if it names this queue. */
    predicate NamesQueue() { QpnOf(qpnDs) == qpn }

    /** What the export leaves in the object. */
    predicate AsExported() { slots > 0 && qpnDs == HeldWord(!mode.DbrAssisted?, qpn) }
  }

  /** A store or fence on its way to memory, and the call that issued it. */
  datatype Pending = Pending(op: Operation, call: nat, fenced: bool)

  datatype State = State(
    producer: u64,           // *cpu_db
    last: nat,               // sq_wqe_pi_last
    polled: u32,             // tmp_db of the call in progress
    busy: bool,              // between the poll and the update of sq_wqe_pi_last
    todo: seq<Pending>,      // stores the call in progress has yet to issue
    buffer: seq<Pending>,    // issued, not yet in memory
    record: Bytes4,          // *sq_dbrec
    nicIndex: nat,           // full index the NIC has inferred from doorbells
    completed: nat,          // slots the NIC has finished with
    rung: seq<nat>,          // index rung by each call; rung[0] is the reset value
    recordCall: int,         // call whose record is in memory; -1 while it is from before the reset
    nicCall: nat,            // call of the last doorbell the NIC took for this queue
    fencedCall: nat,         // call of the last post-fence doorbell that reached the NIC
    heardCall: nat           // the same, of those the NIC took for this queue
  )

  datatype Event =
    | GpuPost(index: u64)
    | Poll
    | Issue
    | Finish
    | Commit(at: nat)
    | RetireFence
    | NicComplete(upTo: nat)
    | Reset

  /** The store by which a reset clears the record. */
  const CLEAR: Pending := Pending(Store(DoorbellRecord, [0, 0, 0, 0]), 0, false)

  const INIT: State :=
    State(0, 0, 0, false, [], [], [0, 0, 0, 0], 0, 0, [0], 0, 0, 0, 0)

  // ---------- the transitions ----------

  predicate IsStoreTo(p: Pending, l: Location) {
    p.op.Store? && p.op.location == l
  }

  function Remove<T>(q: seq<T>, m: nat): (r: seq<T>)
    requires m < |q|
    ensures |r| == |q| - 1
    ensures forall i :: 0 <= i < |r| ==> r[i] == q[if i < m then i else i + 1]
  {
    q[..m] + q[m + 1..]
  }

  /** Neither a fence nor an earlier store to the same location is still in front. */
  predicate MayCommit(buffer: seq<Pending>, m: nat) {
    && m < |buffer|
    && buffer[m].op.Store?
    && forall j :: 0 <= j < m ==> buffer[j].op.Store? && buffer[j].op.location != buffer[m].op.location
  }

  predicate Enabled(c: Config, s: State, e: Event) {
    match e
    case GpuPost(index) => s.producer <= index <= s.completed + c.slots
    case Poll => !s.busy
    case Issue => s.todo != []
    case Finish => s.busy && s.todo == []
    case Commit(m) => MayCommit(s.buffer, m)
    case RetireFence => s.buffer != [] && s.buffer[0].op.ReleaseFence?
    // In DBR-assisted mode the GPU rings the NIC itself, so completions follow the GPU's index.
    case NicComplete(n) => s.completed <= n <= if c.mode.DbrAssisted? then s.producer else s.nicIndex
    // The proxy is paused and the reset's first driver call has drained its stores.
    case Reset => !s.busy && s.buffer == []
  }

  function Tagged(ops: seq<Operation>, call: nat): (r: seq<Pending>)
    ensures |r| == |ops|
    ensures forall i :: 0 <= i < |ops| ==> r[i] == Pending(ops[i], call, ReleaseFence in ops[..i])
  {
    seq(|ops|, i requires 0 <= i < |ops| => Pending(ops[i], call, ReleaseFence in ops[..i]))
  }

  function Apply(c: Config, s: State, e: Event): State
    requires Enabled(c, s, e)
  {
    match e
    case GpuPost(index) => s.(producer := index)
    case Poll =>
      var tmp := U32(s.producer);
      if tmp == s.last then s
      else s.(busy := true, polled := tmp,
              todo := Tagged(ProgressStores(c.mode, tmp, c.qpnDs), |s.rung|),
              rung := s.rung + [s.producer])
    case Issue => s.(buffer := s.buffer + [s.todo[0]], todo := s.todo[1..])
    case Finish => s.(last := s.polled, busy := false)
    case Commit(m) => Landed(c, s, s.buffer[m]).(buffer := Remove(s.buffer, m))
    case RetireFence => s.(buffer := Remove(s.buffer, 0))
    case NicComplete(n) => s.(completed := n)
    // The program clears its counters and issues the store that clears the record; the caller cycles the
    // queue through RST.
    case Reset =>
      s.(producer := 0, last := 0, polled := 0, todo := [], buffer := [CLEAR],
         nicIndex := 0, completed := 0, rung := [0], recordCall := -1, nicCall := 0, fencedCall := 0, heardCall := 0)
  }

  predicate Named(c: Config, word: seq<u8>) {
    |word| == 8 && QpnOf(word[4..]) == c.qpn
  }

  /** A store reaches memory: the record changes, or a doorbell reaches the NIC, which takes it if it names this queue. */
  function Landed(c: Config, s: State, p: Pending): State
    requires p.op.Store?
  {
    match p.op.location
    case DoorbellRecord => s.(record := if |p.op.word| == 4 then p.op.word else s.record, recordCall := p.call)
    case DoorbellRegister =>
      s.(nicIndex := if Named(c, p.op.word) then Recover(s.nicIndex, IndexOfDoorbell(p.op.word)) else s.nicIndex,
         nicCall := if Named(c, p.op.word) then p.call else s.nicCall,
         fencedCall := if p.fenced then p.call else s.fencedCall,
         heardCall := if p.fenced && Named(c, p.op.word) then p.call else s.heardCall)
  }

  // ---------- runs ----------

  ghost predicate IsRun(c: Config, run: seq<Event>)
    decreases |run|, 0
  {
    run != [] ==>
      var before := run[..|run| - 1];
      IsRun(c, before) && Enabled(c, After(c, before), run[|run| - 1])
  }

  ghost function After(c: Config, run: seq<Event>): State
    requires IsRun(c, run)
    decreases |run|, 1
  {
    if run == [] then INIT
    else Apply(c, After(c, run[..|run| - 1]), run[|run| - 1])
  }

  // ---------- what every reachable state satisfies ----------

  /** Everything not yet in memory, oldest first. */
  function InFlight(s: State): seq<Pending> { s.buffer + s.todo }

  ghost predicate CallsOrdered(q: seq<Pending>) {
    forall i, j :: 0 <= i < j < |q| ==>
      && q[i].call <= q[j].call
      && (IsStoreTo(q[i], DoorbellRecord) && IsStoreTo(q[j], DoorbellRecord) ==> q[i].call < q[j].call)
  }

  ghost predicate WordsMatch(c: Config, q: seq<Pending>, rung: seq<nat>) {
    forall i :: 0 <= i < |q| ==>
      && q[i].call < |rung|
      && (IsStoreTo(q[i], DoorbellRegister) ==> 0 < q[i].call && q[i].op.word == DoorbellWord(U32(rung[q[i].call]), c.qpnDs))
      && (IsStoreTo(q[i], DoorbellRecord) ==> q[i].op.word == RecordWord(U32(rung[q[i].call])))
  }

  ghost predicate RecordBehind(q: seq<Pending>, recordCall: int) {
    forall i :: 0 <= i < |q| && IsStoreTo(q[i], DoorbellRecord) ==> recordCall < q[i].call
  }

  /** At `j` the record store of the doorbell at `i`, and at `k` a fence between them. */
  ghost predicate RecordThenFence(q: seq<Pending>, j: nat, k: nat, i: nat) {
    j < k < i < |q| && IsStoreTo(q[j], DoorbellRecord) && q[j].call == q[i].call && q[k].op.ReleaseFence?
  }

  ghost predicate FencedDoorbellsCovered(q: seq<Pending>, recordCall: int) {
    forall i :: 0 <= i < |q| && IsStoreTo(q[i], DoorbellRegister) && q[i].fenced ==>
      q[i].call <= recordCall || exists j: nat, k: nat :: RecordThenFence(q, j, k, i)
  }

  ghost predicate Nondecreasing(rung: seq<nat>) {
    forall i, j :: 0 <= i <= j < |rung| ==> rung[i] <= rung[j]
  }

  /** The record in memory is of this call or a later one; call 0 is the reset, whose record may be on its way. */
  predicate Covered(call: nat, recordCall: int) {
    call <= recordCall || call == 0
  }

  /** What the record in memory says, or the store in front that will overwrite what was there before the reset. */
  predicate RecordIs(s: State) {
    -1 <= s.recordCall < |s.rung| &&
    if s.recordCall < 0 then s.buffer != [] && s.buffer[0] == CLEAR
    else s.record == RecordWord(U32(s.rung[s.recordCall]))
  }

  ghost predicate StoreOrderInv(c: Config, s: State) {
    var q := InFlight(s);
    && |s.rung| > 0 && Nondecreasing(s.rung) && s.rung[|s.rung| - 1] <= s.producer
    && (s.busy || s.todo == [])
    && CallsOrdered(q) && WordsMatch(c, q, s.rung)
    && RecordBehind(q, s.recordCall) && FencedDoorbellsCovered(q, s.recordCall)
    && Covered(s.heardCall, s.recordCall) && Covered(s.fencedCall, s.recordCall)
    && (c.NamesQueue() ==> s.heardCall == s.fencedCall)
    && RecordIs(s)
  }

  ghost predicate DoorbellsAhead(q: seq<Pending>, nicCall: nat) {
    forall i :: 0 <= i < |q| && IsStoreTo(q[i], DoorbellRegister) ==> nicCall <= q[i].call
  }

  ghost predicate LatestStillInFlight(q: seq<Pending>, latest: nat) {
    exists i :: 0 <= i < |q| && IsStoreTo(q[i], DoorbellRegister) && q[i].call == latest
  }

  /** Full-assisted only: the NIC's index is exact, and nothing rung is forgotten. */
  ghost predicate IndexInv(c: Config, s: State)
    requires |s.rung| > 0
  {
    var latest: nat := |s.rung| - 1;
    && s.nicCall < |s.rung| && s.nicIndex == s.rung[s.nicCall]
    && s.completed <= s.nicIndex && s.producer <= s.completed + c.slots
    && DoorbellsAhead(InFlight(s), s.nicCall)
    && (s.nicCall == latest || LatestStillInFlight(InFlight(s), latest))
    && (if s.busy then s.polled else s.last) == U32(s.rung[latest])
  }

  lemma InitInv(c: Config)
    ensures StoreOrderInv(c, INIT) && IndexInv(c, INIT)
  {
    assert INIT.record == RecordWord(U32(INIT.rung[0]));
  }

  /** A reset of the paused proxy is as good as the start, with the old record still to be overwritten. */
  lemma ResetKeepsInv(c: Config, s: State)
    requires Enabled(c, s, Reset)
    ensures StoreOrderInv(c, Apply(c, s, Reset)) && IndexInv(c, Apply(c, s, Reset))
  {
    var t := Apply(c, s, Reset);
    assert InFlight(t) == [CLEAR];
    assert CLEAR.op.word == RecordWord(U32(t.rung[0]));
  }

  lemma RemoveKeepsOrder(c: Config, q: seq<Pending>, m: nat, rung: seq<nat>)
    requires m < |q| && CallsOrdered(q) && WordsMatch(c, q, rung)
    ensures CallsOrdered(Remove(q, m)) && WordsMatch(c, Remove(q, m), rung)
  {}

  lemma RemoveKeepsCover(q: seq<Pending>, m: nat, before: int, after: int)
    requires m < |q| && before <= after && FencedDoorbellsCovered(q, before)
    requires q[m].op.Store? || m == 0
    requires IsStoreTo(q[m], DoorbellRecord) ==> after == q[m].call
    ensures FencedDoorbellsCovered(Remove(q, m), after)
  {
    var r := Remove(q, m);
    forall i | 0 <= i < |r| && IsStoreTo(r[i], DoorbellRegister) && r[i].fenced
      ensures r[i].call <= after || exists j: nat, k: nat :: RecordThenFence(r, j, k, i)
    {
      var i0 := if i < m then i else i + 1;
      if q[i0].call > before {
        var j: nat, k: nat :| RecordThenFence(q, j, k, i0);
        if j != m {
          RecordThenFenceShifts(q, m, j, k, i0);
        }
      }
    }
  }

  lemma RecordThenFenceShifts(q: seq<Pending>, m: nat, j: nat, k: nat, i: nat)
    requires m < |q| && RecordThenFence(q, j, k, i) && m != j && m != k && m != i
    ensures RecordThenFence(Remove(q, m), Shifted(j, m), Shifted(k, m), Shifted(i, m))
  {}

  /** Where position `i` goes when position `m` is removed. */
  function Shifted(i: nat, m: nat): nat {
    if i <= m then i else i - 1
  }

  lemma RemoveSplits(s: State, m: nat)
    requires m < |s.buffer|
    ensures Remove(s.buffer, m) + s.todo == Remove(InFlight(s), m)
  {}

  lemma CommitKeepsStoreOrder(c: Config, s: State, m: nat)
    requires StoreOrderInv(c, s) && MayCommit(s.buffer, m)
    ensures StoreOrderInv(c, Apply(c, s, Commit(m)))
  {
    assert InFlight(s)[m] == s.buffer[m];
    RemoveSplits(s, m);
    RemoveKeepsOrder(c, InFlight(s), m, s.rung);
    if IsStoreTo(s.buffer[m], DoorbellRecord) {
      RemoveKeepsCover(InFlight(s), m, s.recordCall, s.buffer[m].call);
    } else {
      CommitDoorbellKeepsOrder(c, s, m);
    }
  }

  lemma CommitDoorbellKeepsOrder(c: Config, s: State, m: nat)
    requires StoreOrderInv(c, s) && MayCommit(s.buffer, m) && IsStoreTo(s.buffer[m], DoorbellRegister)
    ensures StoreOrderInv(c, Apply(c, s, Commit(m)))
  {
    var q, p := InFlight(s), s.buffer[m];
    assert q[m] == p;
    RemoveSplits(s, m);
    RemoveKeepsOrder(c, q, m, s.rung);
    RemoveKeepsCover(q, m, s.recordCall, s.recordCall);
    WordNames(c, U32(s.rung[p.call]));
    NoFenceInFront(s, m);
  }

  /** A fence still in front of a store would have held it back. */
  lemma NoFenceInFront(s: State, m: nat)
    requires MayCommit(s.buffer, m)
    ensures forall j: nat, k: nat :: !RecordThenFence(InFlight(s), j, k, m)
  {
    assert forall k: nat :: k < m ==> InFlight(s)[k] == s.buffer[k];
  }

  lemma LatestKept(q: seq<Pending>, m: nat, latest: nat)
    requires m < |q| && LatestStillInFlight(q, latest)
    requires !(IsStoreTo(q[m], DoorbellRegister) && q[m].call == latest)
    ensures LatestStillInFlight(Remove(q, m), latest)
  {
    var i :| 0 <= i < |q| && IsStoreTo(q[i], DoorbellRegister) && q[i].call == latest;
    assert Remove(q, m)[Shifted(i, m)] == q[i];
  }

  lemma AheadAfterDoorbell(q: seq<Pending>, m: nat)
    requires m < |q| && CallsOrdered(q)
    requires forall i :: 0 <= i < m ==> !IsStoreTo(q[i], DoorbellRegister)
    ensures DoorbellsAhead(Remove(q, m), q[m].call)
  {}

  lemma WordNames(c: Config, tmp: u32)
    ensures Named(c, DoorbellWord(tmp, c.qpnDs)) <==> c.NamesQueue()
  {
    BothCarryTheSameIndex(tmp, c.qpnDs);
  }

  lemma NicInfersIndex(c: Config, s: State, p: Pending)
    requires StoreOrderInv(c, s) && IndexInv(c, s) && c.slots < 0x1_0000 && c.NamesQueue()
    requires IsStoreTo(p, DoorbellRegister) && s.nicCall <= p.call < |s.rung|
    requires p.op.word == DoorbellWord(U32(s.rung[p.call]), c.qpnDs)
    ensures Landed(c, s, p).nicIndex == s.rung[p.call] >= s.nicIndex && Landed(c, s, p).nicCall == p.call
  {
    var index := s.rung[p.call];
    WordNames(c, U32(index));
    assert s.nicIndex <= index <= s.producer;
    RecoverFromEitherWord(s.nicIndex, index, c.slots, c.qpnDs);
  }

  lemma CommitRecordKeepsIndex(c: Config, s: State, m: nat)
    requires |s.rung| > 0 && IndexInv(c, s) && MayCommit(s.buffer, m) && IsStoreTo(s.buffer[m], DoorbellRecord)
    ensures IndexInv(c, Apply(c, s, Commit(m)))
  {
    RemoveSplits(s, m);
    if s.nicCall != |s.rung| - 1 {
      LatestKept(InFlight(s), m, |s.rung| - 1);
    }
  }

  lemma CommitDoorbellKeepsIndex(c: Config, s: State, m: nat)
    requires |s.rung| > 0 && IndexInv(c, s) && MayCommit(s.buffer, m) && IsStoreTo(s.buffer[m], DoorbellRegister)
    requires CallsOrdered(InFlight(s)) && s.buffer[m].call < |s.rung|
    requires Landed(c, s, s.buffer[m]).nicIndex == s.rung[s.buffer[m].call] >= s.nicIndex
    requires Landed(c, s, s.buffer[m]).nicCall == s.buffer[m].call
    ensures IndexInv(c, Apply(c, s, Commit(m)))
  {
    var q, p := InFlight(s), s.buffer[m];
    RemoveSplits(s, m);
    assert q[m] == p;
    NoDoorbellInFront(s, m);
    AheadAfterDoorbell(q, m);
    if p.call != |s.rung| - 1 {
      LatestKept(q, m, |s.rung| - 1);
    }
  }

  lemma CommitKeepsIndex(c: Config, s: State, m: nat)
    requires StoreOrderInv(c, s) && IndexInv(c, s) && MayCommit(s.buffer, m) && c.slots < 0x1_0000 && c.NamesQueue()
    ensures IndexInv(c, Apply(c, s, Commit(m)))
  {
    var p := s.buffer[m];
    assert InFlight(s)[m] == p;
    if IsStoreTo(p, DoorbellRegister) {
      NicInfersIndex(c, s, p);
      CommitDoorbellKeepsIndex(c, s, m);
    } else {
      CommitRecordKeepsIndex(c, s, m);
    }
  }

  lemma NoDoorbellInFront(s: State, m: nat)
    requires MayCommit(s.buffer, m) && IsStoreTo(s.buffer[m], DoorbellRegister)
    ensures forall i :: 0 <= i < m ==> !IsStoreTo(InFlight(s)[i], DoorbellRegister)
  {
    assert forall i :: 0 <= i < m ==> InFlight(s)[i] == s.buffer[i];
  }

  lemma RetireKeepsStoreOrder(c: Config, s: State)
    requires StoreOrderInv(c, s) && Enabled(c, s, RetireFence)
    ensures StoreOrderInv(c, Apply(c, s, RetireFence))
  {
    var q := InFlight(s);
    RemoveSplits(s, 0);
    RemoveKeepsOrder(c, q, 0, s.rung);
    RemoveKeepsCover(q, 0, s.recordCall, s.recordCall);
  }

  lemma RetireKeepsIndex(c: Config, s: State)
    requires |s.rung| > 0 && IndexInv(c, s) && Enabled(c, s, RetireFence)
    ensures IndexInv(c, Apply(c, s, RetireFence))
  {
    var q := InFlight(s);
    var latest: nat := |s.rung| - 1;
    RemoveSplits(s, 0);
    if s.nicCall != latest {
      LatestKept(q, 0, latest);
    }
  }

  // ---------- a new progress call ----------

  /** The stores of one call, with the fence's effect written out. */
  function CallStores(c: Config, tmp: u32, call: nat): seq<Pending> {
    var ring := Store(DoorbellRegister, DoorbellWord(tmp, c.qpnDs));
    var record := Store(DoorbellRecord, RecordWord(tmp));
    match c.mode
    case FullAssisted => [Pending(ring, call, false), Pending(record, call, false),
                          Pending(ReleaseFence, call, false), Pending(ring, call, true)]
    case FullAssistedNoDbrHw => [Pending(ring, call, false)]
    case DbrAssisted => [Pending(record, call, false), Pending(ReleaseFence, call, false), Pending(ring, call, true)]
  }

  lemma CallShape(c: Config, tmp: u32, call: nat)
    ensures Tagged(ProgressStores(c.mode, tmp, c.qpnDs), call) == CallStores(c, tmp, call)
  {
    var ops := ProgressStores(c.mode, tmp, c.qpnDs);
    assert forall i :: 0 <= i <= |ops| && i <= 2 && !c.mode.DbrAssisted? ==> ReleaseFence !in ops[..i];
    assert c.mode.FullAssisted? ==> ops[..3][2] == ReleaseFence;
    assert c.mode.DbrAssisted? ==> ops[..2][1] == ReleaseFence;
  }

  lemma AppendedInOrder(c: Config, q: seq<Pending>, added: seq<Pending>, rung: seq<nat>, index: u64)
    requires |rung| > 0 && CallsOrdered(q) && WordsMatch(c, q, rung)
    requires added == Tagged(ProgressStores(c.mode, U32(index), c.qpnDs), |rung|)
    ensures CallsOrdered(q + added) && WordsMatch(c, q + added, rung + [index])
  {
    CallShape(c, U32(index), |rung|);
  }

  lemma AppendedCovered(c: Config, q: seq<Pending>, added: seq<Pending>, tmp: u32, call: nat, recordCall: int)
    requires FencedDoorbellsCovered(q, recordCall)
    requires added == Tagged(ProgressStores(c.mode, tmp, c.qpnDs), call)
    ensures FencedDoorbellsCovered(q + added, recordCall)
  {
    CallShape(c, tmp, call);
    var q' := q + added;
    forall i | 0 <= i < |q'| && IsStoreTo(q'[i], DoorbellRegister) && q'[i].fenced
      ensures q'[i].call <= recordCall || exists j: nat, k: nat :: RecordThenFence(q', j, k, i)
    {
      if i < |q| {
        if q[i].call > recordCall {
          var j: nat, k: nat :| RecordThenFence(q, j, k, i);
          assert RecordThenFence(q', j, k, i);
        }
      } else {
        assert RecordThenFence(q', i - 2, i - 1, i);
      }
    }
  }

  lemma PollKeepsStoreOrder(c: Config, s: State)
    requires StoreOrderInv(c, s) && Enabled(c, s, Poll) && U32(s.producer) != s.last
    ensures StoreOrderInv(c, Apply(c, s, Poll))
    ensures InFlight(Apply(c, s, Poll)) ==
            InFlight(s) + Tagged(ProgressStores(c.mode, U32(s.producer), c.qpnDs), |s.rung|)
  {
    var tmp := U32(s.producer);
    var q := InFlight(s);
    var added := Tagged(ProgressStores(c.mode, tmp, c.qpnDs), |s.rung|);
    assert InFlight(Apply(c, s, Poll)) == q + added;
    AppendedInOrder(c, q, added, s.rung, s.producer);
    AppendedCovered(c, q, added, tmp, |s.rung|, s.recordCall);
    CallShape(c, tmp, |s.rung|);
  }

  lemma PollKeepsIndex(c: Config, s: State, added: seq<Pending>)
    requires |s.rung| > 0 && IndexInv(c, s) && Enabled(c, s, Poll) && U32(s.producer) != s.last
    requires !c.mode.DbrAssisted? && added == Tagged(ProgressStores(c.mode, U32(s.producer), c.qpnDs), |s.rung|)
    requires InFlight(Apply(c, s, Poll)) == InFlight(s) + added
    ensures IndexInv(c, Apply(c, s, Poll))
  {
    CallShape(c, U32(s.producer), |s.rung|);
    var q' := InFlight(s) + added;
    var i := |q'| - 1;
    assert IsStoreTo(q'[i], DoorbellRegister) && q'[i].call == |s.rung|;
  }

  lemma StepKeepsStoreOrder(c: Config, s: State, e: Event)
    requires StoreOrderInv(c, s) && Enabled(c, s, e)
    ensures StoreOrderInv(c, Apply(c, s, e))
  {
    match e
    case Poll =>
      if U32(s.producer) != s.last { PollKeepsStoreOrder(c, s); }
    case Commit(m) => CommitKeepsStoreOrder(c, s, m);
    case RetireFence => RetireKeepsStoreOrder(c, s);
    case Reset => ResetKeepsInv(c, s);
    case _ =>
      assert InFlight(Apply(c, s, e)) == InFlight(s);
  }

  lemma StepKeepsIndex(c: Config, s: State, e: Event)
    requires StoreOrderInv(c, s) && IndexInv(c, s) && Enabled(c, s, e)
    requires !c.mode.DbrAssisted? && c.slots < 0x1_0000 && c.NamesQueue()
    requires |Apply(c, s, e).rung| > 0
    ensures IndexInv(c, Apply(c, s, e))
  {
    match e
    case Poll =>
      if U32(s.producer) != s.last {
        PollKeepsStoreOrder(c, s);
        PollKeepsIndex(c, s, Tagged(ProgressStores(c.mode, U32(s.producer), c.qpnDs), |s.rung|));
      }
    case Commit(m) => CommitKeepsIndex(c, s, m);
    case RetireFence => RetireKeepsIndex(c, s);
    case Reset => ResetKeepsInv(c, s);
    case _ =>
      assert InFlight(Apply(c, s, e)) == InFlight(s);
  }

  lemma {:induction false} RunKeepsStoreOrder(c: Config, run: seq<Event>)
    requires IsRun(c, run)
    ensures StoreOrderInv(c, After(c, run))
    decreases |run|
  {
    if run == [] {
      InitInv(c);
    } else {
      var before := run[..|run| - 1];
      RunKeepsStoreOrder(c, before);
      StepKeepsStoreOrder(c, After(c, before), run[|run| - 1]);
    }
  }

  lemma {:induction false} RunKeepsIndex(c: Config, run: seq<Event>)
    requires IsRun(c, run) && !c.mode.DbrAssisted? && c.slots < 0x1_0000 && c.NamesQueue()
    ensures StoreOrderInv(c, After(c, run)) && IndexInv(c, After(c, run))
    decreases |run|
  {
    RunKeepsStoreOrder(c, run);
    if run == [] {
      InitInv(c);
    } else {
      var before := run[..|run| - 1];
      RunKeepsIndex(c, before);
      StepKeepsIndex(c, After(c, before), run[|run| - 1]);
    }
  }

  // ---------- the results ----------

  /**
   Once the post-fence doorbell of a call has reached the NIC, the record in memory is
   that call's or a later one's, and says so in its sixteen bits; for any ring size
   and any commit order.  The doorbells the NIC took for this queue are among those.
   Only between a reset and the landing of its own store is the record an older one.
   */
  lemma RecordCoversFencedDoorbell(c: Config, run: seq<Event>)
    requires IsRun(c, run)
    ensures var s := After(c, run);
      && s.recordCall < |s.rung| && s.heardCall < |s.rung|
      && (s.fencedCall > 0 ==> s.fencedCall <= s.recordCall) && (s.heardCall > 0 ==> s.heardCall <= s.recordCall)
      && (s.recordCall >= 0 ==>
            && s.rung[s.fencedCall] <= s.rung[s.recordCall] && s.rung[s.heardCall] <= s.rung[s.recordCall]
            && s.record == RecordWord(U32(s.rung[s.recordCall]))
            && IndexOfRecord(s.record) == s.rung[s.recordCall] % 0x1_0000)
      && (s.recordCall < 0 ==> s.fencedCall == 0 && s.heardCall == 0 && s.buffer != [] && s.buffer[0] == CLEAR)
  {
    RunKeepsStoreOrder(c, run);
    var s := After(c, run);
    if s.recordCall >= 0 {
      var index := s.rung[s.recordCall];
      BothCarryTheSameIndex(U32(index), c.qpnDs);
      CastKeepsLowHalf(index);
    }
  }

  /** What full-assisted mode promises of a state: an exact NIC index, and no post forgotten. */
  ghost predicate NothingLost(s: State) {
    && |s.rung| > 0 && s.nicCall < |s.rung|
    && s.nicIndex == s.rung[s.nicCall] <= s.rung[|s.rung| - 1] <= s.producer
    // The 32-bit comparison tells "nothing new" from "new posts" correctly ...
    && (!s.busy ==> (U32(s.producer) == s.last <==> s.producer == s.rung[|s.rung| - 1]))
    // ... and once it says "nothing new" with every store landed, the NIC knows every post.
    && (!s.busy && s.buffer == [] && U32(s.producer) == s.last ==> s.nicIndex == s.producer)
  }

  lemma NoDoorbellLost(c: Config, run: seq<Event>)
    requires IsRun(c, run) && !c.mode.DbrAssisted? && c.slots < 0x1_0000 && c.AsExported()
    ensures NothingLost(After(c, run))
  {
    HeldWordNames(true, c.qpn);
    RunKeepsIndex(c, run);
    var s := After(c, run);
    var latest := s.rung[|s.rung| - 1];
    assert s.rung[s.nicCall] <= latest <= s.producer <= latest + c.slots;
    CloseCasts(latest, s.producer);
    if !s.busy && s.buffer == [] {
      assert InFlight(s) == [];
    }
  }

  lemma CloseCasts(x: nat, y: nat)
    requires x <= y < x + 0x1_0000
    ensures U32(x) == U32(y) <==> x == y
  {
    if U32(x) == U32(y) {
      MulBetween(TWO_32, y / TWO_32 - x / TWO_32, y - x);
    }
  }

  lemma StepIsMonotone(c: Config, s: State, e: Event)
    requires StoreOrderInv(c, s) && Enabled(c, s, e) && !e.Reset?
    ensures var s' := Apply(c, s, e);
      s.rung <= s'.rung && s.producer <= s'.producer && s.recordCall <= s'.recordCall
    ensures !c.mode.DbrAssisted? && c.slots < 0x1_0000 && c.NamesQueue() && IndexInv(c, s) ==>
              s.nicIndex <= Apply(c, s, e).nicIndex
  {
    if e.Commit? {
      var p := s.buffer[e.at];
      assert InFlight(s)[e.at] == p;
      if !c.mode.DbrAssisted? && c.slots < 0x1_0000 && c.NamesQueue() && IndexInv(c, s) && IsStoreTo(p, DoorbellRegister) {
        NicInfersIndex(c, s, p);
      }
    }
  }

  /** What never goes back: the indices rung, the GPU's index, the record's call, and the NIC's index where it is exact. */
  ghost predicate Grown(c: Config, s: State, t: State) {
    && s.rung <= t.rung && s.producer <= t.producer && s.recordCall <= t.recordCall
    && (!c.mode.DbrAssisted? && c.slots < 0x1_0000 && c.NamesQueue() ==> s.nicIndex <= t.nicIndex)
  }

  lemma StepGrows(c: Config, run: seq<Event>, e: Event)
    requires IsRun(c, run) && Enabled(c, After(c, run), e) && !e.Reset?
    ensures Grown(c, After(c, run), Apply(c, After(c, run), e))
  {
    RunKeepsStoreOrder(c, run);
    if !c.mode.DbrAssisted? && c.slots < 0x1_0000 && c.NamesQueue() { RunKeepsIndex(c, run); }
    StepIsMonotone(c, After(c, run), e);
  }

  lemma {:induction false} HistoryGrows(c: Config, run: seq<Event>, from: nat)
    requires from <= |run| && IsRun(c, run) && IsRun(c, run[..from]) && Reset !in run[from..]
    ensures Grown(c, After(c, run[..from]), After(c, run))
    decreases |run|
  {
    if from == |run| {
      assert run[..from] == run;
    } else {
      var before := run[..|run| - 1];
      assert before[..from] == run[..from];
      assert run[from..] == before[from..] + [run[|run| - 1]];
      HistoryGrows(c, before, from);
      StepGrows(c, before, run[|run| - 1]);
    }
  }

  /** Between resets nothing goes back: not the indices rung, not the record, not what the NIC inferred. */
  lemma NeverGoesBack(c: Config, run: seq<Event>, from: nat)
    requires from <= |run| && IsRun(c, run) && IsRun(c, run[..from]) && Reset !in run[from..]
    ensures var s, s' := After(c, run[..from]), After(c, run);
      && s.rung <= s'.rung && Nondecreasing(s'.rung) && s.producer <= s'.producer && s.recordCall <= s'.recordCall
      && (!c.mode.DbrAssisted? && c.slots < 0x1_0000 && c.NamesQueue() ==> s.nicIndex <= s'.nicIndex)
  {
    HistoryGrows(c, run, from);
    RunKeepsStoreOrder(c, run);
  }

  // ---------- the record at rest ----------

  ghost predicate RecordStillInFlight(q: seq<Pending>, latest: nat) {
    exists i :: 0 <= i < |q| && IsStoreTo(q[i], DoorbellRecord) && q[i].call == latest
  }

  /** In the modes that keep a record: the latest call's has landed or is on its way, and the proxy remembers that call's index. */
  ghost predicate RecordInv(s: State)
    requires |s.rung| > 0
  {
    var latest: nat := |s.rung| - 1;
    && (s.recordCall == latest || RecordStillInFlight(InFlight(s), latest))
    && (if s.busy then s.polled else s.last) == U32(s.rung[latest])
  }

  lemma RecordKept(q: seq<Pending>, m: nat, latest: nat)
    requires m < |q| && RecordStillInFlight(q, latest)
    requires !(IsStoreTo(q[m], DoorbellRecord) && q[m].call == latest)
    ensures RecordStillInFlight(Remove(q, m), latest)
  {
    var i :| 0 <= i < |q| && IsStoreTo(q[i], DoorbellRecord) && q[i].call == latest;
    assert Remove(q, m)[Shifted(i, m)] == q[i];
  }

  lemma CommitKeepsRecord(c: Config, s: State, m: nat)
    requires |s.rung| > 0 && RecordInv(s) && MayCommit(s.buffer, m)
    requires RecordBehind(InFlight(s), s.recordCall) && s.buffer[m].call < |s.rung|
    ensures RecordInv(Apply(c, s, Commit(m)))
  {
    var q: seq<Pending>, latest: nat := InFlight(s), |s.rung| - 1;
    RemoveSplits(s, m);
    assert q[m] == s.buffer[m];
    if s.recordCall != latest && !(IsStoreTo(q[m], DoorbellRecord) && q[m].call == latest) {
      RecordKept(q, m, latest);
    }
  }

  lemma RetireKeepsRecord(c: Config, s: State)
    requires |s.rung| > 0 && RecordInv(s) && Enabled(c, s, RetireFence)
    ensures RecordInv(Apply(c, s, RetireFence))
  {
    var q: seq<Pending>, latest: nat := InFlight(s), |s.rung| - 1;
    RemoveSplits(s, 0);
    assert q[0] == s.buffer[0];
    if s.recordCall != latest { RecordKept(q, 0, latest); }
  }

  lemma PollKeepsRecord(c: Config, s: State)
    requires StoreOrderInv(c, s) && RecordInv(s) && Enabled(c, s, Poll) && !c.mode.FullAssistedNoDbrHw?
    requires |Apply(c, s, Poll).rung| > 0
    ensures RecordInv(Apply(c, s, Poll))
  {
    var tmp := U32(s.producer);
    if tmp != s.last {
      PollKeepsStoreOrder(c, s);
      CallShape(c, tmp, |s.rung|);
      var q, at := InFlight(Apply(c, s, Poll)), |InFlight(s)| + if c.mode.FullAssisted? then 1 else 0;
      assert IsStoreTo(q[at], DoorbellRecord) && q[at].call == |s.rung|;
    }
  }

  lemma StepKeepsRecord(c: Config, s: State, e: Event)
    requires StoreOrderInv(c, s) && RecordInv(s) && Enabled(c, s, e) && !c.mode.FullAssistedNoDbrHw?
    requires |Apply(c, s, e).rung| > 0
    ensures RecordInv(Apply(c, s, e))
  {
    match e
    case Poll => PollKeepsRecord(c, s);
    case Commit(m) =>
      CallsAreRung(c, s, m);
      CommitKeepsRecord(c, s, m);
    case RetireFence => RetireKeepsRecord(c, s);
    case Reset => ResetKeepsRecord(c, s);
    case _ =>
      assert InFlight(Apply(c, s, e)) == InFlight(s);
  }

  lemma CallsAreRung(c: Config, s: State, m: nat)
    requires m < |s.buffer| && WordsMatch(c, InFlight(s), s.rung)
    ensures s.buffer[m].call < |s.rung|
  {
    assert InFlight(s)[m] == s.buffer[m];
  }

  lemma ResetKeepsRecord(c: Config, s: State)
    requires Enabled(c, s, Reset)
    ensures |Apply(c, s, Reset).rung| > 0 && RecordInv(Apply(c, s, Reset))
  {
    var q := InFlight(Apply(c, s, Reset));
    assert q == [CLEAR] && IsStoreTo(q[0], DoorbellRecord) && q[0].call == 0;
  }

  lemma {:induction false} RunKeepsRecord(c: Config, run: seq<Event>)
    requires IsRun(c, run) && !c.mode.FullAssistedNoDbrHw?
    ensures StoreOrderInv(c, After(c, run)) && RecordInv(After(c, run))
    decreases |run|
  {
    RunKeepsStoreOrder(c, run);
    if run != [] {
      var before := run[..|run| - 1];
      RunKeepsRecord(c, before);
      StepKeepsRecord(c, After(c, before), run[|run| - 1]);
    }
  }

  /**
   When the proxy finds nothing new and its stores have landed, the record in memory is the GPU's
   index, in both modes that keep one and for every ring size.
   */
  lemma RecordAtRestIsCurrent(c: Config, run: seq<Event>)
    requires IsRun(c, run) && !c.mode.FullAssistedNoDbrHw?
    ensures var s := After(c, run);
      !s.busy && s.buffer == [] && U32(s.producer) == s.last ==> IndexOfRecord(s.record) == s.producer % 0x1_0000
  {
    RunKeepsRecord(c, run);
    var s := After(c, run);
    if !s.busy && s.buffer == [] && U32(s.producer) == s.last {
      assert InFlight(s) == [];
      BothCarryTheSameIndex(U32(s.producer), c.qpnDs);
      CastKeepsLowHalf(s.producer);
    }
  }

  ghost predicate FencedInFlight(q: seq<Pending>, latest: nat) {
    exists i :: 0 <= i < |q| && IsStoreTo(q[i], DoorbellRegister) && q[i].fenced && q[i].call == latest
  }

  /** In those modes: the latest call's fenced doorbell has reached the NIC or is on its way, and none is behind. */
  ghost predicate FencedInv(s: State)
    requires |s.rung| > 0
  {
    && s.fencedCall < |s.rung| && DoorbellsAhead(InFlight(s), s.fencedCall)
    && (s.fencedCall == |s.rung| - 1 || FencedInFlight(InFlight(s), |s.rung| - 1))
  }

  lemma FencedKept(q: seq<Pending>, m: nat, latest: nat)
    requires m < |q| && FencedInFlight(q, latest)
    requires !(IsStoreTo(q[m], DoorbellRegister) && q[m].fenced && q[m].call == latest)
    ensures FencedInFlight(Remove(q, m), latest)
  {
    var i :| 0 <= i < |q| && IsStoreTo(q[i], DoorbellRegister) && q[i].fenced && q[i].call == latest;
    assert Remove(q, m)[Shifted(i, m)] == q[i];
  }

  lemma CommitKeepsFenced(c: Config, s: State, m: nat)
    requires |s.rung| > 0 && FencedInv(s) && MayCommit(s.buffer, m) && CallsOrdered(InFlight(s))
    requires s.buffer[m].call < |s.rung|
    ensures FencedInv(Apply(c, s, Commit(m)))
  {
    var q: seq<Pending>, latest: nat := InFlight(s), |s.rung| - 1;
    RemoveSplits(s, m);
    assert q[m] == s.buffer[m];
    if IsStoreTo(q[m], DoorbellRegister) && q[m].fenced {
      NoDoorbellInFront(s, m);
      AheadAfterDoorbell(q, m);
      if q[m].call != latest { FencedKept(q, m, latest); }
    } else if s.fencedCall != latest {
      FencedKept(q, m, latest);
    }
  }

  lemma RetireKeepsFenced(c: Config, s: State)
    requires |s.rung| > 0 && FencedInv(s) && Enabled(c, s, RetireFence)
    ensures FencedInv(Apply(c, s, RetireFence))
  {
    RemoveSplits(s, 0);
    assert InFlight(s)[0] == s.buffer[0];
    if s.fencedCall != |s.rung| - 1 { FencedKept(InFlight(s), 0, |s.rung| - 1); }
  }

  lemma PollKeepsFenced(c: Config, s: State)
    requires StoreOrderInv(c, s) && FencedInv(s) && Enabled(c, s, Poll) && !c.mode.FullAssistedNoDbrHw?
    requires U32(s.producer) != s.last
    ensures |Apply(c, s, Poll).rung| > 0 && FencedInv(Apply(c, s, Poll))
  {
    PollKeepsStoreOrder(c, s);
    CallShape(c, U32(s.producer), |s.rung|);
    var q := InFlight(Apply(c, s, Poll));
    var at := |q| - 1;
    assert IsStoreTo(q[at], DoorbellRegister) && q[at].fenced && q[at].call == |s.rung|;
  }

  lemma StepKeepsFenced(c: Config, s: State, e: Event)
    requires StoreOrderInv(c, s) && FencedInv(s) && Enabled(c, s, e) && !c.mode.FullAssistedNoDbrHw?
    requires |Apply(c, s, e).rung| > 0
    ensures FencedInv(Apply(c, s, e))
  {
    match e
    case Poll => if U32(s.producer) != s.last { PollKeepsFenced(c, s); }
    case Commit(m) =>
      CallsAreRung(c, s, m);
      CommitKeepsFenced(c, s, m);
    case RetireFence => RetireKeepsFenced(c, s);
    case Reset => assert InFlight(Apply(c, s, e)) == [CLEAR];
    case _ => QuietKeepsFenced(c, s, e);
  }

  /** Steps that move no store, or only hand one from the call to the buffer. */
  lemma QuietKeepsFenced(c: Config, s: State, e: Event)
    requires |s.rung| > 0 && FencedInv(s) && Enabled(c, s, e)
    requires e.GpuPost? || e.Issue? || e.Finish? || e.NicComplete?
    ensures |Apply(c, s, e).rung| > 0 && FencedInv(Apply(c, s, e))
  {
    assert InFlight(Apply(c, s, e)) == InFlight(s);
  }

  lemma {:induction false} RunKeepsFenced(c: Config, run: seq<Event>)
    requires IsRun(c, run) && !c.mode.FullAssistedNoDbrHw?
    ensures StoreOrderInv(c, After(c, run)) && FencedInv(After(c, run))
    decreases |run|
  {
    RunKeepsStoreOrder(c, run);
    if run != [] {
      var before := run[..|run| - 1];
      RunKeepsFenced(c, before);
      StepKeepsFenced(c, After(c, before), run[|run| - 1]);
    }
  }

  /** At rest in those modes, the latest call's fenced doorbell has reached the NIC. */
  lemma FencedAtRest(c: Config, run: seq<Event>)
    requires IsRun(c, run) && !c.mode.FullAssistedNoDbrHw?
    ensures var s := After(c, run); !s.busy && s.buffer == [] ==> s.fencedCall == |s.rung| - 1
  {
    RunKeepsFenced(c, run);
    var s := After(c, run);
    if !s.busy && s.buffer == [] { assert InFlight(s) == []; }
  }

  // ---------- whose doorbell it is ----------

  lemma ExportedNames(c: Config)
    requires c.AsExported()
    ensures c.NamesQueue() <==> !c.mode.DbrAssisted? || c.qpn == 0
  {
    HeldWordNames(!c.mode.DbrAssisted?, c.qpn);
  }

  lemma {:induction false} RunKeepsUnheard(c: Config, run: seq<Event>)
    requires IsRun(c, run) && !c.NamesQueue()
    ensures Unheard(After(c, run))
    decreases |run|
  {
    if run != [] {
      var before, e := run[..|run| - 1], run[|run| - 1];
      RunKeepsUnheard(c, before);
      RunKeepsStoreOrder(c, before);
      StepUnheard(c, After(c, before), e);
    }
  }

  ghost predicate Unheard(s: State) { s.nicCall == 0 && s.heardCall == 0 && s.nicIndex == 0 }

  lemma StepUnheard(c: Config, s: State, e: Event)
    requires StoreOrderInv(c, s) && Enabled(c, s, e) && !c.NamesQueue() && Unheard(s)
    ensures Unheard(Apply(c, s, e))
  {
    if e.Commit? { CommitUnheard(c, s, e.at); }
  }

  lemma CommitUnheard(c: Config, s: State, m: nat)
    requires StoreOrderInv(c, s) && MayCommit(s.buffer, m) && !c.NamesQueue()
    ensures var t := Apply(c, s, Commit(m));
      t.nicCall == s.nicCall && t.heardCall == s.heardCall && t.nicIndex == s.nicIndex
  {
    assert InFlight(s)[m] == s.buffer[m];
    WordNames(c, U32(s.rung[s.buffer[m].call]));
  }

  /** A DBR-assisted queue with a number other than 0 never takes a doorbell of its proxy, in any run. */
  lemma DbrAssistedDoorbellsGoElsewhere(c: Config, run: seq<Event>)
    requires IsRun(c, run) && c.AsExported() && c.mode.DbrAssisted? && c.qpn != 0
    ensures Unheard(After(c, run))
  {
    ExportedNames(c);
    RunKeepsUnheard(c, run);
  }

  /** A call of the DBR-assisted proxy from start to end: its doorbell has reached the NIC. */
  lemma DbrAssistedCall(c: Config) returns (run: seq<Event>)
    requires c.mode.DbrAssisted? && c.slots > 0
    ensures IsRun(c, run) && After(c, run).fencedCall == 1 && After(c, run).buffer == [] && !After(c, run).busy
    ensures After(c, run).record == RecordWord(1)
  {
    run := FirstCall(c, 1);
    RunExtends(c, run, Commit(0));
    run := run + [Commit(0)];
    RunExtends(c, run, RetireFence);
    run := run + [RetireFence];
    RunExtends(c, run, Commit(0));
    run := run + [Commit(0)];
  }

  /** Right after a reset the record is still the old one; the store that clears it is on its way. */
  lemma ResetLeavesOldRecord(c: Config) returns (run: seq<Event>)
    requires c.mode.DbrAssisted? && c.slots > 0
    ensures IsRun(c, run)
    ensures var s := After(c, run); s.producer == 0 && IndexOfRecord(s.record) == 1 && s.buffer == [CLEAR]
  {
    run := DbrAssistedCall(c);
    BothCarryTheSameIndex(1, c.qpnDs);
    RunExtends(c, run, Reset);
    run := run + [Reset];
  }

  /** Every post-fence doorbell that reaches the NIC is taken for its queue, exactly when the CPU is a full proxy or the number is 0. */
  lemma DoorbellsReachTheirQueueExactly(c: Config)
    requires c.AsExported()
    ensures (forall run: seq<Event> :: IsRun(c, run) ==> After(c, run).heardCall == After(c, run).fencedCall)
            <==> !c.mode.DbrAssisted? || c.qpn == 0
  {
    ExportedNames(c);
    if c.NamesQueue() {
      forall run: seq<Event> | IsRun(c, run) ensures After(c, run).heardCall == After(c, run).fencedCall {
        RunKeepsStoreOrder(c, run);
      }
    } else {
      var run := DbrAssistedCall(c);
      RunKeepsUnheard(c, run);
    }
  }

  /** Queue 7, DBR-assisted: the doorbell of its first post reaches the NIC and names queue 0. */
  lemma QueueSevenIsNotRung() returns (c: Config, run: seq<Event>)
    ensures c == Config(DbrAssisted, 64, 7, HeldWord(false, 7)) && c.AsExported() && IsRun(c, run)
    ensures After(c, run).fencedCall == 1 && After(c, run).nicCall == 0 && QpnOf(c.qpnDs) == 0
  {
    c := Config(DbrAssisted, 64, 7, HeldWord(false, 7));
    run := DbrAssistedCall(c);
    DbrAssistedDoorbellsGoElsewhere(c, run);
  }

  // ---------- how sharp the results are ----------

  lemma RunExtends(c: Config, run: seq<Event>, e: Event)
    requires IsRun(c, run) && Enabled(c, After(c, run), e)
    ensures IsRun(c, run + [e]) && After(c, run + [e]) == Apply(c, After(c, run), e)
  {
    assert (run + [e])[..|run|] == run;
  }

  lemma {:induction false} IssueAll(c: Config, run: seq<Event>) returns (longer: seq<Event>)
    requires IsRun(c, run)
    ensures run <= longer && IsRun(c, longer)
    ensures var s := After(c, run); After(c, longer) == s.(buffer := s.buffer + s.todo, todo := [])
    decreases |After(c, run).todo|
  {
    var s := After(c, run);
    longer := run;
    if s.todo == [] {
      assert s.buffer + s.todo == s.buffer;
    } else {
      RunExtends(c, run, Issue);
      longer := IssueAll(c, run + [Issue]);
      assert s.buffer + [s.todo[0]] + s.todo[1..] == s.buffer + s.todo;
    }
  }

  /** The state an uninterrupted progress call leaves behind. */
  function CallDone(c: Config, s: State): State {
    var tmp := U32(s.producer);
    if tmp == s.last then s
    else s.(last := tmp, polled := tmp, todo := [], rung := s.rung + [s.producer],
            buffer := s.buffer + Tagged(ProgressStores(c.mode, tmp, c.qpnDs), |s.rung|))
  }

  /**
   One uninterrupted progress call is a run of the protocol: it issues exactly the
   stores `ProgressStores` lists and leaves `sq_wqe_pi_last` at the polled value.
   */
  lemma WholeCall(c: Config, run: seq<Event>) returns (longer: seq<Event>)
    requires IsRun(c, run) && !After(c, run).busy
    ensures run <= longer && IsRun(c, longer)
    ensures After(c, longer) == CallDone(c, After(c, run))
  {
    var s := After(c, run);
    RunKeepsStoreOrder(c, run);
    RunExtends(c, run, Poll);
    longer := run + [Poll];
    if U32(s.producer) != s.last {
      longer := IssueAll(c, longer);
      RunExtends(c, longer, Finish);
      longer := longer + [Finish];
    }
  }

  /** The first doorbell of a call, before the fence, carries no such promise. */
  lemma EarlyDoorbellOutrunsRecord(qpn: Qpn) returns (c: Config, run: seq<Event>)
    ensures c == Config(FullAssisted, 64, qpn, HeldWord(true, qpn)) && IsRun(c, run)
    ensures After(c, run).nicIndex == 5 && IndexOfRecord(After(c, run).record) == 0
  {
    c := Config(FullAssisted, 64, qpn, HeldWord(true, qpn));
    run := FirstCall(c, 5);
    RunExtends(c, run, Commit(0));
    HeldWordNames(true, qpn);
    BothCarryTheSameIndex(5, c.qpnDs);
    run := run + [Commit(0)];
  }

  lemma FirstCall(c: Config, index: u64) returns (run: seq<Event>)
    requires 0 < index <= c.slots && index < TWO_32
    ensures IsRun(c, run)
    ensures After(c, run) == INIT.(producer := index, last := index, polled := index, rung := [0, index],
                                   buffer := CallStores(c, index, 1))
  {
    RunExtends(c, [], GpuPost(index));
    run := [] + [GpuPost(index)];
    FirstCallDone(c, index);
    run := WholeCall(c, run);
  }

  lemma CallDoneFrom(c: Config, s: State, index: u64, stores: seq<Pending>)
    requires index < TWO_32 && s.producer == index && s.last != index
    requires stores == CallStores(c, index, |s.rung|)
    ensures CallDone(c, s) == s.(last := index, polled := index, todo := [], rung := s.rung + [index],
                                 buffer := s.buffer + stores)
  {
    CallShape(c, index, |s.rung|);
    assert U32(s.producer) == index;
  }

  lemma FirstCallDone(c: Config, index: u64)
    requires 0 < index < TWO_32
    ensures CallDone(c, INIT.(producer := index)) ==
            INIT.(producer := index, last := index, polled := index, rung := [0, index], buffer := CallStores(c, index, 1))
  {
    var stores := CallStores(c, index, 1);
    CallDoneFrom(c, INIT.(producer := index), index, stores);
    assert [0] + [index] == [0, index] && [] + stores == stores;
  }

  /** A ring of 2^16 slots or more has a run that ends with every store landed and the NIC unaware. */
  lemma WideRingLosesDoorbell(c: Config) returns (run: seq<Event>)
    requires !c.mode.DbrAssisted? && c.slots >= 0x1_0000
    ensures IsRun(c, run) && !NothingLost(After(c, run))
  {
    var index: u64 := 0x1_0000;
    run := FirstCall(c, index);
    BothCarryTheSameIndex(index, c.qpnDs);
    RunExtends(c, run, Commit(0));
    run := run + [Commit(0)];
    if c.mode.FullAssisted? {
      RunExtends(c, run, Commit(0));
      run := run + [Commit(0)];
      RunExtends(c, run, RetireFence);
      run := run + [RetireFence];
      RunExtends(c, run, Commit(0));
      run := run + [Commit(0)];
    }
    assert After(c, run).nicIndex == 0;
  }

  /** So sixteen bits of index bound the ring exactly. */
  lemma NothingLostExactly(c: Config)
    requires !c.mode.DbrAssisted? && c.AsExported()
    ensures (forall run: seq<Event> :: IsRun(c, run) ==> NothingLost(After(c, run))) <==> c.slots < 0x1_0000
  {
    if c.slots < 0x1_0000 {
      forall run: seq<Event> | IsRun(c, run) ensures NothingLost(After(c, run)) { NoDoorbellLost(c, run); }
    } else {
      var run := WideRingLosesDoorbell(c);
    }
  }

}
