/**
 The GPU's side of a send queue: threads reserve slots, wait until those are free, write their
 entries, mark them ready in order and publish the producer index, in any interleaving.

 Atomic operations take effect one at a time, and the release fences make a thread's entries
 visible before the index that covers them.  Indices are 64-bit counters that do not wrap.
 The completion count starts at 0, as on a new queue pair.
 */
module GpuPosting {
  import opened Bits
  import opened PowerOfTwo
  import opened RingPipeline

  /** Entries in the send ring and in the completion ring. */
  type Depth = n: nat | 0 < n witness 1

  /** Whether one thread has the queue to itself, and whether callers may skip the availability check. */
  datatype Config = Config(exclusive: bool, n: Depth, skips: bool)

  /** A call that has found its slots free has yet to advance the consumer index, unless it found an error. */
  datatype Stage = Waiting | Passed(failed: bool) | Writing | Ready

  /** The slots one call reserved, and how far it is. */
  datatype Batch = Batch(from: nat, count: nat, stage: Stage) {
    function End(): nat { from + count }
    predicate Has(i: nat) { from <= i < End() }
  }

  datatype State = State(
    rsvd: nat,               // sq_rsvd_index
    ready: nat,              // sq_ready_index
    published: nat,          // the index the proxy polls, or the doorbells announce
    ci: nat,                 // cqe_ci
    done: nat,               // entries the NIC has completed
    cqes: map<nat, u8>,      // last byte of each completion entry the NIC has written
    ring: map<nat, nat>,     // index last written into each slot
    batches: seq<Batch>,     // in the order of their reservations
    written: set<nat>,       // history: indices whose entry has been written
    marked: nat              // history: calls that have marked their entries ready
  )

  datatype Event =
    | Reserve(count: nat, skip: bool)
    | Wait(b: nat, seen: nat)
    | Advance(b: nat)
    | Write(b: nat, i: nat)
    | Mark(b: nat)
    | Submit(b: nat)
    | Consume(index: nat, seen: nat)
    | Complete(opcode: nat)

  const INIT: State := State(0, 0, 0, 0, 0, map[], map[], [], {}, 0)

  // ---------- the transitions ----------

  /** Entries the NIC has not written are as creation left them. */
  function OpOwn(s: State, slot: nat): u8 {
    if slot in s.cqes then s.cqes[slot] else FRESH
  }

  /** The poll of one index ends, on a consumer index read some time before. */
  predicate Passes(c: Config, s: State, index: nat, seen: nat) {
    index < seen || (index < seen + c.n && Observed(OpOwn(s, index % c.n), index, c.n))
  }

  const REQ_ERR: nat := 13

  /** The poll ended on an entry that reports an error; an index below the consumer index is not looked at. */
  predicate FoundError(c: Config, s: State, index: nat, seen: nat) {
    seen <= index && OpOwn(s, index % c.n) / 16 == REQ_ERR
  }

  predicate AllWritten(s: State, b: Batch) {
    forall i :: b.from <= i < b.End() ==> i in s.written
  }

  predicate Enabled(c: Config, s: State, e: Event) {
    match e
    // A thread that has the queue to itself ends one call before the next.
    case Reserve(count, skip) =>
      && count > 0 && (skip ==> c.skips)
      && (c.exclusive && s.batches != [] ==> s.batches[|s.batches| - 1].stage.Ready?)
    case Wait(b, seen) =>
      && b < |s.batches| && s.batches[b].stage.Waiting? && seen <= s.ci
      && var last: int := s.batches[b].End() - 1;
         last < c.n || Passes(c, s, last - c.n, seen)
    case Advance(b) => b < |s.batches| && s.batches[b].stage.Passed?
    case Write(b, i) => b < |s.batches| && s.batches[b].stage.Writing? && s.batches[b].Has(i)
    case Mark(b) =>
      && b < |s.batches| && s.batches[b].stage.Writing? && AllWritten(s, s.batches[b])
      && (c.exclusive || s.ready == s.batches[b].from)
    case Submit(b) => b < |s.batches| && s.batches[b].stage.Ready? && (c.exclusive ==> b == |s.batches| - 1)
    case Consume(index, seen) => seen <= s.ci && Passes(c, s, index, seen)
    case Complete(opcode) => s.done < s.published && opcode < 16
  }

  function Max(x: nat, y: nat): nat { if x < y then y else x }

  function Staged(bs: seq<Batch>, b: nat, stage: Stage): (r: seq<Batch>)
    requires b < |bs|
    ensures |r| == |bs|
    ensures forall i :: 0 <= i < |r| ==> r[i] == if i == b then bs[i].(stage := stage) else bs[i]
  {
    bs[b := bs[b].(stage := stage)]
  }

  function Apply(c: Config, s: State, e: Event): State
    requires Enabled(c, s, e)
  {
    match e
    case Reserve(count, skip) =>
      s.(rsvd := s.rsvd + count, batches := s.batches + [Batch(s.rsvd, count, if skip then Writing else Waiting)])
    case Wait(b, seen) => s.(batches := Staged(s.batches, b, Found(c, s, s.batches[b], seen)))
    case Advance(b) =>
      s.(batches := Staged(s.batches, b, Writing), ci := Max(s.ci, Reached(c, s.batches[b])))
    case Write(b, i) => s.(ring := s.ring[i % c.n := i], written := s.written + {i})
    case Mark(b) =>
      s.(batches := Staged(s.batches, b, Ready), ready := s.batches[b].End(), marked := s.marked + 1)
    // A store when one thread has the queue, a fetch-and-max otherwise.
    case Submit(b) =>
      s.(published := if c.exclusive then s.batches[b].End() else Max(s.published, s.batches[b].End()))
    case Consume(index, seen) => if FoundError(c, s, index, seen) then s else s.(ci := Max(s.ci, index + 1))
    case Complete(opcode) => Completed(c, s, opcode)
  }

  /** In the first lap there is nothing to wait for. */
  function Found(c: Config, s: State, b: Batch, seen: nat): Stage {
    var last: int := b.End() - 1;
    if last < c.n then Writing else Passed(FoundError(c, s, last - c.n, seen))
  }

  /** How far the poll of a call's last entry takes the consumer index. */
  function Reached(c: Config, b: Batch): nat {
    if b.stage.Passed? && !b.stage.failed && b.End() >= c.n then b.End() - c.n else 0
  }

  /** The NIC writes the completion of its next entry, with the owner bit of the lap. */
  function Completed(c: Config, s: State, opcode: nat): State
    requires opcode < 16
  {
    s.(cqes := s.cqes[s.done % c.n := 16 * opcode + OwnerBit(s.done, c.n)], done := s.done + 1)
  }

  // ---------- runs ----------

  ghost predicate IsRun(c: Config, run: seq<Event>)
    decreases |run|, 0
  {
    run != [] ==>
      var before := run[..|run| - 1];
      IsRun(c, before) && Enabled(c, After(c, before), run[|run| - 1])
  }

  ghost function After(c: Config, run: seq<Event>): State
    requires IsRun(c, run)
    decreases |run|, 1
  {
    if run == [] then INIT
    else Apply(c, After(c, run[..|run| - 1]), run[|run| - 1])
  }

  // ---------- what every reachable state satisfies ----------

  /** The batches lie end to end from 0 to the reserved index. */
  ghost predicate EndToEnd(bs: seq<Batch>, rsvd: nat) {
    && (forall i :: 0 <= i < |bs| ==> bs[i].count > 0 && bs[i].End() <= rsvd)
    && (forall i, j :: 0 <= i < j < |bs| ==> bs[i].End() <= bs[j].from && (j == i + 1 ==> bs[i].End() == bs[j].from))
    && (if bs == [] then rsvd == 0 else bs[0].from == 0 && bs[|bs| - 1].End() == rsvd)
  }

  /** The first `marked` batches are ready and no others, and the ready index is where those end. */
  ghost predicate MarkedInOrder(exclusive: bool, bs: seq<Batch>, rsvd: nat, marked: nat, ready: nat) {
    && marked <= |bs|
    && (forall i :: 0 <= i < |bs| ==> (bs[i].stage.Ready? <==> i < marked))
    && ready == (if marked < |bs| then bs[marked].from else rsvd)
    && (exclusive ==> |bs| <= marked + 1)
  }

  ghost predicate CountersInv(s: State) {
    && s.ci <= s.done <= s.published <= s.ready <= s.rsvd
    && (forall i: nat :: i < s.ready ==> i in s.written)
    && (forall i: nat :: i in s.written ==> i < s.rsvd)
  }

  /** Each of the last ring's worth of completions carries its lap's owner bit; the rest is untouched. */
  ghost predicate CqesInv(n: Depth, cqes: map<nat, u8>, done: nat) {
    && (forall i: nat :: i < done <= i + n ==> OwnedByLap(n, cqes, i))
    && (forall i: nat :: done <= i < n ==> i !in cqes)
  }

  predicate OwnedByLap(n: Depth, cqes: map<nat, u8>, i: nat) {
    i % n in cqes && (And(cqes[i % n], 1) == 1 <==> OwnerBit(i, n) == 1)
  }

  /** Nobody who is past the availability check has reserved slots above `bound`. */
  ghost predicate BatchesBelow(bs: seq<Batch>, bound: nat) {
    forall i :: 0 <= i < |bs| && !bs[i].stage.Waiting? ==> bs[i].End() <= bound
  }

  /** Whoever found room has it, also with skipped checks. */
  ghost predicate PassedBelow(bs: seq<Batch>, bound: nat) {
    forall i :: 0 <= i < |bs| && bs[i].stage.Passed? ==> bs[i].End() <= bound
  }

  predicate Holds(n: Depth, ring: map<nat, nat>, i: nat) {
    i % n in ring && ring[i % n] == i
  }

  /** What has been written is less than a ring above the completed entries, and in its slot unless completed. */
  ghost predicate SlotsInv(n: Depth, ring: map<nat, nat>, written: set<nat>, done: nat) {
    forall i: nat :: i in written ==> i < done + n && (done <= i ==> Holds(n, ring, i))
  }

  ghost predicate Inv(c: Config, s: State) {
    && EndToEnd(s.batches, s.rsvd)
    && MarkedInOrder(c.exclusive, s.batches, s.rsvd, s.marked, s.ready)
    && CountersInv(s) && CqesInv(c.n, s.cqes, s.done) && PassedBelow(s.batches, s.done + c.n)
    // With no skipped checks.
    && (!c.skips ==>
          s.ready <= s.done + c.n && BatchesBelow(s.batches, s.done + c.n) && SlotsInv(c.n, s.ring, s.written, s.done))
  }

  // ---------- the poll ----------

  /**
   Below the guard, and as long as its entry has not been written again, an index passes the poll exactly
   when the NIC has completed it; above the completed ones nothing passes.
   */
  lemma PollIsExact(c: Config, s: State, index: nat, seen: nat)
    requires IsPow2(c.n) && s.ci <= s.done && CqesInv(c.n, s.cqes, s.done) && seen <= s.ci
    ensures Passes(c, s, index, seen) ==> index < s.done
    ensures index < seen + c.n && s.done <= index + c.n ==> (Passes(c, s, index, seen) <==> index < s.done)
  {
    if seen <= index < seen + c.n && s.done <= index + c.n {
      if index < s.done {
        assert OwnedByLap(c.n, s.cqes, index);
        PollTellsLaps(s.cqes[index % c.n], index % TWO_16, index, 0, index, c.n);
      } else if index < c.n {
        ModUnique(index, c.n, 0, index);
        FreshIsUnobserved(index, c.n);
      } else {
        var held: nat := index - c.n;
        SameSlot(held, c.n);
        assert OwnedByLap(c.n, s.cqes, held);
        LapParity(index, c.n);
        NextLap(held, c.n);
      }
    }
  }

  lemma SameSlot(i: nat, n: Depth)
    ensures (i + n) % n == i % n
  {
    assert i + n == n * (i / n + 1) + i % n;
    ModUnique(i + n, n, i / n + 1, i % n);
  }

  /** After a poll that ends without an error, the same poll and that of any earlier index end at once. */
  lemma PollIsRemembered(c: Config, s: State, index: nat, seen: nat, i: nat)
    requires Enabled(c, s, Consume(index, seen)) && i <= index
    requires index < seen || OpOwn(s, index % c.n) / 16 != 13
    ensures var t := Apply(c, s, Consume(index, seen)); i < t.ci && Passes(c, t, i, t.ci)
  {}

  /** Without the guard, a new queue's entries pass for the second lap before anything is completed. */
  lemma GuardIsNeeded(c: Config, index: nat)
    requires IsPow2(c.n) && c.n <= index < 2 * c.n
    ensures INIT.done == 0 && Observed(OpOwn(INIT, index % c.n), index, c.n) && !Passes(c, INIT, index, 0)
  {
    ModUnique(index, c.n, 1, index - c.n);
    LapParity(index, c.n);
    FreshOwner();
  }

  // ---------- each step keeps the invariant ----------

  lemma Appended(exclusive: bool, bs: seq<Batch>, rsvd: nat, marked: nat, ready: nat, b: Batch)
    requires EndToEnd(bs, rsvd) && MarkedInOrder(exclusive, bs, rsvd, marked, ready)
    requires b.from == rsvd && b.count > 0 && !b.stage.Ready?
    requires exclusive && bs != [] ==> bs[|bs| - 1].stage.Ready?
    ensures EndToEnd(bs + [b], b.End()) && MarkedInOrder(exclusive, bs + [b], b.End(), marked, ready)
  {}

  lemma AppendedBelow(bs: seq<Batch>, b: Batch, bound: nat)
    ensures BatchesBelow(bs, bound) && b.stage.Waiting? ==> BatchesBelow(bs + [b], bound)
    ensures PassedBelow(bs, bound) && !b.stage.Passed? ==> PassedBelow(bs + [b], bound)
  {}

  lemma StagedEndToEnd(bs: seq<Batch>, rsvd: nat, b: nat, stage: Stage)
    requires EndToEnd(bs, rsvd) && b < |bs|
    ensures EndToEnd(Staged(bs, b, stage), rsvd)
  {
    var t := Staged(bs, b, stage);
    assert forall i :: 0 <= i < |bs| ==> t[i].from == bs[i].from && t[i].End() == bs[i].End();
  }

  /** A batch that is still being written lies past the ready index. */
  lemma UnmarkedIsAhead(exclusive: bool, bs: seq<Batch>, rsvd: nat, marked: nat, ready: nat, b: nat)
    requires EndToEnd(bs, rsvd) && MarkedInOrder(exclusive, bs, rsvd, marked, ready)
    requires b < |bs| && !bs[b].stage.Ready?
    ensures ready <= bs[b].from && (ready == bs[b].from <==> b == marked)
  {
    assert marked <= b;
    if marked < b { assert bs[marked].End() <= bs[b].from; }
  }

  lemma StagedMarked(exclusive: bool, bs: seq<Batch>, rsvd: nat, marked: nat, ready: nat)
    requires EndToEnd(bs, rsvd) && MarkedInOrder(exclusive, bs, rsvd, marked, ready) && marked < |bs|
    ensures EndToEnd(Staged(bs, marked, Ready), rsvd)
    ensures MarkedInOrder(exclusive, Staged(bs, marked, Ready), rsvd, marked + 1, bs[marked].End())
    ensures forall bound: nat :: BatchesBelow(bs, bound) && bs[marked].End() <= bound ==>
              BatchesBelow(Staged(bs, marked, Ready), bound)
    ensures forall bound: nat :: PassedBelow(bs, bound) ==> PassedBelow(Staged(bs, marked, Ready), bound)
  {
    StagedEndToEnd(bs, rsvd, marked, Ready);
    if marked + 1 < |bs| { assert bs[marked].End() == bs[marked + 1].from; }
  }

  lemma MarkedEndBelow(exclusive: bool, bs: seq<Batch>, rsvd: nat, marked: nat, ready: nat, b: nat)
    requires EndToEnd(bs, rsvd) && MarkedInOrder(exclusive, bs, rsvd, marked, ready) && b < marked
    ensures bs[b].End() <= ready
    ensures exclusive && b == |bs| - 1 ==> bs[b].End() == ready
  {}

  /** A wait that ends has found the entry a ring below the last one completed. */
  lemma WaitFindsRoom(c: Config, s: State, b: nat, seen: nat)
    requires IsPow2(c.n) && s.ci <= s.done && CqesInv(c.n, s.cqes, s.done) && Enabled(c, s, Wait(b, seen))
    ensures s.batches[b].End() <= s.done + c.n
  {
    var last: int := s.batches[b].End() - 1;
    if last >= c.n { PollIsExact(c, s, last - c.n, seen); }
  }

  lemma StagedOn(exclusive: bool, bs: seq<Batch>, rsvd: nat, marked: nat, ready: nat, b: nat, bound: nat, stage: Stage)
    requires EndToEnd(bs, rsvd) && MarkedInOrder(exclusive, bs, rsvd, marked, ready)
    requires b < |bs| && !bs[b].stage.Ready? && bs[b].End() <= bound && !stage.Ready?
    ensures EndToEnd(Staged(bs, b, stage), rsvd)
    ensures MarkedInOrder(exclusive, Staged(bs, b, stage), rsvd, marked, ready)
    ensures BatchesBelow(bs, bound) ==> BatchesBelow(Staged(bs, b, stage), bound)
    ensures PassedBelow(bs, bound) ==> PassedBelow(Staged(bs, b, stage), bound)
  {
    StagedEndToEnd(bs, rsvd, b, stage);
  }

  lemma WaitKeeps(c: Config, s: State, b: nat, seen: nat)
    requires IsPow2(c.n) && Inv(c, s) && Enabled(c, s, Wait(b, seen))
    ensures Inv(c, Apply(c, s, Wait(b, seen)))
  {
    WaitFindsRoom(c, s, b, seen);
    var stage := Found(c, s, s.batches[b], seen);
    StagedOn(c.exclusive, s.batches, s.rsvd, s.marked, s.ready, b, s.done + c.n, stage);
  }

  lemma AdvanceKeeps(c: Config, s: State, b: nat)
    requires Inv(c, s) && Enabled(c, s, Advance(b))
    ensures Inv(c, Apply(c, s, Advance(b)))
  {
    assert s.batches[b].End() <= s.done + c.n;
    AdvanceStays(c, s, b);
    StagedOn(c.exclusive, s.batches, s.rsvd, s.marked, s.ready, b, s.done + c.n, Writing);
  }

  lemma AdvanceStays(c: Config, s: State, b: nat)
    requires Enabled(c, s, Advance(b)) && s.batches[b].End() <= s.done + c.n && CountersInv(s)
    ensures CountersInv(Apply(c, s, Advance(b)))
  {
    assert Reached(c, s.batches[b]) <= s.done;
  }

  /** Two indices less than a ring above the completed entries have different slots. */
  lemma SlotWritten(n: Depth, ring: map<nat, nat>, written: set<nat>, done: nat, i: nat)
    requires SlotsInv(n, ring, written, done) && done <= i < done + n
    ensures SlotsInv(n, ring[i % n := i], written + {i}, done)
  {
    forall j: nat | j in written && done <= j ensures Holds(n, ring[i % n := i], j) {
      if j < i { NearbyMods(j, i, n); } else if i < j { NearbyMods(i, j, n); }
    }
  }

  lemma WriteKeeps(c: Config, s: State, b: nat, i: nat)
    requires Inv(c, s) && Enabled(c, s, Write(b, i))
    ensures Inv(c, Apply(c, s, Write(b, i)))
  {
    UnmarkedIsAhead(c.exclusive, s.batches, s.rsvd, s.marked, s.ready, b);
    assert s.ready <= i < s.batches[b].End() <= s.rsvd;
    if !c.skips { SlotWritten(c.n, s.ring, s.written, s.done, i); }
  }

  lemma MarkIsNext(c: Config, s: State, b: nat)
    requires Inv(c, s) && Enabled(c, s, Mark(b))
    ensures b == s.marked && s.ready == s.batches[b].from < s.batches[b].End() <= s.rsvd
  {
    UnmarkedIsAhead(c.exclusive, s.batches, s.rsvd, s.marked, s.ready, b);
  }

  lemma MarkedAreWritten(s: State, b: nat)
    requires CountersInv(s) && b < |s.batches| && s.ready == s.batches[b].from && AllWritten(s, s.batches[b])
    ensures forall i: nat :: i < s.batches[b].End() ==> i in s.written
  {}

  lemma MarkKeeps(c: Config, s: State, b: nat)
    requires Inv(c, s) && Enabled(c, s, Mark(b))
    ensures Inv(c, Apply(c, s, Mark(b)))
  {
    MarkIsNext(c, s, b);
    MarkedAreWritten(s, b);
    StagedMarked(c.exclusive, s.batches, s.rsvd, s.marked, s.ready);
  }

  lemma CompletionWritten(n: Depth, cqes: map<nat, u8>, done: nat, opcode: nat)
    requires CqesInv(n, cqes, done) && opcode < 16
    ensures CqesInv(n, cqes[done % n := 16 * opcode + OwnerBit(done, n)], done + 1)
  {
    var after: map<nat, u8> := cqes[done % n := 16 * opcode + OwnerBit(done, n)];
    OwnerOf(opcode, OwnerBit(done, n));
    forall i: nat | i < done + 1 <= i + n ensures OwnedByLap(n, after, i) {
      if i != done {
        NearbyMods(i, done, n);
        assert OwnedByLap(n, cqes, i);
      }
    }
    if done < n { ModUnique(done, n, 0, done); }
  }

  lemma ReserveKeeps(c: Config, s: State, count: nat, skip: bool)
    requires Inv(c, s) && Enabled(c, s, Reserve(count, skip))
    ensures Inv(c, Apply(c, s, Reserve(count, skip)))
  {
    var b := Batch(s.rsvd, count, if skip then Writing else Waiting);
    Appended(c.exclusive, s.batches, s.rsvd, s.marked, s.ready, b);
    AppendedBelow(s.batches, b, s.done + c.n);
    assert Apply(c, s, Reserve(count, skip)).batches == s.batches + [b];
  }

  lemma SubmitKeeps(c: Config, s: State, b: nat)
    requires Inv(c, s) && Enabled(c, s, Submit(b))
    ensures Inv(c, Apply(c, s, Submit(b)))
  {
    MarkedEndBelow(c.exclusive, s.batches, s.rsvd, s.marked, s.ready, b);
  }

  lemma ConsumeKeeps(c: Config, s: State, index: nat, seen: nat)
    requires IsPow2(c.n) && Inv(c, s) && Enabled(c, s, Consume(index, seen))
    ensures Inv(c, Apply(c, s, Consume(index, seen)))
  {
    PollIsExact(c, s, index, seen);
  }

  lemma CompleteKeeps(c: Config, s: State, opcode: nat)
    requires Inv(c, s) && Enabled(c, s, Complete(opcode))
    ensures Inv(c, Apply(c, s, Complete(opcode)))
  {
    CompletionWritten(c.n, s.cqes, s.done, opcode);
  }

  lemma OwnerOf(opcode: nat, bit: nat)
    requires bit < 2
    ensures And(16 * opcode + bit, 1) == bit
  {
    var x := 16 * opcode + bit;
    assert Pow2(1) == 2;
    AndMaskIsLow(x, 1);
    LowIsMod(x, 1);
    ModUnique(x, 2, 8 * opcode, bit);
  }

  lemma StepKeepsInv(c: Config, s: State, e: Event)
    requires IsPow2(c.n) && Inv(c, s) && Enabled(c, s, e)
    ensures Inv(c, Apply(c, s, e))
  {
    match e
    case Reserve(count, skip) => ReserveKeeps(c, s, count, skip);
    case Wait(b, seen) => WaitKeeps(c, s, b, seen);
    case Advance(b) => AdvanceKeeps(c, s, b);
    case Write(b, i) => WriteKeeps(c, s, b, i);
    case Mark(b) => MarkKeeps(c, s, b);
    case Submit(b) => SubmitKeeps(c, s, b);
    case Consume(index, seen) => ConsumeKeeps(c, s, index, seen);
    case Complete(opcode) => CompleteKeeps(c, s, opcode);
  }

  lemma {:induction false} RunKeepsInv(c: Config, run: seq<Event>)
    requires IsPow2(c.n) && IsRun(c, run)
    ensures Inv(c, After(c, run))
    decreases |run|
  {
    if run != [] {
      var before := run[..|run| - 1];
      RunKeepsInv(c, before);
      StepKeepsInv(c, After(c, before), run[|run| - 1]);
    }
  }

  // ---------- the results ----------

  /** Over every interleaving: the published index covers written entries alone, in the order of their reservations. */
  lemma PublishedIsWritten(c: Config, run: seq<Event>)
    requires IsPow2(c.n) && IsRun(c, run)
    ensures var s := After(c, run);
      && s.done <= s.published <= s.ready <= s.rsvd
      && forall i: nat :: i < s.published ==> i in s.written
  {
    RunKeepsInv(c, run);
  }

  /** No step takes any of the counters back, also where the code stores them without looking. */
  lemma PublishedNeverGoesBack(c: Config, run: seq<Event>, e: Event)
    requires IsPow2(c.n) && IsRun(c, run) && Enabled(c, After(c, run), e)
    ensures var s, t := After(c, run), Apply(c, After(c, run), e);
      s.ready <= t.ready && s.published <= t.published && s.ci <= t.ci && s.done <= t.done
  {
    RunKeepsInv(c, run);
    var s := After(c, run);
    match e
    case Mark(b) => MarkIsNext(c, s, b);
    case Submit(b) => MarkedEndBelow(c.exclusive, s.batches, s.rsvd, s.marked, s.ready, b);
    case _ =>
  }

  /** Everything published and not completed is within one ring, and still in its slot. */
  ghost predicate Intact(c: Config, s: State) {
    && s.published <= s.done + c.n
    && forall i: nat :: s.done <= i < s.published ==> Holds(c.n, s.ring, i)
  }

  lemma PublishedIsIntact(c: Config, run: seq<Event>)
    requires IsPow2(c.n) && IsRun(c, run) && !c.skips
    ensures Intact(c, After(c, run))
  {
    RunKeepsInv(c, run);
  }

  lemma RunExtends(c: Config, run: seq<Event>, e: Event)
    requires IsRun(c, run) && Enabled(c, After(c, run), e)
    ensures IsRun(c, run + [e]) && After(c, run + [e]) == Apply(c, After(c, run), e)
  {
    assert (run + [e])[..|run|] == run;
  }

  lemma Extend(c: Config, run: seq<Event>, e: Event) returns (longer: seq<Event>)
    requires IsRun(c, run) && Enabled(c, After(c, run), e)
    ensures IsRun(c, longer) && After(c, longer) == Apply(c, After(c, run), e)
  {
    RunExtends(c, run, e);
    longer := run + [e];
  }

  function OneWritten(c: Config): State {
    State(1, 0, 0, 0, 0, map[], map[0 % c.n := 0], [Batch(0, 1, Writing)], {0}, 0)
  }

  function OneMarked(c: Config): State {
    State(1, 1, 0, 0, 0, map[], map[0 % c.n := 0], [Batch(0, 1, Ready)], {0}, 1)
  }

  lemma WriteOne(c: Config) returns (run: seq<Event>)
    requires c.skips
    ensures IsRun(c, run) && After(c, run) == OneWritten(c)
  {
    run := Extend(c, [], Reserve(1, true));
    run := Extend(c, run, Write(0, 0));
  }

  lemma MarkOne(c: Config)
    ensures Enabled(c, OneWritten(c), Mark(0)) && Apply(c, OneWritten(c), Mark(0)) == OneMarked(c)
  {}

  /** One entry reserved, written and published. */
  lemma OnePublished(c: Config) returns (run: seq<Event>)
    requires c.skips
    ensures IsRun(c, run) && After(c, run) == OneMarked(c).(published := 1)
  {
    run := WriteOne(c);
    MarkOne(c);
    run := Extend(c, run, Mark(0));
    run := Extend(c, run, Submit(0));
  }

  /** A caller that skips the check then writes over it. */
  lemma SkippingOverwrites(c: Config) returns (run: seq<Event>)
    requires c.skips
    ensures IsRun(c, run) && !Intact(c, After(c, run))
  {
    run := OnePublished(c);
    run := Extend(c, run, Reserve(c.n, true));
    run := Extend(c, run, Write(1, c.n));
    SameSlot(0, c.n);
    assert !Holds(c.n, After(c, run).ring, 0);
  }

  /** So the availability check is what keeps published entries intact. */
  lemma IntactExactly(c: Config)
    requires IsPow2(c.n)
    ensures (forall run: seq<Event> :: IsRun(c, run) ==> Intact(c, After(c, run))) <==> !c.skips
  {
    if c.skips {
      var run := SkippingOverwrites(c);
    } else {
      forall run: seq<Event> | IsRun(c, run) ensures Intact(c, After(c, run)) { PublishedIsIntact(c, run); }
    }
  }

  /** While anything is reserved and not ready, exactly one call can mark its entries next, and waits for no other. */
  lemma OneCallIsNext(c: Config, run: seq<Event>)
    requires IsPow2(c.n) && IsRun(c, run) && After(c, run).ready < After(c, run).rsvd
    ensures var s := After(c, run); var bs := s.batches;
      && s.marked < |bs| && !bs[s.marked].stage.Ready?
      && (forall b: nat :: b < |bs| && !bs[b].stage.Ready? ==> (s.ready == bs[b].from <==> b == s.marked))
      && (bs[s.marked].stage.Writing? && AllWritten(s, bs[s.marked]) ==> Enabled(c, s, Mark(s.marked)))
  {
    RunKeepsInv(c, run);
    var s := After(c, run);
    forall b: nat | b < |s.batches| && !s.batches[b].stage.Ready?
      ensures s.ready == s.batches[b].from <==> b == s.marked
    {
      UnmarkedIsAhead(c.exclusive, s.batches, s.rsvd, s.marked, s.ready, b);
    }
  }

  /**
   A call's wait can end exactly when the entry a ring below its last is completed, or there is none; if
   the consumer index is within a ring of that entry.
   */
  lemma WaitIsExact(c: Config, run: seq<Event>, b: nat)
    requires IsPow2(c.n) && IsRun(c, run)
    requires b < |After(c, run).batches| && After(c, run).batches[b].stage.Waiting?
    requires After(c, run).batches[b].End() <= After(c, run).ci + 2 * c.n
    ensures var s := After(c, run); Enabled(c, s, Wait(b, s.ci)) <==> s.batches[b].End() <= s.done + c.n
  {
    RunKeepsInv(c, run);
    WaitEnds(c, After(c, run), b);
  }

  lemma WaitEnds(c: Config, s: State, b: nat)
    requires IsPow2(c.n) && Inv(c, s) && b < |s.batches| && s.batches[b].stage.Waiting?
    requires s.batches[b].End() <= s.ci + 2 * c.n
    ensures Enabled(c, s, Wait(b, s.ci)) <==> s.batches[b].End() <= s.done + c.n
  {
    UnmarkedIsAhead(c.exclusive, s.batches, s.rsvd, s.marked, s.ready, b);
    var last: int := s.batches[b].End() - 1;
    if last >= c.n { PollIsExact(c, s, last - c.n, s.ci); }
  }

  /** A call that reserves more than the ring never gets past its wait: it waits for its own entries. */
  lemma OversizedNeverPasses(c: Config, run: seq<Event>, b: nat, seen: nat)
    requires IsPow2(c.n) && IsRun(c, run)
    requires b < |After(c, run).batches| && After(c, run).batches[b].count > c.n
    ensures !Enabled(c, After(c, run), Wait(b, seen))
  {
    RunKeepsInv(c, run);
    var s := After(c, run);
    if Enabled(c, s, Wait(b, seen)) {
      WaitFindsRoom(c, s, b, seen);
      UnmarkedIsAhead(c.exclusive, s.batches, s.rsvd, s.marked, s.ready, b);
      assert false;
    }
  }

  // ---------- without errors, the consumer index keeps up ----------

  /** No completion reports an error, and whoever may write is at most a ring ahead of the consumer index. */
  ghost predicate Clean(c: Config, s: State) {
    && (forall k :: k in s.cqes ==> s.cqes[k] / 16 != REQ_ERR)
    && (forall i :: 0 <= i < |s.batches| && s.batches[i].stage.Passed? ==> !s.batches[i].stage.failed)
    && WritersWithin(s.batches, s.ci + c.n) && s.ready <= s.ci + c.n
  }

  ghost predicate WritersWithin(bs: seq<Batch>, bound: nat) {
    forall i :: 0 <= i < |bs| && (bs[i].stage.Writing? || bs[i].stage.Ready?) ==> bs[i].End() <= bound
  }

  lemma CompletedIsClean(c: Config, s: State, opcode: nat)
    requires Clean(c, s) && opcode < 16 && opcode != REQ_ERR
    ensures Clean(c, Completed(c, s, opcode))
  {
    assert (16 * opcode + OwnerBit(s.done, c.n)) / 16 == opcode;
  }

  lemma WaitIsClean(c: Config, s: State, b: nat, seen: nat)
    requires Clean(c, s) && Enabled(c, s, Wait(b, seen))
    ensures Clean(c, Apply(c, s, Wait(b, seen)))
  {
    var last: int := s.batches[b].End() - 1;
    if last >= c.n { assert !FoundError(c, s, last - c.n, seen); }
  }

  lemma StepIsClean(c: Config, s: State, e: Event)
    requires !c.skips && Clean(c, s) && Enabled(c, s, e) && (e.Complete? ==> e.opcode != REQ_ERR)
    ensures Clean(c, Apply(c, s, e))
  {
    match e
    case Wait(b, seen) => WaitIsClean(c, s, b, seen);
    case Complete(opcode) => CompletedIsClean(c, s, opcode);
    case _ =>
  }

  /** On a ring of one entry: `calls` calls are over, each completed, the last with byte `byte`, and nothing was consumed. */
  ghost predicate AllOver(s: State, calls: nat, byte: u8) {
    && s.rsvd == s.ready == s.published == s.done == s.marked == |s.batches| == calls
    && s.ci == 0 && (calls > 0 ==> 0 in s.cqes && s.cqes[0] == byte)
    && forall i :: 0 <= i < |s.batches| ==> s.batches[i].stage.Ready?
  }

  /** The same, with one more call that may write. */
  ghost predicate MayWrite(s: State, k: nat) {
    && s.rsvd == |s.batches| == k + 1 && s.ready == s.published == s.done == s.marked == k && s.ci == 0
    && s.batches[k] == Batch(k, 1, Writing) && forall i :: 0 <= i < k ==> s.batches[i].stage.Ready?
  }

  /** And the call has marked its entry, and published it up to `published`. */
  ghost predicate HasMarked(s: State, k: nat, published: nat) {
    && s.rsvd == s.ready == s.marked == |s.batches| == k + 1 && s.published == published && s.done == k && s.ci == 0
    && s.batches[k] == Batch(k, 1, Ready) && forall i :: 0 <= i < k ==> s.batches[i].stage.Ready?
  }

  lemma WriteStep(c: Config, s: State, k: nat)
    requires MayWrite(s, k)
    ensures Enabled(c, s, Write(k, k))
    ensures MayWrite(Apply(c, s, Write(k, k)), k) && k in Apply(c, s, Write(k, k)).written
  {}

  lemma MarkStep(c: Config, s: State, k: nat)
    requires MayWrite(s, k) && k in s.written
    ensures Enabled(c, s, Mark(k)) && HasMarked(Apply(c, s, Mark(k)), k, k)
  {}

  lemma SubmitStep(c: Config, s: State, k: nat)
    requires HasMarked(s, k, k)
    ensures Enabled(c, s, Submit(k)) && HasMarked(Apply(c, s, Submit(k)), k, k + 1)
  {}

  lemma CompleteStep(c: Config, s: State, k: nat)
    requires c.n == 1 && HasMarked(s, k, k + 1)
    ensures Enabled(c, s, Complete(REQ_ERR)) && AllOver(Apply(c, s, Complete(REQ_ERR)), k + 1, 208 + OwnerBit(k, 1))
  {
    assert k % 1 == 0;
  }

  /** That call goes on to be completed in error. */
  lemma WriteToError(c: Config, before: seq<Event>, k: nat) returns (run: seq<Event>)
    requires c.n == 1 && IsRun(c, before) && MayWrite(After(c, before), k)
    ensures IsRun(c, run) && AllOver(After(c, run), k + 1, 208 + OwnerBit(k, 1))
  {
    WriteStep(c, After(c, before), k);
    run := Extend(c, before, Write(k, k));
    MarkStep(c, After(c, run), k);
    run := Extend(c, run, Mark(k));
    SubmitStep(c, After(c, run), k);
    run := Extend(c, run, Submit(k));
    CompleteStep(c, After(c, run), k);
    run := Extend(c, run, Complete(REQ_ERR));
  }

  lemma ReserveOne(c: Config, before: seq<Event>, k: nat, byte: u8) returns (run: seq<Event>)
    requires c == Config(false, 1, false) && IsRun(c, before) && AllOver(After(c, before), k, byte)
    ensures IsRun(c, run)
    ensures var s, t := After(c, before), After(c, run);
      t == s.(rsvd := k + 1, batches := s.batches + [Batch(k, 1, Waiting)])
  {
    run := Extend(c, before, Reserve(1, false));
  }

  lemma FirstWrites(c: Config) returns (run: seq<Event>)
    requires c == Config(false, 1, false)
    ensures IsRun(c, run) && MayWrite(After(c, run), 0)
  {
    run := ReserveOne(c, [], 0, 0);
    run := Extend(c, run, Wait(0, 0));
  }

  lemma FirstError(c: Config) returns (run: seq<Event>)
    requires c == Config(false, 1, false)
    ensures IsRun(c, run) && AllOver(After(c, run), 1, 208)
  {
    run := FirstWrites(c);
    run := WriteToError(c, run, 0);
  }

  lemma SecondWrites(c: Config) returns (run: seq<Event>)
    requires c == Config(false, 1, false)
    ensures IsRun(c, run) && MayWrite(After(c, run), 1)
  {
    run := FirstError(c);
    run := ReserveOne(c, run, 1, 208);
    OwnerOf(13, 0);
    run := Extend(c, run, Wait(1, 0));
    run := Extend(c, run, Advance(1));
  }

  lemma SecondLap()
    ensures 208 + OwnerBit(1, 1) == 209
  {}

  lemma SecondError(c: Config) returns (run: seq<Event>)
    requires c == Config(false, 1, false)
    ensures IsRun(c, run) && AllOver(After(c, run), 2, 209)
  {
    run := SecondWrites(c);
    SecondLap();
    run := WriteToError(c, run, 1);
  }

  /**
   With errors it does not: a completion in error leaves the consumer index where it is.  On a ring of one
   entry, after two such completions the third call's slot is free, and neither its wait nor any poll can end.
   */
  lemma ErrorsStarve() returns (c: Config, run: seq<Event>)
    ensures c == Config(false, 1, false) && IsRun(c, run)
    ensures var s := After(c, run);
      && |s.batches| == 3 && s.batches[2].stage.Waiting? && s.batches[2].End() <= s.done + c.n
      && (forall e :: Enabled(c, s, e) ==> !e.Wait? && !e.Advance? && !e.Consume?)
  {
    c := Config(false, 1, false);
    run := SecondError(c);
    run := ReserveOne(c, run, 2, 209);
    NothingMoves(c, After(c, run));
  }

  lemma NothingMoves(c: Config, s: State)
    requires c == Config(false, 1, false) && s.ci == 0 && 0 in s.cqes && s.cqes[0] == 209
    requires |s.batches| == 3 && s.batches[0].stage.Ready? && s.batches[1].stage.Ready? && s.batches[2] == Batch(2, 1, Waiting)
    ensures forall e :: Enabled(c, s, e) ==> !e.Wait? && !e.Advance? && !e.Consume?
  {
    OwnerOf(13, 1);
    assert !Observed(209, 0, 1);
  }

}
