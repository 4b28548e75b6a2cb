/**
 The whole way of a post: the GPU's threads, the proxy with its store buffer, and the NIC, in one
 transition system.  What each side takes for granted of the others is proved here of the others.
 */
module SendPath {
  import opened Bits
  import opened PowerOfTwo
  import opened RingPipeline
  import G = GpuPosting
  import P = ProxyProtocol

  /** One queue: both sides have the same ring, and the proxy the configuration its export left. */
  datatype Config = Config(gpu: G.Config, proxy: P.Config) {
    ghost predicate Fits() {
      && IsPow2(gpu.n) && gpu.n <= DEEPEST && !gpu.skips
      && proxy.slots == gpu.n && proxy.AsExported()
    }
  }

  datatype State = State(gpu: G.State, proxy: P.State)

  datatype Event = Gpu(g: G.Event) | Proxy(p: P.Event) | Nic(opcode: nat)

  const INIT: State := State(G.INIT, P.INIT)

  predicate Enabled(c: Config, s: State, e: Event) {
    match e
    case Gpu(g) => !g.Complete? && G.Enabled(c.gpu, s.gpu, g) && G.Apply(c.gpu, s.gpu, g).published < TWO_64
    case Proxy(p) => (p.Poll? || p.Issue? || p.Finish? || p.Commit? || p.RetireFence?) && P.Enabled(c.proxy, s.proxy, p)
    // The NIC completes what it knows of; in DBR-assisted mode the GPU tells it.
    case Nic(opcode) =>
      opcode < 16 && s.proxy.completed < if c.proxy.mode.DbrAssisted? then s.proxy.producer else s.proxy.nicIndex
  }

  /** The GPU's index is the cell the proxy polls, and a completion is seen by both sides. */
  function Apply(c: Config, s: State, e: Event): State
    requires Enabled(c, s, e)
  {
    match e
    case Gpu(g) =>
      var gpu := G.Apply(c.gpu, s.gpu, g);
      State(gpu, s.proxy.(producer := gpu.published))
    case Proxy(p) => State(s.gpu, P.Apply(c.proxy, s.proxy, p))
    case Nic(opcode) =>
      State(G.Completed(c.gpu, s.gpu, opcode), s.proxy.(completed := s.proxy.completed + 1))
  }

  ghost predicate IsRun(c: Config, run: seq<Event>)
    decreases |run|, 0
  {
    run != [] ==>
      var before := run[..|run| - 1];
      IsRun(c, before) && Enabled(c, After(c, before), run[|run| - 1])
  }

  ghost function After(c: Config, run: seq<Event>): State
    requires IsRun(c, run)
    decreases |run|, 1
  {
    if run == [] then INIT
    else Apply(c, After(c, run[..|run| - 1]), run[|run| - 1])
  }

  // ---------- each side keeps to what the other assumes ----------

  /** Both sides' states are states of their own runs, and they agree on the two indices they share. */
  ghost predicate Agrees(c: Config, s: State, gs: seq<G.Event>, ps: seq<P.Event>) {
    && G.IsRun(c.gpu, gs) && G.After(c.gpu, gs) == s.gpu
    && P.IsRun(c.proxy, ps) && P.After(c.proxy, ps) == s.proxy
    && s.proxy.producer == s.gpu.published && s.proxy.completed == s.gpu.done
  }

  /** Whatever the GPU's threads do, the index they publish is one the proxy's protocol allows. */
  lemma PostIsAllowed(c: Config, s: State, g: G.Event, gs: seq<G.Event>, ps: seq<P.Event>)
    requires c.Fits() && Agrees(c, s, gs, ps) && Enabled(c, s, Gpu(g))
    ensures P.Enabled(c.proxy, s.proxy, P.GpuPost(G.Apply(c.gpu, s.gpu, g).published))
  {
    G.RunExtends(c.gpu, gs, g);
    G.PublishedNeverGoesBack(c.gpu, gs, g);
    G.PublishedIsIntact(c.gpu, gs + [g]);
  }

  /** The NIC completes nothing that the GPU has not published. */
  lemma CompletionIsAllowed(c: Config, s: State, opcode: nat, gs: seq<G.Event>, ps: seq<P.Event>)
    requires c.Fits() && Agrees(c, s, gs, ps) && Enabled(c, s, Nic(opcode))
    ensures G.Enabled(c.gpu, s.gpu, G.Complete(opcode))
  {
    if !c.proxy.mode.DbrAssisted? { P.NoDoorbellLost(c.proxy, ps); }
  }

  lemma StepAgrees(c: Config, s: State, e: Event, gs: seq<G.Event>, ps: seq<P.Event>)
    returns (gs': seq<G.Event>, ps': seq<P.Event>)
    requires c.Fits() && Agrees(c, s, gs, ps) && Enabled(c, s, e)
    ensures Agrees(c, Apply(c, s, e), gs', ps')
  {
    match e {
      case Gpu(g) =>
        PostIsAllowed(c, s, g, gs, ps);
        var post := P.GpuPost(G.Apply(c.gpu, s.gpu, g).published);
        G.RunExtends(c.gpu, gs, g);
        P.RunExtends(c.proxy, ps, post);
        gs', ps' := gs + [g], ps + [post];
      case Proxy(p) =>
        P.RunExtends(c.proxy, ps, p);
        gs', ps' := gs, ps + [p];
      case Nic(opcode) =>
        CompletionIsAllowed(c, s, opcode, gs, ps);
        var complete := P.NicComplete(s.proxy.completed + 1);
        G.RunExtends(c.gpu, gs, G.Complete(opcode));
        P.RunExtends(c.proxy, ps, complete);
        gs', ps' := gs + [G.Complete(opcode)], ps + [complete];
    }
  }

  /** So every run of the whole is, on each side, a run of that side alone. */
  lemma {:induction false} SidesRun(c: Config, run: seq<Event>) returns (gs: seq<G.Event>, ps: seq<P.Event>)
    requires c.Fits() && IsRun(c, run)
    ensures Agrees(c, After(c, run), gs, ps)
    decreases |run|
  {
    if run == [] {
      gs, ps := [], [];
    } else {
      var before := run[..|run| - 1];
      gs, ps := SidesRun(c, before);
      gs, ps := StepAgrees(c, After(c, before), run[|run| - 1], gs, ps);
    }
  }

  // ---------- from the GPU's entry to the NIC ----------

  /**
   Over every run of threads, proxy, store buffer and NIC: each entry published and not completed is
   written and still in its slot.  With the CPU as a full proxy the NIC knows of no other, and once the
   proxy is at rest it knows of each.
   */
  lemma PostsArrive(c: Config, run: seq<Event>)
    requires c.Fits() && IsRun(c, run)
    ensures var s := After(c, run);
      && (forall i: nat :: s.proxy.completed <= i < s.proxy.producer ==>
            i in s.gpu.written && G.Holds(c.gpu.n, s.gpu.ring, i))
      && (!c.proxy.mode.DbrAssisted? ==>
            && s.proxy.nicIndex <= s.proxy.producer
            && (!s.proxy.busy && s.proxy.buffer == [] && U32(s.proxy.producer) == s.proxy.last ==>
                  s.proxy.nicIndex == s.proxy.producer))
  {
    var gs, ps := SidesRun(c, run);
    G.PublishedIsIntact(c.gpu, gs);
    G.PublishedIsWritten(c.gpu, gs);
    if !c.proxy.mode.DbrAssisted? { P.NoDoorbellLost(c.proxy, ps); }
  }

  // ---------- posts do get through ----------

  lemma Extend(c: Config, run: seq<Event>, e: Event) returns (longer: seq<Event>)
    requires IsRun(c, run) && Enabled(c, After(c, run), e)
    ensures longer == run + [e] && IsRun(c, longer) && After(c, longer) == Apply(c, After(c, run), e)
  {
    longer := run + [e];
    assert longer[..|run|] == run;
  }

  /** What the proxy's own steps leave alone. */
  predicate SamePosts(s: State, t: State) {
    s.gpu == t.gpu && s.proxy.producer == t.proxy.producer && s.proxy.completed == t.proxy.completed
  }

  lemma {:induction false} IssueAll(c: Config, run: seq<Event>) returns (longer: seq<Event>)
    requires IsRun(c, run)
    ensures run <= longer && IsRun(c, longer) && SamePosts(After(c, run), After(c, longer))
    ensures var s, t := After(c, run).proxy, After(c, longer).proxy;
      t.todo == [] && t.busy == s.busy && t.polled == s.polled && t.last == s.last
    decreases |After(c, run).proxy.todo|
  {
    longer := run;
    if After(c, run).proxy.todo != [] {
      longer := Extend(c, run, Proxy(P.Issue));
      longer := IssueAll(c, longer);
    }
  }

  /** Stores reach memory one after the other. */
  lemma {:induction false} Drain(c: Config, run: seq<Event>) returns (longer: seq<Event>)
    requires IsRun(c, run)
    ensures run <= longer && IsRun(c, longer) && SamePosts(After(c, run), After(c, longer))
    ensures var s, t := After(c, run).proxy, After(c, longer).proxy;
      t.buffer == [] && t.todo == s.todo && t.busy == s.busy && t.last == s.last
    decreases |After(c, run).proxy.buffer|
  {
    longer := run;
    var buffer := After(c, run).proxy.buffer;
    if buffer != [] {
      longer := Extend(c, run, Proxy(if buffer[0].op.Store? then P.Commit(0) else P.RetireFence));
      longer := Drain(c, longer);
    }
  }

  lemma FinishCall(c: Config, run: seq<Event>) returns (longer: seq<Event>)
    requires IsRun(c, run) && After(c, run).proxy.busy
    ensures run <= longer && IsRun(c, longer) && SamePosts(After(c, run), After(c, longer))
    ensures var t := After(c, longer).proxy; !t.busy && t.last == After(c, run).proxy.polled
  {
    longer := IssueAll(c, run);
    longer := Extend(c, longer, Proxy(P.Finish));
  }

  /** A call that finds the proxy idle leaves it with the index it polled. */
  lemma OneCall(c: Config, run: seq<Event>) returns (longer: seq<Event>)
    requires IsRun(c, run) && !After(c, run).proxy.busy
    ensures run <= longer && IsRun(c, longer) && SamePosts(After(c, run), After(c, longer))
    ensures var t := After(c, longer).proxy; !t.busy && t.last == U32(t.producer)
  {
    longer := Extend(c, run, Proxy(P.Poll));
    if After(c, longer).proxy.busy { longer := FinishCall(c, longer); }
  }

  /**
   Whatever has happened, the proxy can catch up by its own steps alone: every store lands, it remembers
   the GPU's index, and as a full proxy it has told the NIC of everything published.
   */
  lemma ProxyCatchesUp(c: Config, run: seq<Event>) returns (longer: seq<Event>)
    requires c.Fits() && IsRun(c, run)
    ensures run <= longer && IsRun(c, longer) && SamePosts(After(c, run), After(c, longer))
    ensures var t := After(c, longer).proxy;
      && !t.busy && t.buffer == [] && t.last == U32(t.producer)
      && (!c.proxy.mode.DbrAssisted? ==> t.nicIndex == t.producer)
  {
    longer := run;
    if After(c, run).proxy.busy { longer := FinishCall(c, run); }
    longer := OneCall(c, longer);
    longer := Drain(c, longer);
    PostsArrive(c, longer);
  }

  /** All but the completions. */
  predicate SameCalls(s: G.State, t: G.State) {
    && s.rsvd == t.rsvd && s.ready == t.ready && s.published == t.published && s.ci == t.ci
    && s.batches == t.batches && s.written == t.written && s.marked == t.marked
  }

  lemma {:induction false} CompleteAll(c: Config, run: seq<Event>) returns (longer: seq<Event>)
    requires c.Fits() && IsRun(c, run)
    requires var t := After(c, run).proxy; t.completed <= t.producer && (c.proxy.mode.DbrAssisted? || t.nicIndex == t.producer)
    ensures run <= longer && IsRun(c, longer)
    ensures var s, t := After(c, run), After(c, longer);
      && t.proxy.completed == t.proxy.producer == s.proxy.producer && SameCalls(s.gpu, t.gpu)
      && (G.Clean(c.gpu, s.gpu) ==> G.Clean(c.gpu, t.gpu))
    decreases After(c, run).proxy.producer - After(c, run).proxy.completed
  {
    longer := run;
    if After(c, run).proxy.completed < After(c, run).proxy.producer {
      if G.Clean(c.gpu, After(c, run).gpu) { G.CompletedIsClean(c.gpu, After(c, run).gpu, 0); }
      longer := Extend(c, run, Nic(0));
      longer := CompleteAll(c, longer);
    }
  }

  /** And then the NIC can complete all of it. */
  lemma PublishedCanComplete(c: Config, run: seq<Event>) returns (longer: seq<Event>)
    requires c.Fits() && IsRun(c, run)
    ensures run <= longer && IsRun(c, longer)
    ensures var s, t := After(c, run).gpu, After(c, longer).gpu;
      && SameCalls(s, t) && t.done == t.published == After(c, longer).proxy.completed
      && (G.Clean(c.gpu, s) ==> G.Clean(c.gpu, t))
  {
    longer := ProxyCatchesUp(c, run);
    var gs, ps := SidesRun(c, longer);
    G.PublishedIsWritten(c.gpu, gs);
    longer := CompleteAll(c, longer);
    gs, ps := SidesRun(c, longer);
  }

  // ---------- every call gets through ----------

  /** No completion of the run reports an error. */
  predicate NoErrors(run: seq<Event>) {
    forall e :: e in run && e.Nic? ==> e.opcode != G.REQ_ERR
  }

  lemma {:induction false} RunIsClean(c: Config, run: seq<Event>)
    requires c.Fits() && IsRun(c, run) && NoErrors(run)
    ensures G.Clean(c.gpu, After(c, run).gpu)
    decreases |run|
  {
    if run != [] {
      var before, e := run[..|run| - 1], run[|run| - 1];
      assert e in run;
      RunIsClean(c, before);
      match e
      case Gpu(g) => G.StepIsClean(c.gpu, After(c, before).gpu, g);
      case Nic(opcode) => G.CompletedIsClean(c.gpu, After(c, before).gpu, opcode);
      case Proxy(_) =>
    }
  }

  lemma GpuInv(c: Config, run: seq<Event>)
    requires c.Fits() && IsRun(c, run)
    ensures G.Inv(c.gpu, After(c, run).gpu) && After(c, run).proxy.producer == After(c, run).gpu.published
  {
    var gs, ps := SidesRun(c, run);
    G.RunKeepsInv(c.gpu, gs);
  }

  /** No call is for more than the ring holds. */
  predicate SmallCalls(c: Config, s: G.State) {
    forall i :: 0 <= i < |s.batches| ==> s.batches[i].count <= c.gpu.n
  }

  /** What a call's own steps up to marking leave alone: every other call, and the counters. */
  ghost predicate OnlyStage(s: G.State, t: G.State, b: nat) {
    && t.rsvd == s.rsvd && t.ready == s.ready && t.published == s.published && t.done == s.done && t.marked == s.marked
    && |t.batches| == |s.batches|
    && forall i :: 0 <= i < |s.batches| ==>
         && t.batches[i].from == s.batches[i].from && t.batches[i].count == s.batches[i].count
         && (i != b ==> t.batches[i] == s.batches[i])
  }

  lemma WaitLeads(c: Config, s: G.State)
    requires c.Fits() && G.Inv(c.gpu, s) && G.Clean(c.gpu, s) && s.marked < |s.batches| && s.done == s.ready
    requires s.batches[s.marked].stage.Waiting? && s.batches[s.marked].count <= c.gpu.n
    ensures G.Enabled(c.gpu, s, G.Wait(s.marked, s.ci))
    ensures var t := G.Apply(c.gpu, s, G.Wait(s.marked, s.ci));
      && OnlyStage(s, t, s.marked) && (t.batches[s.marked].stage.Passed? || t.batches[s.marked].stage.Writing?)
  {
    G.WaitEnds(c.gpu, s, s.marked);
  }

  lemma AdvanceLeads(c: Config, s: G.State, b: nat)
    requires b < |s.batches| && s.batches[b].stage.Passed?
    ensures G.Enabled(c.gpu, s, G.Advance(b))
    ensures var t := G.Apply(c.gpu, s, G.Advance(b)); OnlyStage(s, t, b) && t.batches[b].stage.Writing?
  {}

  /** With everything before it completed, the next call can begin to write. */
  lemma NextMayWrite(c: Config, run: seq<Event>) returns (longer: seq<Event>)
    requires c.Fits() && IsRun(c, run) && G.Clean(c.gpu, After(c, run).gpu) && SmallCalls(c, After(c, run).gpu)
    requires var s := After(c, run).gpu; s.marked < |s.batches| && s.done == s.ready && s.published < TWO_64
    ensures run <= longer && IsRun(c, longer) && G.Clean(c.gpu, After(c, longer).gpu)
    ensures var s, t := After(c, run).gpu, After(c, longer).gpu;
      OnlyStage(s, t, s.marked) && t.batches[s.marked].stage.Writing?
  {
    GpuInv(c, run);
    longer := run;
    var s := After(c, run).gpu;
    if s.batches[s.marked].stage.Waiting? {
      WaitLeads(c, s);
      G.StepIsClean(c.gpu, s, G.Wait(s.marked, s.ci));
      longer := Extend(c, run, Gpu(G.Wait(s.marked, s.ci)));
    }
    var t := After(c, longer).gpu;
    if t.batches[s.marked].stage.Passed? {
      AdvanceLeads(c, t, s.marked);
      G.StepIsClean(c.gpu, t, G.Advance(s.marked));
      longer := Extend(c, longer, Gpu(G.Advance(s.marked)));
    }
  }

  lemma {:induction false} WriteCall(c: Config, run: seq<Event>, b: nat, i: nat) returns (longer: seq<Event>)
    requires c.Fits() && IsRun(c, run) && G.Clean(c.gpu, After(c, run).gpu)
    requires var s := After(c, run).gpu;
      && b < |s.batches| && s.batches[b].stage.Writing? && s.batches[b].from <= i <= s.batches[b].End()
      && s.published < TWO_64 && forall j: nat :: s.batches[b].from <= j < i ==> j in s.written
    ensures run <= longer && IsRun(c, longer) && G.Clean(c.gpu, After(c, longer).gpu)
    ensures var s, t := After(c, run).gpu, After(c, longer).gpu;
      && OnlyStage(s, t, b) && t.batches == s.batches && G.AllWritten(t, t.batches[b])
    decreases After(c, run).gpu.batches[b].End() - i
  {
    longer := run;
    if i < After(c, run).gpu.batches[b].End() {
      G.StepIsClean(c.gpu, After(c, run).gpu, G.Write(b, i));
      longer := Extend(c, run, Gpu(G.Write(b, i)));
      longer := WriteCall(c, longer, b, i + 1);
    }
  }

  /** What marking and publishing the next call comes to. */
  ghost predicate OneMore(s: G.State, t: G.State) {
    && t.rsvd == s.rsvd && t.marked == s.marked + 1 && |t.batches| == |s.batches| && t.published == t.ready
    && forall i :: 0 <= i < |s.batches| ==>
         t.batches[i].from == s.batches[i].from && t.batches[i].count == s.batches[i].count
  }

  lemma MarkLeads(c: Config, s: G.State)
    requires c.Fits() && G.Inv(c.gpu, s) && s.marked < |s.batches|
    requires s.batches[s.marked].stage.Writing? && G.AllWritten(s, s.batches[s.marked])
    ensures G.Enabled(c.gpu, s, G.Mark(s.marked))
    ensures var t := G.Apply(c.gpu, s, G.Mark(s.marked));
      && t.rsvd == s.rsvd && t.published == s.published && t.marked == s.marked + 1
      && t.batches == G.Staged(s.batches, s.marked, G.Ready) && t.ready == s.batches[s.marked].End() <= s.rsvd
  {
    G.UnmarkedIsAhead(c.gpu.exclusive, s.batches, s.rsvd, s.marked, s.ready, s.marked);
  }

  lemma SubmitLeads(c: Config, s: G.State, m: nat)
    requires c.Fits() && G.Inv(c.gpu, s) && s.marked == m + 1 && s.ready == s.batches[m].End()
    requires c.gpu.exclusive ==> m == |s.batches| - 1
    ensures G.Enabled(c.gpu, s, G.Submit(m)) && G.Apply(c.gpu, s, G.Submit(m)) == s.(published := s.ready)
  {}

  lemma MarkAndSubmit(c: Config, run: seq<Event>) returns (longer: seq<Event>)
    requires c.Fits() && IsRun(c, run) && G.Clean(c.gpu, After(c, run).gpu) && After(c, run).gpu.rsvd < TWO_64
    requires var s := After(c, run).gpu;
      && s.marked < |s.batches| && s.batches[s.marked].stage.Writing? && G.AllWritten(s, s.batches[s.marked])
    ensures run <= longer && IsRun(c, longer) && G.Clean(c.gpu, After(c, longer).gpu)
    ensures OneMore(After(c, run).gpu, After(c, longer).gpu)
  {
    GpuInv(c, run);
    var s := After(c, run).gpu;
    var m := s.marked;
    MarkLeads(c, s);
    G.StepIsClean(c.gpu, s, G.Mark(m));
    longer := Extend(c, run, Gpu(G.Mark(m)));
    GpuInv(c, longer);
    SubmitLeads(c, After(c, longer).gpu, m);
    G.StepIsClean(c.gpu, After(c, longer).gpu, G.Submit(m));
    longer := Extend(c, longer, Gpu(G.Submit(m)));
  }

  /** One more call gets through, from wherever the others are. */
  lemma NextCall(c: Config, run: seq<Event>) returns (longer: seq<Event>)
    requires c.Fits() && IsRun(c, run) && G.Clean(c.gpu, After(c, run).gpu) && SmallCalls(c, After(c, run).gpu)
    requires var s := After(c, run).gpu; s.marked < |s.batches| && s.published == s.ready && s.rsvd < TWO_64
    ensures run <= longer && IsRun(c, longer) && G.Clean(c.gpu, After(c, longer).gpu)
    ensures OneMore(After(c, run).gpu, After(c, longer).gpu)
  {
    GpuInv(c, run);
    longer := PublishedCanComplete(c, run);
    longer := NextMayWrite(c, longer);
    var s := After(c, longer).gpu;
    longer := WriteCall(c, longer, s.marked, s.batches[s.marked].from);
    longer := MarkAndSubmit(c, longer);
  }

  lemma {:induction false} RemainingCalls(c: Config, run: seq<Event>) returns (longer: seq<Event>)
    requires c.Fits() && IsRun(c, run) && G.Clean(c.gpu, After(c, run).gpu) && SmallCalls(c, After(c, run).gpu)
    requires var s := After(c, run).gpu; s.marked <= |s.batches| && s.published == s.ready && s.rsvd < TWO_64
    ensures run <= longer && IsRun(c, longer)
    ensures var s, t := After(c, run).gpu, After(c, longer).gpu;
      t.rsvd == s.rsvd && t.published == t.ready && t.marked == |t.batches|
    decreases |After(c, run).gpu.batches| - After(c, run).gpu.marked
  {
    longer := run;
    if After(c, run).gpu.marked < |After(c, run).gpu.batches| {
      longer := NextCall(c, run);
      longer := RemainingCalls(c, longer);
    }
  }

  /** What is marked can be published: by any of the sharing threads, or by the one thread unless it has moved on. */
  lemma PublishMarked(c: Config, run: seq<Event>) returns (longer: seq<Event>)
    requires c.Fits() && IsRun(c, run) && G.Clean(c.gpu, After(c, run).gpu) && After(c, run).gpu.rsvd < TWO_64
    requires !c.gpu.exclusive || After(c, run).gpu.published == After(c, run).gpu.ready
    ensures run <= longer && IsRun(c, longer) && G.Clean(c.gpu, After(c, longer).gpu)
    ensures var s, t := After(c, run).gpu, After(c, longer).gpu; t == s.(published := s.ready)
  {
    GpuInv(c, run);
    longer := run;
    var s := After(c, run).gpu;
    if s.published < s.ready {
      var m: nat := s.marked - 1;
      G.MarkedEndBelow(c.gpu.exclusive, s.batches, s.rsvd, s.marked, s.ready, m);
      G.StepIsClean(c.gpu, s, G.Submit(m));
      longer := Extend(c, run, Gpu(G.Submit(m)));
    }
  }

  /**
   No deadlock: after any run without errors, if no call is for more than the ring holds, a continuation
   exists in which every call made so far writes, marks and publishes, and the NIC completes all of it.
   One thread by itself must publish what it has marked before it goes on.
   */
  lemma EveryCallCanFinish(c: Config, run: seq<Event>) returns (longer: seq<Event>)
    requires c.Fits() && IsRun(c, run) && NoErrors(run) && SmallCalls(c, After(c, run).gpu)
    requires After(c, run).gpu.rsvd < TWO_64
    requires !c.gpu.exclusive || After(c, run).gpu.published == After(c, run).gpu.ready
    ensures run <= longer && IsRun(c, longer)
    ensures var s, t := After(c, run).gpu, After(c, longer).gpu;
      s.rsvd == t.rsvd == t.ready == t.published == t.done
  {
    RunIsClean(c, run);
    GpuInv(c, run);
    longer := PublishMarked(c, run);
    longer := RemainingCalls(c, longer);
    GpuInv(c, longer);
    longer := PublishedCanComplete(c, longer);
  }

  lemma ReserveFirst(c: Config, count: nat) returns (run: seq<Event>)
    requires c.Fits() && 0 < count <= c.gpu.n
    ensures IsRun(c, run) && NoErrors(run) && SmallCalls(c, After(c, run).gpu)
    ensures var s := After(c, run).gpu; s.rsvd == count && s.published == s.ready == 0
  {
    run := Extend(c, [], Gpu(G.Reserve(count, false)));
    assert After(c, run).gpu.batches == [G.Batch(0, count, G.Waiting)];
  }

  /** So on a new queue a call of up to a ring of entries gets through with no check skipped, to the NIC if the proxy is full. */
  lemma FirstPostArrives(c: Config, count: nat) returns (run: seq<Event>)
    requires c.Fits() && 0 < count <= c.gpu.n
    ensures IsRun(c, run) && After(c, run).gpu.published == After(c, run).proxy.producer == count
    ensures !c.proxy.mode.DbrAssisted? ==> After(c, run).proxy.nicIndex == count
  {
    run := ReserveFirst(c, count);
    run := EveryCallCanFinish(c, run);
    GpuInv(c, run);
    run := ProxyCatchesUp(c, run);
  }

}
