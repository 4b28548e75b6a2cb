/**
 Reference counts of the doorbell pages exported to the GPU, against the driver's registrations.

 Every operation holds one lock, so a run is a sequence of whole operations.  The driver's answers
 are parameters.  A page's GPU address is its host address, which is how an exported page is later
 named for release.
 */
module UarRegistry {
  import opened Bits
  import opened Wrappers

  datatype Reply = Ok | Invalid | DriverError

  /** The driver's answer to a registration. */
  datatype Registration = Registered | Already | Refused

  datatype Cached = Unknown | Can(yes: bool)

  /** `net` is history: exports that succeeded less releases, per page. */
  datatype State = State(count: map<u64, u32>, registered: set<u64>, probe: Cached, net: map<u64, int>)

  datatype Event =
    | Export(page: u64, register: Registration, pointer: bool, undo: bool)
    | Release(page: u64, unregister: bool)
    | Probe(page: u64, register: Registration, undo: bool)

  const EMPTY: State := State(map[], {}, Unknown, map[])

  function CountOf(s: State, a: u64): nat { if a in s.count then s.count[a] else 0 }

  function NetOf(s: State, a: u64): int { if a in s.net then s.net[a] else 0 }

  // ---------- the operations ----------

  /** The count entry is made before anything can fail. */
  function ExportOf(s: State, a: u64, register: Registration, pointer: bool, undo: bool): (State, Reply) {
    if a == 0 then (s, Invalid)
    else
      var n := CountOf(s, a);
      var noted := s.(count := s.count[a := n]);
      if n == 0 && register != Registered then (noted, DriverError)
      else
        var held := if n == 0 then s.registered + {a} else s.registered;
        if !pointer then (noted.(registered := if n == 0 && undo then held - {a} else held), DriverError)
        else (State(s.count[a := (n + 1) % TWO_32], held, s.probe, s.net[a := NetOf(s, a) + 1]), Ok)
  }

  function ReleaseOf(s: State, a: u64, unregister: bool): (State, Reply) {
    if a == 0 || a !in s.count then (s, Invalid)
    else
      var n := (s.count[a] - 1) % TWO_32;
      var less := s.(net := s.net[a := NetOf(s, a) - 1]);
      if n != 0 then (less.(count := s.count[a := n]), Ok)
      else if unregister then (less.(count := s.count - {a}, registered := s.registered - {a}), Ok)
      else (less.(count := s.count - {a}), DriverError)
  }

  function ProbeOf(s: State, a: u64, register: Registration, undo: bool): (State, Reply) {
    if s.probe.Can? then (s, Ok)
    else if a == 0 then (s, Invalid)
    else
      var held := if register == Registered && !undo then s.registered + {a}
                  else if register == Registered then s.registered - {a} else s.registered;
      (s.(probe := Can(register != Refused), registered := held), Ok)
  }

  function Next(s: State, e: Event): State {
    match e
    case Export(a, register, pointer, undo) => ExportOf(s, a, register, pointer, undo).0
    case Release(a, unregister) => ReleaseOf(s, a, unregister).0
    case Probe(a, register, undo) => ProbeOf(s, a, register, undo).0
  }

  // ---------- the code that follows ----------

  class Driver {
    var registered: set<u64>

    constructor ()
      ensures registered == {}
    {
      registered := {};
    }

    method Register(a: u64, answer: Registration)
      modifies this
      ensures registered == if answer == Registered then old(registered) + {a} else old(registered)
    {
      if answer == Registered { registered := registered + {a}; }
    }

    method Unregister(a: u64, works: bool)
      modifies this
      ensures registered == if works then old(registered) - {a} else old(registered)
    {
      if works { registered := registered - {a}; }
    }
  }

  class Registry {
    var refcount: map<u64, u32>
    var checked: bool
    var canRegister: bool
    ghost var net: map<u64, int>

    constructor ()
      ensures refcount == map[] && !checked && net == map[]
    {
      refcount, checked, canRegister, net := map[], false, false, map[];
    }

    ghost function Now(drv: Driver): State
      reads this, drv
    {
      State(refcount, drv.registered, if checked then Can(canRegister) else Unknown, net)
    }

    method ExportUar(drv: Driver, a: u64, register: Registration, pointer: bool, undo: bool) returns (r: Reply)
      modifies this, drv
      ensures (Now(drv), r) == ExportOf(old(Now(drv)), a, register, pointer, undo)
    {
      if a == 0 { return Invalid; }
      ghost var was := refcount;
      if a !in refcount { refcount := refcount[a := 0]; }
      assert refcount == was[a := refcount[a]];
      var registered := false;
      if refcount[a] == 0 {
        drv.Register(a, register);
        if register != Registered { return DriverError; }
        registered := true;
      }
      if !pointer {
        if registered {
          ghost var held := drv.registered;
          drv.Unregister(a, undo);
          assert undo ==> drv.registered == held - {a};
        }
        return DriverError;
      }
      var n: nat := refcount[a];
      refcount := refcount[a := (n + 1) % TWO_32];
      assert refcount == was[a := (n + 1) % TWO_32];
      net := net[a := (if a in net then net[a] else 0) + 1];
      return Ok;
    }

    method UnexportUar(drv: Driver, a: u64, unregister: bool) returns (r: Reply)
      modifies this, drv
      ensures (Now(drv), r) == ReleaseOf(old(Now(drv)), a, unregister)
    {
      if a == 0 { return Invalid; }
      if a !in refcount { return Invalid; }
      ghost var was := refcount;
      var n: int := refcount[a];
      refcount := refcount[a := (n - 1) % TWO_32];
      net := net[a := (if a in net then net[a] else 0) - 1];
      if refcount[a] == 0 {
        refcount := refcount - {a};
        assert refcount == was - {a};
        drv.Unregister(a, unregister);
        if !unregister { return DriverError; }
      }
      return Ok;
    }

    method CanRegisterUar(drv: Driver, a: u64, register: Registration, undo: bool) returns (r: Reply, can: bool)
      modifies this, drv
      ensures (Now(drv), r) == ProbeOf(old(Now(drv)), a, register, undo)
      ensures r == Ok ==> Now(drv).probe == Can(can)
    {
      can := canRegister;
      if !checked {
        if a == 0 { return Invalid, can; }
        ghost var was := drv.registered;
        drv.Register(a, register);
        canRegister := register != Refused;
        if register == Registered { drv.Unregister(a, undo); }
        assert was + {a} - {a} == was - {a};
        checked := true;
        can := canRegister;
      }
      r := Ok;
    }
  }

  // ---------- counts and registrations ----------

  predicate AgreesAt(s: State, a: u64) {
    (a in s.registered <==> CountOf(s, a) > 0) && CountOf(s, a) == NetOf(s, a)
  }

  /** A page is registered exactly when its count is positive, and the count is exports less releases. */
  ghost predicate Inv(s: State) {
    forall a: u64 :: AgreesAt(s, a)
  }

  /** The driver registers a page only when it is not registered yet. */
  predicate Honest(s: State, e: Event) {
    match e
    case Export(a, register, _, _) => CountOf(s, a) == 0 && register == Registered ==> a !in s.registered
    case Release(_, _) => true
    case Probe(a, register, _) => register == Registered ==> a !in s.registered
  }

  /** A step that releases only what was exported, really undoes what it undoes, and keeps counts below 2^32. */
  predicate Safe(s: State, e: Event) {
    match e
    case Export(a, register, pointer, undo) =>
      a != 0 ==>
        && (NetOf(s, a) == 0 && register == Registered && !pointer ==> undo)
        && (pointer ==> NetOf(s, a) != TWO_32 - 1)
    case Release(a, unregister) => a != 0 && a in s.count ==> NetOf(s, a) > 0 && (NetOf(s, a) == 1 ==> unregister)
    case Probe(a, register, undo) => s.probe.Unknown? && a != 0 && register == Registered ==> undo
  }

  lemma Elsewhere(s: State, e: Event, a: u64)
    requires a != e.page
    ensures CountOf(Next(s, e), a) == CountOf(s, a) && NetOf(Next(s, e), a) == NetOf(s, a)
    ensures a in Next(s, e).registered <==> a in s.registered
  {}

  lemma AgreesAtPage(s: State, e: Event)
    requires AgreesAt(s, e.page) && Honest(s, e)
    ensures AgreesAt(Next(s, e), e.page) <==> Safe(s, e)
  {}

  /** One step keeps the agreement exactly when it is safe. */
  lemma StepKeepsExactly(s: State, e: Event)
    requires Inv(s) && Honest(s, e)
    ensures Inv(Next(s, e)) <==> Safe(s, e)
  {
    assert AgreesAt(s, e.page);
    AgreesAtPage(s, e);
    forall a: u64 | a != e.page ensures AgreesAt(Next(s, e), a) {
      assert AgreesAt(s, a);
      Elsewhere(s, e, a);
    }
    if Inv(Next(s, e)) { assert AgreesAt(Next(s, e), e.page); }
  }

  // ---------- runs ----------

  function After(es: seq<Event>): State {
    if es == [] then EMPTY else Next(After(es[..|es| - 1]), es[|es| - 1])
  }

  predicate HonestRun(es: seq<Event>) {
    es != [] ==> HonestRun(es[..|es| - 1]) && Honest(After(es[..|es| - 1]), es[|es| - 1])
  }

  predicate SafeRun(es: seq<Event>) {
    es != [] ==> SafeRun(es[..|es| - 1]) && Safe(After(es[..|es| - 1]), es[|es| - 1])
  }

  /** Over every interleaving of probes, exports and releases whose steps are all safe. */
  lemma {:induction false} CountsAgree(es: seq<Event>)
    requires HonestRun(es) && SafeRun(es)
    ensures Inv(After(es))
  {
    if es != [] {
      CountsAgree(es[..|es| - 1]);
      StepKeepsExactly(After(es[..|es| - 1]), es[|es| - 1]);
    }
  }

  // ---------- what the answers mean ----------

  /** Nothing about any page's net count, nor about any registration, has changed. */
  ghost predicate Untouched(s: State, t: State) {
    t.registered == s.registered && forall a: u64 :: NetOf(t, a) == NetOf(s, a)
  }

  /** One page's net count has changed by `d`, no other's has, and no other page's registration. */
  ghost predicate Moved(s: State, t: State, page: u64, d: int) {
    && NetOf(t, page) == NetOf(s, page) + d
    && forall a: u64 :: a != page ==> NetOf(t, a) == NetOf(s, a) && (a in t.registered <==> a in s.registered)
  }

  /**
   Over every honest and safe run: an export answers Ok exactly when its page's net count goes up by one, and
   then the page is registered; any other answer leaves all net counts and registrations.  It is Ok exactly
   when the page is there, the driver has its GPU address, and has registered it if it was not exported yet.
   */
  lemma ExportAnswers(es: seq<Event>, page: u64, register: Registration, pointer: bool, undo: bool)
    requires HonestRun(es + [Export(page, register, pointer, undo)]) && SafeRun(es + [Export(page, register, pointer, undo)])
    ensures var s := After(es); var (t, reply) := ExportOf(s, page, register, pointer, undo);
      && (reply == Ok <==> NetOf(t, page) == NetOf(s, page) + 1)
      && (reply == Ok ==> Moved(s, t, page, 1) && page in t.registered)
      && (reply != Ok ==> Untouched(s, t))
      && (reply == Ok <==> page != 0 && pointer && (NetOf(s, page) == 0 ==> register.Registered?))
      && (reply == Invalid <==> page == 0)
  {
    LastStep(es, Export(page, register, pointer, undo));
    var s := After(es);
    assert AgreesAt(s, page);
    var t := ExportOf(s, page, register, pointer, undo).0;
    forall a: u64 | a != page ensures NetOf(t, a) == NetOf(s, a) && (a in t.registered <==> a in s.registered) {
      Elsewhere(s, Export(page, register, pointer, undo), a);
    }
  }

  lemma LastStep(es: seq<Event>, e: Event)
    requires HonestRun(es + [e]) && SafeRun(es + [e])
    ensures HonestRun(es) && SafeRun(es) && Honest(After(es), e) && Safe(After(es), e) && Inv(After(es))
  {
    assert (es + [e])[..|es|] == es;
    CountsAgree(es);
  }

  lemma ReleaseAtPage(s: State, page: u64, unregister: bool)
    requires AgreesAt(s, page) && Safe(s, Release(page, unregister))
    ensures var (t, reply) := ReleaseOf(s, page, unregister);
      && (reply == Ok <==> page != 0 && NetOf(s, page) > 0) && reply != DriverError
      && (reply == Ok ==> NetOf(t, page) == NetOf(s, page) - 1 && (page in t.registered <==> NetOf(t, page) > 0))
      && (reply != Ok ==> t == s)
  {}

  /**
   A release answers Ok exactly when the page's net count goes down by one, and then the page is registered
   exactly if some export is still out; it is Ok exactly when some export was.
   */
  lemma ReleaseAnswers(es: seq<Event>, page: u64, unregister: bool)
    requires HonestRun(es + [Release(page, unregister)]) && SafeRun(es + [Release(page, unregister)])
    ensures var s := After(es); var (t, reply) := ReleaseOf(s, page, unregister);
      && (reply == Ok <==> NetOf(t, page) == NetOf(s, page) - 1)
      && (reply == Ok ==> Moved(s, t, page, -1) && (page in t.registered <==> NetOf(t, page) > 0))
      && (reply != Ok ==> Untouched(s, t))
      && (reply == Ok <==> page != 0 && NetOf(s, page) > 0)
      && reply != DriverError
  {
    LastStep(es, Release(page, unregister));
    var s := After(es);
    assert AgreesAt(s, page);
    ReleaseAtPage(s, page, unregister);
    var t := ReleaseOf(s, page, unregister).0;
    forall a: u64 | a != page ensures NetOf(t, a) == NetOf(s, a) && (a in t.registered <==> a in s.registered) {
      Elsewhere(s, Release(page, unregister), a);
    }
  }

  /** The driver's answer to the first probe of a run that had a page to try. */
  function FirstProbe(es: seq<Event>): Option<Registration> {
    if es == [] then None
    else if FirstProbe(es[..|es| - 1]).Some? then FirstProbe(es[..|es| - 1])
    else
      match es[|es| - 1]
      case Probe(page, register, _) => if page == 0 then None else Some(register)
      case _ => None
  }

  /** Over every run: the cached answer is that of the first probe, and is yes exactly when it was not refused. */
  lemma {:induction false} ProbeAnswers(es: seq<Event>)
    ensures After(es).probe ==
      match FirstProbe(es) case None => Unknown case Some(register) => Can(register.Registered? || register.Already?)
  {
    if es != [] { ProbeAnswers(es[..|es| - 1]); }
  }

  /** A probe is answered unless it is the first and has no page; it moves no net count. */
  lemma ProbeReplies(es: seq<Event>, page: u64, register: Registration, undo: bool)
    ensures var s := After(es); var (t, reply) := ProbeOf(s, page, register, undo);
      && (reply == Ok <==> FirstProbe(es).Some? || page != 0) && (reply != Ok ==> t == s && reply == Invalid)
      && (reply == Ok ==> t.probe.Can?) && forall a: u64 :: NetOf(t, a) == NetOf(s, a) && CountOf(t, a) == CountOf(s, a)
  {
    ProbeAnswers(es);
  }

  /** The first unsafe step of a run is the first after which the counts disagree. */
  lemma FirstUnsafeBreaks(es: seq<Event>)
    requires es != [] && HonestRun(es) && SafeRun(es[..|es| - 1])
    ensures Inv(After(es)) <==> Safe(After(es[..|es| - 1]), es[|es| - 1])
  {
    CountsAgree(es[..|es| - 1]);
    StepKeepsExactly(After(es[..|es| - 1]), es[|es| - 1]);
  }

  /** The probe leaves the registrations as they were, exactly when a registration it made is undone. */
  lemma ProbeLeavesRegistrations(s: State, a: u64, register: Registration, undo: bool)
    requires Honest(s, Probe(a, register, undo))
    ensures ProbeOf(s, a, register, undo).0.registered == s.registered <==>
            (s.probe.Unknown? && a != 0 && register == Registered ==> undo)
    ensures ProbeOf(s, a, register, undo).0.count == s.count
  {}

  /** Once it has an answer, every later probe gives the same one. */
  lemma {:induction false} ProbeIsCached(es: seq<Event>, more: seq<Event>)
    requires After(es).probe.Can?
    ensures After(es + more).probe == After(es).probe
    decreases |more|
  {
    if more == [] {
      assert es + more == es;
    } else {
      var all := es + more;
      assert all[..|all| - 1] == es + more[..|more| - 1];
      ProbeIsCached(es, more[..|more| - 1]);
    }
  }

  /** A failed export leaves an entry of zero; releasing it wraps the count to 2^32 - 1 on a page nobody registered. */
  lemma ReleaseAfterFailedExport(a: u64)
    requires a != 0
    ensures var s := After([Export(a, Refused, true, true), Release(a, true)]);
      CountOf(s, a) == TWO_32 - 1 && a !in s.registered && !Inv(s)
  {
    var first, es := [Export(a, Refused, true, true)], [Export(a, Refused, true, true), Release(a, true)];
    assert first[..0] == [] && es[..1] == first;
    var s := After(es);
    assert After(first) == EMPTY.(count := map[a := 0]);
    assert CountOf(s, a) == TWO_32 - 1;
    assert !AgreesAt(s, a);
  }

}
