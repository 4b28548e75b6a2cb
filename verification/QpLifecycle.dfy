/**
 The queue-pair state machine: what a modify call sends to the device, what the library
 remembers, and how the remembered state relates to the device's over every run of calls.

 The device is a second machine.  It runs a command only from the state the command starts
 from (section 10.3.1 of the InfiniBand Architecture Specification, Volume 1), may refuse any
 command without changing, and may fall into the error state by itself.
 */
module QpLifecycle {
  import opened Bits
  import opened QpAttributes
  import opened Wrappers

  datatype Opcode = Rst2Init | Init2Init | Init2Rtr | Rtr2Rts | Rts2Rts | ToErr | ToRst

  /** Where the device goes when it runs a command. */
  function Target(op: Opcode): State {
    match op
    case Rst2Init => INIT
    case Init2Init => INIT
    case Init2Rtr => RTR
    case Rtr2Rts => RTS
    case Rts2Rts => RTS
    case ToErr => ERR
    case ToRst => RST
  }

  /** What the library writes into `m_current_state` after each command: seven assignments, one a transition method. */
  function Remembered(op: Opcode): State {
    match op
    case Rst2Init => INIT  // src/doca_verbs_qp.cpp:836
    case Init2Init => INIT // src/doca_verbs_qp.cpp:886
    case Init2Rtr => RTR   // src/doca_verbs_qp.cpp:1019
    case Rtr2Rts => RTS    // src/doca_verbs_qp.cpp:1077
    case Rts2Rts => RTS    // src/doca_verbs_qp.cpp:1151
    case ToErr => ERR      // src/doca_verbs_qp.cpp:1178
    case ToRst => RST      // src/doca_verbs_qp.cpp:1205
  }

  /** Each assignment is the state the device went to. */
  lemma RememberedIsTarget(op: Opcode)
    ensures Remembered(op) == Target(op)
  {}

  /** The states a command starts from. */
  predicate StartsFrom(op: Opcode, s: State) {
    match op
    case Rst2Init => s == RST
    case Init2Init => s == INIT
    case Init2Rtr => s == INIT
    case Rtr2Rts => s == RTR
    case Rts2Rts => s == RTS
    case ToErr => true
    case ToRst => true
  }

  function Required(op: Opcode): (r: seq<nat>)
    ensures Table(r)
  {
    match op
    case Rst2Init => RST2INIT_REQUIRED
    case Init2Rtr => INIT2RTR_REQUIRED
    case Rtr2Rts => RTR2RTS_REQUIRED
    case _ => []
  }

  function Optional(op: Opcode): (r: seq<nat>)
    ensures Table(r)
  {
    match op
    case Rst2Init => RST2INIT_OPTIONAL
    case Init2Init => INIT2INIT_OPTIONAL
    case Init2Rtr => INIT2RTR_OPTIONAL
    case Rtr2Rts => RTR2RTS_OPTIONAL
    case Rts2Rts => RTS2RTS_OPTIONAL
    case ToErr => X2ANY_OPTIONAL
    case ToRst => X2ANY_OPTIONAL
  }

  // ---------- what one call sends ----------

  /** The dispatch on the two states. */
  function Dispatch(current: State, next: State): Option<Opcode> {
    match next
    case RST => Some(ToRst)
    case INIT => if current == RST then Some(Rst2Init) else if current == INIT then Some(Init2Init) else None
    case RTR => if current == INIT then Some(Init2Rtr) else None
    case RTS => if current == RTR then Some(Rtr2Rts) else if current == RTS then Some(Rts2Rts) else None
    case ERR => Some(ToErr)
    case Unknown => None
  }

  /** The dispatch picks a command exactly when the lifecycle has one between the two states, and then picks that one. */
  lemma DispatchFollowsLifecycle(current: State, next: State)
    ensures Dispatch(current, next).Some? <==> exists op :: StartsFrom(op, current) && Target(op) == next
    ensures Dispatch(current, next).Some? ==>
              StartsFrom(Dispatch(current, next).value, current) && Target(Dispatch(current, next).value) == next
    ensures forall op :: StartsFrom(op, current) && Target(op) == next ==> Dispatch(current, next) == Some(op)
    ensures Dispatch(RST, INIT) == Some(Rst2Init) && Dispatch(INIT, INIT) == Some(Init2Init)
    ensures Dispatch(INIT, RTR) == Some(Init2Rtr) && Dispatch(RTR, RTS) == Some(Rtr2Rts) && Dispatch(RTS, RTS) == Some(Rts2Rts)
    ensures Dispatch(current, ERR) == Some(ToErr) && Dispatch(current, RST) == Some(ToRst)
    ensures Dispatch(current, next).Some? <==>
      next in {RST, ERR} || (current, next) in {(RST, INIT), (INIT, INIT), (INIT, RTR), (RTR, RTS), (RTS, RTS)}
  {
    var choice := Dispatch(current, next);
    if choice.Some? {
      assert StartsFrom(choice.value, current) && Target(choice.value) == next;
    }
  }

  function CurrentOf(cached: State, a: Attributes, mask: u32): State {
    if Has(mask, CURRENT_STATE) then a.currentState else cached
  }

  function NextOf(cached: State, a: Attributes, mask: u32): State {
    if Has(mask, NEXT_STATE) then a.nextState else CurrentOf(cached, a, mask)
  }

  /** Which states a call goes from and to: the ones it names, else the remembered one, and where it already is. */
  lemma StatesByBit(cached: State, a: Attributes, mask: u32)
    ensures CurrentOf(cached, a, mask) == if TestBit(mask, 6) then a.currentState else cached
    ensures TestBit(mask, 5) ==> NextOf(cached, a, mask) == a.nextState
    ensures !TestBit(mask, 5) ==> NextOf(cached, a, mask) == if TestBit(mask, 6) then a.currentState else cached
  {
    HasIsBit(mask, 5);
    HasIsBit(mask, 6);
  }

  /** Whether building the command asks the system for an address or a RoCE version. */
  predicate LooksUp(op: Opcode, a: Attributes, mask: u32, dev: Device) {
    || (op == Init2Rtr && (a.ah.addressType.IPv4? || a.ah.addressType.IPv6? || dev.ethernet))
    || (op == Rts2Rts && Has(mask, AH_ATTR) && dev.dscpSupported && dev.ethernet)
  }

  /** The checks of the transition itself. */
  predicate Permitted(op: Opcode, a: Attributes, mask: u32, dev: Device, lookups: bool) {
    && MaskAccepted(mask, Required(op), Optional(op))
    && (op in {Init2Rtr, Rts2Rts} && Has(mask, AH_ATTR) ==> a.ahEnabled)
    && (op == Init2Rtr ==> a.pathMtu <= 5)
    && (LooksUp(op, a, mask, dev) ==> lookups)
  }

  /** The command a call sends, if it passes every check on the way. */
  function Issued(cached: State, a: Attributes, mask: u32, dev: Device, lookups: bool): Option<Opcode> {
    var choice := Dispatch(CurrentOf(cached, a, mask), NextOf(cached, a, mask));
    if Checked(a, mask, dev).0 && choice.Some? && Permitted(choice.value, Checked(a, mask, dev).1, mask, dev, lookups)
    then choice else None
  }

  // ---------- the checks by bit number ----------

  /** Every bit of `must` is set, and none outside `may`. */
  ghost predicate Between(mask: u32, must: set<nat>, may: set<nat>) {
    && (forall b: nat :: b in must ==> TestBit(mask, b))
    && (forall b: nat :: TestBit(mask, b) ==> b in may)
  }

  lemma MaskBetween(mask: u32, required: seq<nat>, optional: seq<nat>, must: set<nat>, may: set<nat>)
    requires Table(required) && Table(optional)
    requires forall b: nat :: b in required <==> b in must
    requires forall b: nat :: b in required || b in optional <==> b in may
    ensures MaskAccepted(mask, required, optional) <==> Between(mask, must, may)
  {
    MaskAcceptedMeans(mask, required, optional);
    forall b: nat ensures Has(mask, b) <==> TestBit(mask, b) { HasIsBit(mask, b); }
  }

  /**
   The exact masks each command takes.  0 and 1 allow remote writes and reads, 2 is the partition key, 3 the
   receiver-not-ready timer, 4 the port, 5 and 6 the next and the current state, 7 the path's transfer unit,
   8 and 9 the sequence numbers to receive and to send, 10 the destination, 11 to 13 the timeout and the two
   retry counts, 14 the address, 15 the atomic mode, 16 and 17 the read depths out and in.
   */
  lemma MasksTaken(op: Opcode, mask: u32)
    ensures MaskAccepted(mask, Required(op), Optional(op)) <==>
      match op
      case Rst2Init => Between(mask, {0, 1, 2, 4}, {0, 1, 2, 4, 5, 6, 15})
      case Init2Init => Between(mask, {}, {0, 1, 2, 4, 5, 6, 15})
      case Init2Rtr => Between(mask, {3, 7, 8, 10, 14}, {0, 1, 2, 3, 5, 6, 7, 8, 10, 14, 15, 17})
      case Rtr2Rts => Between(mask, {9, 11, 12, 13}, {0, 3, 5, 6, 9, 11, 12, 13, 15, 16})
      case Rts2Rts => Between(mask, {}, {0, 1, 3, 5, 6, 14, 15})
      case ToErr => Between(mask, {}, {5, 6})
      case ToRst => Between(mask, {}, {5, 6})
  {
    match op
    case Rst2Init => MaskBetween(mask, Required(op), Optional(op), {0, 1, 2, 4}, {0, 1, 2, 4, 5, 6, 15});
    case Init2Init => MaskBetween(mask, Required(op), Optional(op), {}, {0, 1, 2, 4, 5, 6, 15});
    case Init2Rtr =>
      MaskBetween(mask, Required(op), Optional(op), {3, 7, 8, 10, 14}, {0, 1, 2, 3, 5, 6, 7, 8, 10, 14, 15, 17});
    case Rtr2Rts =>
      MaskBetween(mask, Required(op), Optional(op), {9, 11, 12, 13}, {0, 3, 5, 6, 9, 11, 12, 13, 15, 16});
    case Rts2Rts => MaskBetween(mask, Required(op), Optional(op), {}, {0, 1, 3, 5, 6, 14, 15});
    case _ => MaskBetween(mask, Required(op), Optional(op), {}, {5, 6});
  }

  const TO_INIT: u32 := 0x8037
  const TO_RTR: u32 := 0x2_45a8
  const TO_RTS: u32 := 0x1_3a20

  /** A mask's bits byte by byte. */
  lemma BytesOfMask(mask: u32, lo: nat, mid: nat, hi: nat)
    requires mask == lo + 0x100 * mid + 0x1_0000 * hi && lo < 0x100 && mid < 0x100
    ensures forall b: nat :: b < 8 ==> TestBit(mask, b) == TestBit(lo, b) && TestBit(mask, b + 8) == TestBit(mid, b)
    ensures forall b: nat :: b < 8 ==> TestBit(mask, b + 16) == TestBit(hi, b)
  {
    Pow2Values();
    ModUnique(mask, 0x100, mid + 0x100 * hi, lo);
    ModUnique(mid + 0x100 * hi, 0x100, hi, mid);
    ModUnique(mask, 0x1_0000, hi, lo + 0x100 * mid);
    ShrIsDiv(mask, W8);
    ShrIsDiv(mask, W16);
    LowIsMod(mask, W8);
    LowIsMod(Shr(mask, W8), W8);
    forall b: nat | b < 8
      ensures TestBit(mask, b) == TestBit(lo, b) && TestBit(mask, b + 8) == TestBit(mid, b)
      ensures TestBit(mask, b + 16) == TestBit(hi, b)
    {
      LowBit(mask, W8, b);
      ShrBit(mask, W8, b);
      LowBit(Shr(mask, W8), W8, b);
      ShrBit(mask, W16, b);
    }
  }

  lemma SmallBits(x: nat)
    ensures TestBit(x, 0) == (x % 2 == 1) && TestBit(x, 1) == (x / 2 % 2 == 1) && TestBit(x, 2) == (x / 4 % 2 == 1)
    ensures TestBit(x, 3) == (x / 8 % 2 == 1) && TestBit(x, 4) == (x / 16 % 2 == 1) && TestBit(x, 5) == (x / 32 % 2 == 1)
    ensures TestBit(x, 6) == (x / 64 % 2 == 1) && TestBit(x, 7) == (x / 128 % 2 == 1)
  {
    assert Pow2(0) == 1 && Pow2(1) == 2 && Pow2(2) == 4 && Pow2(3) == 8;
    assert Pow2(4) == 16 && Pow2(5) == 32 && Pow2(6) == 64 && Pow2(7) == 128;
    forall k: nat ensures TestBit(x, k) <==> x / Pow2(k) % 2 == 1 { BitIsDiv(x, k); }
  }

  lemma BitIsDiv(x: nat, k: nat)
    ensures TestBit(x, k) <==> x / Pow2(k) % 2 == 1
  {
    ShrBit(x, k, 0);
    ShrIsDiv(x, k);
  }

  /** The bits of a byte at `at` are those in `bits`. */
  predicate ByteHas(x: nat, bits: set<nat>, at: nat) {
    && (x % 2 == 1 <==> at in bits) && (x / 2 % 2 == 1 <==> at + 1 in bits)
    && (x / 4 % 2 == 1 <==> at + 2 in bits) && (x / 8 % 2 == 1 <==> at + 3 in bits)
    && (x / 16 % 2 == 1 <==> at + 4 in bits) && (x / 32 % 2 == 1 <==> at + 5 in bits)
    && (x / 64 % 2 == 1 <==> at + 6 in bits) && (x / 128 % 2 == 1 <==> at + 7 in bits)
  }

  lemma ByteOfMask(x: nat, bits: set<nat>, at: nat, b: nat)
    requires ByteHas(x, bits, at) && b < 8
    ensures TestBit(x, b) <==> at + b in bits
  {
    SmallBits(x);
  }

  lemma MaskBits(mask: u32, lo: nat, mid: nat, hi: nat, bits: set<nat>)
    requires mask == lo + 0x100 * mid + 0x1_0000 * hi && lo < 0x100 && mid < 0x100 && hi < 0x100
    requires ByteHas(lo, bits, 0) && ByteHas(mid, bits, 8) && ByteHas(hi, bits, 16)
    requires forall b :: b in bits ==> b < 24
    ensures forall b: nat :: TestBit(mask, b) <==> b in bits
  {
    BytesOfMask(mask, lo, mid, hi);
    Pow2Values();
    forall b: nat ensures TestBit(mask, b) <==> b in bits {
      if b < 8 {
        ByteOfMask(lo, bits, 0, b);
      } else if b < 16 {
        var k: nat := b - 8;
        assert TestBit(mask, k + 8) == TestBit(mid, k);
        ByteOfMask(mid, bits, 8, k);
      } else if b < 24 {
        var k: nat := b - 16;
        assert TestBit(mask, k + 16) == TestBit(hi, k);
        ByteOfMask(hi, bits, 16, k);
      } else {
        HighBit(mask, W24, b);
      }
    }
  }

  lemma InitMask()
    ensures forall b: nat :: TestBit(TO_INIT, b) <==> b in {0, 1, 2, 4, 5, 15}
  {
    MaskBits(TO_INIT, 0x37, 0x80, 0x0, {0, 1, 2, 4, 5, 15});
  }

  lemma RtrMask()
    ensures forall b: nat :: TestBit(TO_RTR, b) <==> b in {3, 5, 7, 8, 10, 14, 17}
  {
    MaskBits(TO_RTR, 0xa8, 0x45, 0x2, {3, 5, 7, 8, 10, 14, 17});
  }

  lemma RtsMask()
    ensures forall b: nat :: TestBit(TO_RTS, b) <==> b in {5, 9, 11, 12, 13, 16}
  {
    MaskBits(TO_RTS, 0x20, 0x3a, 0x1, {5, 9, 11, 12, 13, 16});
  }

  // ---------- the two machines ----------

  class Firmware {
    var state: State

    constructor ()
      ensures state == RST
    {
      state := RST;
    }

    method Execute(op: Opcode, willing: bool) returns (ok: bool)
      modifies this
      ensures ok <==> willing && StartsFrom(op, old(state))
      ensures state == if ok then Target(op) else old(state)
    {
      ok := willing && StartsFrom(op, state);
      if ok { state := Target(op); }
    }

    method Fault()
      modifies this
      ensures state == ERR
    {
      state := ERR;
    }
  }

  class Qp {
    var currentState: State
    ghost var trail: seq<Done>    // the modify calls that succeeded

    constructor ()
      ensures currentState == RST && trail == []
    {
      currentState, trail := RST, [];
    }

    ghost function Now(fw: Firmware): World
      reads this, fw
    {
      World(currentState, fw.state, trail)
    }

    /** The `is_*_attrs_valid` test of a transition. */
    static method MaskValid(op: Opcode, mask: u32) returns (ok: bool)
      ensures ok <==> MaskAccepted(mask, Required(op), Optional(op))
    {
      ok := MaskAccepted(mask, Required(op), Optional(op));
    }

    // The seven transition methods.  Each assigns its own state on success.

    method Rst2InitQp(attr: QpAttr, mask: u32, dev: Device, fw: Firmware, lookups: bool, willing: bool) returns (ok: bool)
      modifies this`currentState, fw
      ensures ok <==> Permitted(Rst2Init, attr.values, mask, dev, lookups) && willing && StartsFrom(Rst2Init, old(fw.state))
      ensures ok ==> currentState == INIT && fw.state == Target(Rst2Init)
      ensures !ok ==> currentState == old(currentState) && fw.state == old(fw.state)
    {
      ok := MaskValid(Rst2Init, mask);
      if !ok { return false; }
      ok := fw.Execute(Rst2Init, willing);
      if ok { currentState := INIT; }
    }

    method Init2InitQp(attr: QpAttr, mask: u32, dev: Device, fw: Firmware, lookups: bool, willing: bool) returns (ok: bool)
      modifies this`currentState, fw
      ensures ok <==> Permitted(Init2Init, attr.values, mask, dev, lookups) && willing && StartsFrom(Init2Init, old(fw.state))
      ensures ok ==> currentState == INIT && fw.state == Target(Init2Init)
      ensures !ok ==> currentState == old(currentState) && fw.state == old(fw.state)
    {
      ok := MaskValid(Init2Init, mask);
      if !ok { return false; }
      ok := fw.Execute(Init2Init, willing);
      if ok { currentState := INIT; }
    }

    method Init2RtrQp(attr: QpAttr, mask: u32, dev: Device, fw: Firmware, lookups: bool, willing: bool) returns (ok: bool)
      modifies this`currentState, fw
      ensures ok <==> Permitted(Init2Rtr, attr.values, mask, dev, lookups) && willing && StartsFrom(Init2Rtr, old(fw.state))
      ensures ok ==> currentState == RTR && fw.state == Target(Init2Rtr)
      ensures !ok ==> currentState == old(currentState) && fw.state == old(fw.state)
    {
      ok := MaskValid(Init2Rtr, mask);
      if !ok { return false; }
      if Has(mask, AH_ATTR) && !attr.values.ahEnabled { return false; }
      if attr.values.pathMtu > 5 { return false; }
      if LooksUp(Init2Rtr, attr.values, mask, dev) && !lookups { return false; }
      ok := fw.Execute(Init2Rtr, willing);
      if ok { currentState := RTR; }
    }

    method Rtr2RtsQp(attr: QpAttr, mask: u32, dev: Device, fw: Firmware, lookups: bool, willing: bool) returns (ok: bool)
      modifies this`currentState, fw
      ensures ok <==> Permitted(Rtr2Rts, attr.values, mask, dev, lookups) && willing && StartsFrom(Rtr2Rts, old(fw.state))
      ensures ok ==> currentState == RTS && fw.state == Target(Rtr2Rts)
      ensures !ok ==> currentState == old(currentState) && fw.state == old(fw.state)
    {
      ok := MaskValid(Rtr2Rts, mask);
      if !ok { return false; }
      ok := fw.Execute(Rtr2Rts, willing);
      if ok { currentState := RTS; }
    }

    method Rts2RtsQp(attr: QpAttr, mask: u32, dev: Device, fw: Firmware, lookups: bool, willing: bool) returns (ok: bool)
      modifies this`currentState, fw
      ensures ok <==> Permitted(Rts2Rts, attr.values, mask, dev, lookups) && willing && StartsFrom(Rts2Rts, old(fw.state))
      ensures ok ==> currentState == RTS && fw.state == Target(Rts2Rts)
      ensures !ok ==> currentState == old(currentState) && fw.state == old(fw.state)
    {
      ok := MaskValid(Rts2Rts, mask);
      if !ok { return false; }
      if Has(mask, AH_ATTR) && !attr.values.ahEnabled { return false; }
      if LooksUp(Rts2Rts, attr.values, mask, dev) && !lookups { return false; }
      ok := fw.Execute(Rts2Rts, willing);
      if ok { currentState := RTS; }
    }

    method ToErrQp(attr: QpAttr, mask: u32, dev: Device, fw: Firmware, lookups: bool, willing: bool) returns (ok: bool)
      modifies this`currentState, fw
      ensures ok <==> Permitted(ToErr, attr.values, mask, dev, lookups) && willing && StartsFrom(ToErr, old(fw.state))
      ensures ok ==> currentState == ERR && fw.state == Target(ToErr)
      ensures !ok ==> currentState == old(currentState) && fw.state == old(fw.state)
    {
      ok := MaskValid(ToErr, mask);
      if !ok { return false; }
      ok := fw.Execute(ToErr, willing);
      if ok { currentState := ERR; }
    }

    method ToRstQp(attr: QpAttr, mask: u32, dev: Device, fw: Firmware, lookups: bool, willing: bool) returns (ok: bool)
      modifies this`currentState, fw
      ensures ok <==> Permitted(ToRst, attr.values, mask, dev, lookups) && willing && StartsFrom(ToRst, old(fw.state))
      ensures ok ==> currentState == RST && fw.state == Target(ToRst)
      ensures !ok ==> currentState == old(currentState) && fw.state == old(fw.state)
    {
      ok := MaskValid(ToRst, mask);
      if !ok { return false; }
      ok := fw.Execute(ToRst, willing);
      if ok { currentState := RST; }
    }

    /** The call the dispatch makes. */
    method Call(op: Opcode, attr: QpAttr, mask: u32, dev: Device, fw: Firmware, lookups: bool, willing: bool)
      returns (ok: bool)
      modifies this`currentState, fw
      ensures ok <==> Permitted(op, attr.values, mask, dev, lookups) && willing && StartsFrom(op, old(fw.state))
      ensures ok ==> currentState == Remembered(op) && fw.state == Target(op)
      ensures !ok ==> currentState == old(currentState) && fw.state == old(fw.state)
    {
      match op {
        case Rst2Init => ok := Rst2InitQp(attr, mask, dev, fw, lookups, willing);
        case Init2Init => ok := Init2InitQp(attr, mask, dev, fw, lookups, willing);
        case Init2Rtr => ok := Init2RtrQp(attr, mask, dev, fw, lookups, willing);
        case Rtr2Rts => ok := Rtr2RtsQp(attr, mask, dev, fw, lookups, willing);
        case Rts2Rts => ok := Rts2RtsQp(attr, mask, dev, fw, lookups, willing);
        case ToErr => ok := ToErrQp(attr, mask, dev, fw, lookups, willing);
        case ToRst => ok := ToRstQp(attr, mask, dev, fw, lookups, willing);
      }
    }

    /** A call that fails, for whatever reason, changes neither state. */
    method Modify(attr: QpAttr, mask: u32, dev: Device, fw: Firmware, lookups: bool, willing: bool) returns (ok: bool)
      modifies this, attr, fw
      ensures attr.values == Checked(old(attr.values), mask, dev).1
      ensures var choice := Issued(old(currentState), old(attr.values), mask, dev, lookups);
        && (ok <==> choice.Some? && willing && StartsFrom(choice.value, old(fw.state)))
        && (ok ==> currentState == Remembered(choice.value) && fw.state == Target(choice.value))
      ensures !ok ==> currentState == old(currentState) && fw.state == old(fw.state)
      // So the call is one lawful step, and extends every lawful run that led here by that step.
      ensures var e := Event.Modify(old(attr.values), mask, lookups, ok);
        && Obeys(old(Now(fw)), e, dev) && Now(fw) == Next(old(Now(fw)), e, dev)
        && forall es :: Lawful(es, dev) && After(es, dev) == old(Now(fw)) ==>
             Lawful(es + [e], dev) && After(es + [e], dev) == Now(fw)
    {
      ghost var before, asked := Now(fw), attr.values;
      ok := Change(attr, mask, dev, fw, lookups, willing);
      ghost var choice := Issued(before.cached, asked, mask, dev, lookups);
      if ok { trail := trail + [Done(choice.value, mask)]; }
      CallIsStep(before, asked, mask, dev, lookups, willing, ok, Now(fw));
      StepExtendsRuns(before, Event.Modify(asked, mask, lookups, ok), dev);
    }

    method Change(attr: QpAttr, mask: u32, dev: Device, fw: Firmware, lookups: bool, willing: bool) returns (ok: bool)
      modifies this`currentState, attr, fw
      ensures attr.values == Checked(old(attr.values), mask, dev).1
      ensures var choice := Issued(old(currentState), old(attr.values), mask, dev, lookups);
        && (ok <==> choice.Some? && willing && StartsFrom(choice.value, old(fw.state)))
        && (ok ==> currentState == Remembered(choice.value) && fw.state == Target(choice.value))
      ensures !ok ==> currentState == old(currentState) && fw.state == old(fw.state)
    {
      ok := attr.IsValid(mask, dev);
      if !ok { return false; }
      var current := if Has(mask, CURRENT_STATE) then attr.values.currentState else currentState;
      var next := if Has(mask, NEXT_STATE) then attr.values.nextState else current;
      var choice := Choose(current, next);
      if choice.None? { return false; }
      ok := Call(choice.value, attr, mask, dev, fw, lookups, willing);
    }

    static method Choose(current: State, next: State) returns (choice: Option<Opcode>)
      ensures choice == Dispatch(current, next)
      ensures choice.Some? <==> exists op :: StartsFrom(op, current) && Target(op) == next
      ensures choice.Some? ==> StartsFrom(choice.value, current) && Target(choice.value) == next
    {
      DispatchFollowsLifecycle(current, next);
      match next {
        case RST => return Some(ToRst);
        case INIT =>
          if current == RST { return Some(Rst2Init); }
          if current == INIT { return Some(Init2Init); }
        case RTR =>
          if current == INIT { return Some(Init2Rtr); }
        case RTS =>
          if current == RTR { return Some(Rtr2Rts); }
          if current == RTS { return Some(Rts2Rts); }
        case ERR => return Some(ToErr);
        case Unknown =>
      }
      return None;
    }
  }

  // ---------- runs ----------

  datatype Done = Done(op: Opcode, mask: u32)

  /** Both states, and the commands that succeeded so far. */
  datatype World = World(cached: State, firmware: State, trail: seq<Done>)

  /** `reply` is the device's answer, if it is asked. */
  datatype Event =
    | Modify(a: Attributes, mask: u32, lookups: bool, reply: bool)
    | Fault

  const START: World := World(RST, RST, [])

  function Asked(w: World, e: Event, dev: Device): Option<Opcode> {
    if e.Modify? then Issued(w.cached, e.a, e.mask, dev, e.lookups) else None
  }

  predicate Succeeds(w: World, e: Event, dev: Device) {
    e.Modify? && Asked(w, e, dev).Some? && e.reply
  }

  function Next(w: World, e: Event, dev: Device): World {
    if e.Fault? then w.(firmware := ERR)
    else if Succeeds(w, e, dev) then
      var op := Asked(w, e, dev).value;
      World(Remembered(op), Target(op), w.trail + [Done(op, e.mask)])
    else w
  }

  /** A device that runs a command only from the state the command starts from. */
  predicate Obeys(w: World, e: Event, dev: Device) {
    Succeeds(w, e, dev) ==> StartsFrom(Asked(w, e, dev).value, w.firmware)
  }

  function After(es: seq<Event>, dev: Device): World {
    if es == [] then START else Next(After(es[..|es| - 1], dev), es[|es| - 1], dev)
  }

  /** A run against a device that keeps to the rules. */
  predicate Lawful(es: seq<Event>, dev: Device) {
    es != [] ==>
      && Lawful(es[..|es| - 1], dev)
      && Obeys(After(es[..|es| - 1], dev), es[|es| - 1], dev)
  }

  /** What a modify call does to both states is the one lawful step whose reply is the call's outcome. */
  lemma CallIsStep(w: World, a: Attributes, mask: u32, dev: Device, lookups: bool, willing: bool, ok: bool, next: World)
    requires var choice := Issued(w.cached, a, mask, dev, lookups);
      && (ok <==> choice.Some? && willing && StartsFrom(choice.value, w.firmware))
      && next == if ok then World(Remembered(choice.value), Target(choice.value), w.trail + [Done(choice.value, mask)]) else w
    ensures var e := Event.Modify(a, mask, lookups, ok); Obeys(w, e, dev) && next == Next(w, e, dev)
  {}

  lemma StepExtendsRuns(w: World, e: Event, dev: Device)
    requires Obeys(w, e, dev)
    ensures forall es :: Lawful(es, dev) && After(es, dev) == w ==>
              Lawful(es + [e], dev) && After(es + [e], dev) == Next(w, e, dev)
  {
    forall es | Lawful(es, dev) && After(es, dev) == w
      ensures Lawful(es + [e], dev) && After(es + [e], dev) == Next(w, e, dev)
    {
      assert (es + [e])[..|es|] == es;
    }
  }

  /** A run in which no caller names the current state. */
  predicate NoClaims(es: seq<Event>) {
    forall e :: e in es && e.Modify? ==> !Has(e.mask, CURRENT_STATE)
  }

  /** The device has faulted since the last call that succeeded. */
  predicate Faulted(es: seq<Event>, dev: Device) {
    es != [] &&
    (|| es[|es| - 1].Fault?
     || (Faulted(es[..|es| - 1], dev) && !Succeeds(After(es[..|es| - 1], dev), es[|es| - 1], dev)))
  }

  /** The remembered state is the device's, except when the device has faulted by itself since the last success. */
  lemma {:induction false} CacheAgrees(es: seq<Event>, dev: Device)
    ensures var w := After(es, dev);
      && (w.cached == w.firmware || w.firmware == ERR)
      && (w.cached == w.firmware <==> !Faulted(es, dev) || w.cached == ERR)
      && (Faulted(es, dev) ==> w.firmware == ERR)
  {
    if es != [] {
      var w, e := After(es[..|es| - 1], dev), es[|es| - 1];
      CacheAgrees(es[..|es| - 1], dev);
      if Succeeds(w, e, dev) { RememberedIsTarget(Asked(w, e, dev).value); }
    }
  }

  // ---------- the way to ready-to-send ----------

  /** The commands that succeeded since the queue pair last went to reset. */
  function SinceReset(trail: seq<Done>): seq<Done> {
    if trail == [] || trail[|trail| - 1].op == ToRst then []
    else SinceReset(trail[..|trail| - 1]) + [trail[|trail| - 1]]
  }

  predicate ToInitPath(ds: seq<Done>) {
    |ds| > 0 && ds[0].op == Rst2Init && forall i :: 1 <= i < |ds| ==> ds[i].op == Init2Init
  }

  predicate ToRtrPath(ds: seq<Done>) {
    |ds| > 0 && ds[|ds| - 1].op == Init2Rtr && ToInitPath(ds[..|ds| - 1])
  }

  predicate ReadyAt(ds: seq<Done>, k: nat) {
    k < |ds| && ds[k].op == Rtr2Rts && ToRtrPath(ds[..k]) && forall i :: k < i < |ds| ==> ds[i].op == Rts2Rts
  }

  ghost predicate ToRtsPath(ds: seq<Done>) {
    exists k: nat :: ReadyAt(ds, k)
  }

  /** Reset to init, any number of init to init, init to ready-to-receive, and so on up to state `s`. */
  ghost predicate PathTo(s: State, ds: seq<Done>) {
    match s
    case RST => ds == []
    case INIT => ToInitPath(ds)
    case RTR => ToRtrPath(ds)
    case RTS => ToRtsPath(ds)
    case _ => true
  }

  lemma PathStep(s: State, ds: seq<Done>, d: Done)
    requires s != Unknown && PathTo(s, ds) && StartsFrom(d.op, s)
    ensures PathTo(Target(d.op), if d.op == ToRst then [] else ds + [d])
  {
    var es := ds + [d];
    if d.op in {Init2Rtr, Rtr2Rts} {
      assert es[..|ds|] == ds;
    }
    if d.op == Rtr2Rts {
      assert ReadyAt(es, |ds|);
    }
    if d.op == Rts2Rts {
      var k: nat :| ReadyAt(ds, k);
      assert es[..k] == ds[..k];
      assert ReadyAt(es, k);
    }
  }

  lemma SinceResetStep(trail: seq<Done>, d: Done)
    ensures SinceReset(trail + [d]) == if d.op == ToRst then [] else SinceReset(trail) + [d]
  {
    assert (trail + [d])[..|trail|] == trail;
  }

  lemma IssuedFrom(cached: State, a: Attributes, mask: u32, dev: Device, lookups: bool)
    requires Issued(cached, a, mask, dev, lookups).Some?
    ensures StartsFrom(Issued(cached, a, mask, dev, lookups).value, CurrentOf(cached, a, mask))
  {}

  lemma PathNext(w: World, e: Event, dev: Device, s: State)
    requires Succeeds(w, e, dev) && s != Unknown && PathTo(s, SinceReset(w.trail))
    requires StartsFrom(Asked(w, e, dev).value, s)
    ensures Next(w, e, dev).cached == Next(w, e, dev).firmware != Unknown
    ensures PathTo(Next(w, e, dev).cached, SinceReset(Next(w, e, dev).trail))
  {
    var d := Done(Asked(w, e, dev).value, e.mask);
    PathStep(s, SinceReset(w.trail), d);
    SinceResetStep(w.trail, d);
    RememberedIsTarget(d.op);
  }

  lemma {:induction false} FirmwarePath(es: seq<Event>, dev: Device)
    requires Lawful(es, dev)
    ensures After(es, dev).firmware != Unknown
    ensures PathTo(After(es, dev).firmware, SinceReset(After(es, dev).trail))
  {
    if es != [] {
      var w, e := After(es[..|es| - 1], dev), es[|es| - 1];
      FirmwarePath(es[..|es| - 1], dev);
      if Succeeds(w, e, dev) { PathNext(w, e, dev, w.firmware); }
    }
  }

  lemma {:induction false} CachedPath(es: seq<Event>, dev: Device)
    requires NoClaims(es)
    ensures After(es, dev).cached != Unknown
    ensures PathTo(After(es, dev).cached, SinceReset(After(es, dev).trail))
  {
    if es != [] {
      var w, e := After(es[..|es| - 1], dev), es[|es| - 1];
      CachedPath(es[..|es| - 1], dev);
      if Succeeds(w, e, dev) {
        assert e in es;
        IssuedFrom(w.cached, e.a, e.mask, dev, e.lookups);
        PathNext(w, e, dev, w.cached);
      }
    }
  }

  // ---------- the attributes supplied on the way ----------

  predicate SuppliesItsOwn(d: Done) {
    forall b :: b in Required(d.op) ==> Has(d.mask, b)
  }

  predicate Supplied(ds: seq<Done>, bits: seq<nat>) {
    forall b :: b in bits ==> exists i :: 0 <= i < |ds| && Has(ds[i].mask, b)
  }

  predicate AllSupply(ds: seq<Done>) {
    forall d :: d in ds ==> SuppliesItsOwn(d)
  }

  lemma SuppliesNext(w: World, e: Event, dev: Device)
    requires Succeeds(w, e, dev) && AllSupply(SinceReset(w.trail))
    ensures AllSupply(SinceReset(Next(w, e, dev).trail))
  {
    var op := Asked(w, e, dev).value;
    MaskAcceptedMeans(e.mask, Required(op), Optional(op));
    SinceResetStep(w.trail, Done(op, e.mask));
  }

  lemma {:induction false} TrailSupplies(es: seq<Event>, dev: Device)
    ensures AllSupply(SinceReset(After(es, dev).trail))
  {
    if es != [] {
      var w, e := After(es[..|es| - 1], dev), es[|es| - 1];
      TrailSupplies(es[..|es| - 1], dev);
      if Succeeds(w, e, dev) { SuppliesNext(w, e, dev); }
    }
  }

  lemma PathSupplies(ds: seq<Done>)
    requires ToRtsPath(ds) && AllSupply(ds)
    ensures Supplied(ds, [0, 1, 2, 4] + [3, 7, 8, 10, 14] + [9, 11, 12, 13])
  {
    var k: nat :| ReadyAt(ds, k);
    assert ds[0].op == Rst2Init && ds[k - 1].op == Init2Rtr && ds[k].op == Rtr2Rts;
    OneSupplies(ds, 0);
    OneSupplies(ds, k - 1);
    OneSupplies(ds, k);
  }

  lemma OneSupplies(ds: seq<Done>, i: nat)
    requires i < |ds| && SuppliesItsOwn(ds[i])
    ensures Supplied(ds, Required(ds[i].op))
  {}

  // ---------- the main results ----------

  /**
   Whenever the device is ready to send, the calls that succeeded since its last reset went through init
   and ready-to-receive, in that order, and gave every attribute that connecting takes: remote access,
   partition key and port; timer, transfer unit, receive sequence number, destination and address; send
   sequence number, timeout and retry counts.
   */
  lemma ReadyMeansConnected(es: seq<Event>, dev: Device)
    requires Lawful(es, dev) && After(es, dev).firmware == RTS
    ensures ToRtsPath(SinceReset(After(es, dev).trail))
    ensures Supplied(SinceReset(After(es, dev).trail), [0, 1, 2, 4] + [3, 7, 8, 10, 14] + [9, 11, 12, 13])
  {
    FirmwarePath(es, dev);
    TrailSupplies(es, dev);
    PathSupplies(SinceReset(After(es, dev).trail));
  }

  /** The same of the remembered state, whatever the device accepts, if no caller names the current state. */
  lemma RememberedReadyMeansConnected(es: seq<Event>, dev: Device)
    requires NoClaims(es) && After(es, dev).cached == RTS
    ensures ToRtsPath(SinceReset(After(es, dev).trail))
    ensures Supplied(SinceReset(After(es, dev).trail), [0, 1, 2, 4] + [3, 7, 8, 10, 14] + [9, 11, 12, 13])
  {
    CachedPath(es, dev);
    TrailSupplies(es, dev);
    PathSupplies(SinceReset(After(es, dev).trail));
  }

  /** With callers that name the current state it still holds of the remembered state, on a device that keeps to the rules. */
  lemma ClaimsAreHarmlessToTheLawful(es: seq<Event>, dev: Device)
    requires Lawful(es, dev)
    ensures PathTo(After(es, dev).cached, SinceReset(After(es, dev).trail))
    ensures After(es, dev).cached == RTS ==>
              && ToRtsPath(SinceReset(After(es, dev).trail))
              && Supplied(SinceReset(After(es, dev).trail), [0, 1, 2, 4] + [3, 7, 8, 10, 14] + [9, 11, 12, 13])
  {
    LawfulCachedPath(es, dev);
    TrailSupplies(es, dev);
    if After(es, dev).cached == RTS { PathSupplies(SinceReset(After(es, dev).trail)); }
  }

  /** Faults leave the remembered state and the trail alone, so the path to it stays. */
  lemma {:induction false} LawfulCachedPath(es: seq<Event>, dev: Device)
    requires Lawful(es, dev)
    ensures After(es, dev).cached != Unknown
    ensures PathTo(After(es, dev).cached, SinceReset(After(es, dev).trail))
  {
    if es != [] {
      var w, e := After(es[..|es| - 1], dev), es[|es| - 1];
      LawfulCachedPath(es[..|es| - 1], dev);
      FirmwarePath(es[..|es| - 1], dev);
      if Succeeds(w, e, dev) { PathNext(w, e, dev, w.firmware); }
    }
  }

  // ---------- the library's own connecting calls ----------

  /** What they need of the attributes, of the device and of the system's lookups. */
  predicate Connectable(a: Attributes, dev: Device, lookups: bool) {
    && Initable(a, dev) && Routable(a, dev, lookups)
  }

  predicate Initable(a: Attributes, dev: Device) {
    a.pkeyIndex <= dev.maxPkeys && 1 <= a.portNum <= dev.portCount
  }

  predicate Routable(a: Attributes, dev: Device, lookups: bool) {
    && a.pathMtu <= 4 && a.ahEnabled
    && !a.ah.addressType.UnknownAddress? && a.ah.sgidIndex < dev.gidTableSize
    && (a.ah.addressType.IPv4? || a.ah.addressType.IPv6? || dev.ethernet ==> lookups)
  }

  /** The bits the checks ask about. */
  lemma NamedBits(mask: u32)
    ensures forall b: nat :: b < 18 ==> (Has(mask, b) <==> TestBit(mask, b))
  {
    forall b: nat | b < 18 ensures Has(mask, b) <==> TestBit(mask, b) { HasIsBit(mask, b); }
  }

  lemma CheckedInit(mask: u32, a: Attributes, dev: Device)
    requires (forall b: nat :: TestBit(mask, b) <==> b in {0, 1, 2, 4, 5, 15}) && a.nextState == INIT
    ensures Checked(a, mask, dev).0 <==> Initable(a, dev)
    ensures Checked(a, mask, dev).1.ah == a.ah && Checked(a, mask, dev).1.ahEnabled == a.ahEnabled
    ensures Checked(a, mask, dev).1.pathMtu == a.pathMtu
    ensures forall cached :: CurrentOf(cached, a, mask) == cached && NextOf(cached, a, mask) == INIT
  {
    NamedBits(mask);
  }

  lemma CheckedRtr(mask: u32, a: Attributes, dev: Device)
    requires (forall b: nat :: TestBit(mask, b) <==> b in {3, 5, 7, 8, 10, 14, 17}) && a.nextState == RTR
    ensures Checked(a, mask, dev).0 <==> a.pathMtu <= 4 && !a.ah.addressType.UnknownAddress? && a.ah.sgidIndex < dev.gidTableSize
    ensures Checked(a, mask, dev).1.ah == a.ah && Checked(a, mask, dev).1.ahEnabled == a.ahEnabled
    ensures Checked(a, mask, dev).1.pathMtu == a.pathMtu
    ensures forall cached :: CurrentOf(cached, a, mask) == cached && NextOf(cached, a, mask) == RTR
  {
    NamedBits(mask);
  }

  lemma CheckedRts(mask: u32, a: Attributes, dev: Device)
    requires (forall b: nat :: TestBit(mask, b) <==> b in {5, 9, 11, 12, 13, 16}) && a.nextState == RTS
    ensures Checked(a, mask, dev).0 <==> true
    ensures Checked(a, mask, dev).1.ah == a.ah && Checked(a, mask, dev).1.ahEnabled == a.ahEnabled
    ensures Checked(a, mask, dev).1.pathMtu == a.pathMtu
    ensures forall cached :: CurrentOf(cached, a, mask) == cached && NextOf(cached, a, mask) == RTS
  {
    NamedBits(mask);
  }

  lemma InitPermitted(mask: u32, a: Attributes, dev: Device, lookups: bool)
    requires forall b: nat :: TestBit(mask, b) <==> b in {0, 1, 2, 4, 5, 15}
    ensures Permitted(Rst2Init, a, mask, dev, lookups) <==> true
  {
    MasksTaken(Rst2Init, mask);
    HasIsBit(mask, AH_ATTR);
  }

  lemma InitCall(mask: u32, a: Attributes, dev: Device, lookups: bool)
    requires (forall b: nat :: TestBit(mask, b) <==> b in {0, 1, 2, 4, 5, 15}) && a.nextState == INIT
    ensures Issued(RST, a, mask, dev, lookups) == if Initable(a, dev) then Some(Rst2Init) else None
    ensures forall cached :: Dispatch(cached, INIT).None? ==> Issued(cached, a, mask, dev, lookups) == None
  {
    CheckedInit(mask, a, dev);
    InitPermitted(mask, Checked(a, mask, dev).1, dev, lookups);
  }

  lemma RtrPermitted(mask: u32, a: Attributes, dev: Device, lookups: bool)
    requires forall b: nat :: TestBit(mask, b) <==> b in {3, 5, 7, 8, 10, 14, 17}
    ensures Permitted(Init2Rtr, a, mask, dev, lookups) <==> a.ahEnabled && a.pathMtu <= 5 && (a.ah.addressType.IPv4? || a.ah.addressType.IPv6? || dev.ethernet ==> lookups)
  {
    MasksTaken(Init2Rtr, mask);
    HasIsBit(mask, AH_ATTR);
  }

  lemma RtrCall(mask: u32, a: Attributes, dev: Device, lookups: bool)
    requires (forall b: nat :: TestBit(mask, b) <==> b in {3, 5, 7, 8, 10, 14, 17}) && a.nextState == RTR
    ensures Issued(INIT, a, mask, dev, lookups) == if Routable(a, dev, lookups) then Some(Init2Rtr) else None
    ensures forall cached :: Dispatch(cached, RTR).None? ==> Issued(cached, a, mask, dev, lookups) == None
  {
    CheckedRtr(mask, a, dev);
    RtrPermitted(mask, Checked(a, mask, dev).1, dev, lookups);
  }

  lemma RtsPermitted(mask: u32, a: Attributes, dev: Device, lookups: bool)
    requires forall b: nat :: TestBit(mask, b) <==> b in {5, 9, 11, 12, 13, 16}
    ensures Permitted(Rtr2Rts, a, mask, dev, lookups) <==> true
  {
    MasksTaken(Rtr2Rts, mask);
    HasIsBit(mask, AH_ATTR);
  }

  lemma RtsCall(mask: u32, a: Attributes, dev: Device, lookups: bool)
    requires (forall b: nat :: TestBit(mask, b) <==> b in {5, 9, 11, 12, 13, 16}) && a.nextState == RTS
    ensures Issued(RTR, a, mask, dev, lookups) == Some(Rtr2Rts)
    ensures forall cached :: Dispatch(cached, RTS).None? ==> Issued(cached, a, mask, dev, lookups) == None
  {
    CheckedRts(mask, a, dev);
    RtsPermitted(mask, Checked(a, mask, dev).1, dev, lookups);
  }

  function ThreeCalls(a: Attributes, lookups: bool, init: u32, rtr: u32, rts: u32): (r: seq<Event>)
    ensures |r| == 3
  {
    [Event.Modify(a.(nextState := INIT), init, lookups, true),
     Event.Modify(a.(nextState := RTR), rtr, lookups, true),
     Event.Modify(a.(nextState := RTS), rts, lookups, true)]
  }

  function ConnectingCalls(a: Attributes, lookups: bool): seq<Event> {
    ThreeCalls(a, lookups, 0x8037, 0x2_45a8, 0x1_3a20)
  }

  lemma RunOfThree(x: Event, y: Event, z: Event, dev: Device)
    ensures After([x, y, z], dev) == Next(Next(Next(START, x, dev), y, dev), z, dev)
    ensures Lawful([x, y, z], dev) <==>
            Obeys(START, x, dev) && Obeys(Next(START, x, dev), y, dev) && Obeys(Next(Next(START, x, dev), y, dev), z, dev)
  {
    assert [x, y, z][..2] == [x, y] && [x, y][..1] == [x] && [x][..0] == [];
    assert After([x], dev) == Next(START, x, dev);
    assert After([x, y], dev) == Next(Next(START, x, dev), y, dev);
    assert Lawful([x], dev) == Obeys(START, x, dev);
  }

  ghost predicate ConnectingMasks(init: u32, rtr: u32, rts: u32) {
    && (forall b: nat :: TestBit(init, b) <==> b in {0, 1, 2, 4, 5, 15})
    && (forall b: nat :: TestBit(rtr, b) <==> b in {3, 5, 7, 8, 10, 14, 17})
    && (forall b: nat :: TestBit(rts, b) <==> b in {5, 9, 11, 12, 13, 16})
  }

  // What the calls come to on a willing device, one after the other.

  function AfterInit(a: Attributes, dev: Device, init: u32): World {
    if Initable(a, dev) then World(INIT, INIT, [Done(Rst2Init, init)]) else START
  }

  function AfterRtr(a: Attributes, dev: Device, lookups: bool, init: u32, rtr: u32): World {
    if Connectable(a, dev, lookups) then World(RTR, RTR, [Done(Rst2Init, init), Done(Init2Rtr, rtr)])
    else AfterInit(a, dev, init)
  }

  lemma InitStep(a: Attributes, dev: Device, lookups: bool, init: u32)
    requires (forall b: nat :: TestBit(init, b) <==> b in {0, 1, 2, 4, 5, 15})
    ensures var e := Event.Modify(a.(nextState := INIT), init, lookups, true);
      Next(START, e, dev) == AfterInit(a, dev, init) && Obeys(START, e, dev)
  {
    InitCall(init, a.(nextState := INIT), dev, lookups);
  }

  lemma RtrStep(a: Attributes, dev: Device, lookups: bool, init: u32, rtr: u32)
    requires (forall b: nat :: TestBit(rtr, b) <==> b in {3, 5, 7, 8, 10, 14, 17})
    ensures var e, w := Event.Modify(a.(nextState := RTR), rtr, lookups, true), AfterInit(a, dev, init);
      Next(w, e, dev) == AfterRtr(a, dev, lookups, init, rtr) && Obeys(w, e, dev)
  {
    RtrCall(rtr, a.(nextState := RTR), dev, lookups);
    AskedIs(AfterInit(a, dev, init), a.(nextState := RTR), rtr, lookups, dev);
  }

  /** A granted call in terms of what it asked for. */
  lemma AskedIs(w: World, a: Attributes, mask: u32, lookups: bool, dev: Device)
    ensures var e, op := Event.Modify(a, mask, lookups, true), Issued(w.cached, a, mask, dev, lookups);
      && Next(w, e, dev) ==
           (if op.Some? then World(Remembered(op.value), Target(op.value), w.trail + [Done(op.value, mask)]) else w)
      && (Obeys(w, e, dev) <==> op.None? || StartsFrom(op.value, w.firmware))
  {}

  lemma RtsStep(a: Attributes, dev: Device, lookups: bool, init: u32, rtr: u32, rts: u32)
    requires (forall b: nat :: TestBit(rts, b) <==> b in {5, 9, 11, 12, 13, 16})
    ensures var e, w := Event.Modify(a.(nextState := RTS), rts, lookups, true), AfterRtr(a, dev, lookups, init, rtr);
      && Next(w, e, dev) == (if Connectable(a, dev, lookups) then World(RTS, RTS, w.trail + [Done(Rtr2Rts, rts)]) else w)
      && Obeys(w, e, dev)
  {
    RtsCall(rts, a.(nextState := RTS), dev, lookups);
  }

  lemma ThreeCallsConnect(a: Attributes, dev: Device, lookups: bool, init: u32, rtr: u32, rts: u32)
    requires ConnectingMasks(init, rtr, rts)
    ensures var es := ThreeCalls(a, lookups, init, rtr, rts);
      && Lawful(es, dev)
      && (After(es, dev).cached == RTS <==> Connectable(a, dev, lookups))
      && (After(es, dev).firmware == RTS <==> Connectable(a, dev, lookups))
  {
    var es := ThreeCalls(a, lookups, init, rtr, rts);
    InitStep(a, dev, lookups, init);
    RtrStep(a, dev, lookups, init, rtr);
    RtsStep(a, dev, lookups, init, rtr, rts);
    RunOfThree(es[0], es[1], es[2], dev);
  }

  /**
   Those three calls, on a willing device, take a queue pair from reset to ready-to-send exactly when the
   attributes are in range; with literal masks and bounds.
   */
  lemma ConnectingCallsConnect(a: Attributes, dev: Device, lookups: bool)
    ensures var es := ConnectingCalls(a, lookups);
      && Lawful(es, dev)
      && (After(es, dev).cached == RTS <==> Connectable(a, dev, lookups))
      && (After(es, dev).firmware == RTS <==> Connectable(a, dev, lookups))
  {
    InitMask();
    RtrMask();
    RtsMask();
    ThreeCallsConnect(a, dev, lookups, TO_INIT, TO_RTR, TO_RTS);
  }

  /** What each transition takes besides its mask, by attribute bit. */
  lemma CallsTaken(op: Opcode, a: Attributes, mask: u32, dev: Device, lookups: bool)
    ensures Permitted(op, a, mask, dev, lookups) <==>
      && MaskAccepted(mask, Required(op), Optional(op))
      && (op == Init2Rtr ==>
            && (TestBit(mask, 14) ==> a.ahEnabled) && a.pathMtu <= 5
            && (a.ah.addressType.IPv4? || a.ah.addressType.IPv6? || dev.ethernet ==> lookups))
      && (op == Rts2Rts && TestBit(mask, 14) ==> a.ahEnabled && (dev.dscpSupported && dev.ethernet ==> lookups))
  {
    HasIsBit(mask, 14);
  }

  // ---------- naming the current state gives up the second result ----------

  const CLAIM_MASK: seq<nat> := [SQ_PSN, ACK_TIMEOUT, RETRY_CNT, RNR_RETRY, CURRENT_STATE, NEXT_STATE]

  ghost predicate IsClaimMask(mask: u32) {
    forall b: nat :: Has(mask, b) <==> b in CLAIM_MASK
  }

  lemma ClaimMask()
    ensures MaskOf(CLAIM_MASK) < TWO_32
    ensures IsClaimMask(MaskOf(CLAIM_MASK))
  {
    Pow2Values();
    MaskOfBound(CLAIM_MASK, W32);
    forall b: nat ensures Has(MaskOf(CLAIM_MASK), b) <==> b in CLAIM_MASK {
      HasIsBit(MaskOf(CLAIM_MASK), b);
      MaskOfBit(CLAIM_MASK, b);
    }
  }

  lemma ClaimIsChecked(a: Attributes, mask: u32, dev: Device)
    requires IsClaimMask(mask) && a.currentState == RTR && a.nextState == RTS
    ensures Checked(a, mask, dev).0 && Checked(a, mask, dev).1.ah == a.ah
    ensures Dispatch(CurrentOf(RST, a, mask), NextOf(RST, a, mask)) == Some(Rtr2Rts)
  {
    assert CLAIM_MASK[4] == CURRENT_STATE && CLAIM_MASK[5] == NEXT_STATE;
  }

  lemma ClaimIsAccepted(mask: u32)
    requires IsClaimMask(mask)
    ensures MaskAccepted(mask, Required(Rtr2Rts), Optional(Rtr2Rts))
  {
    assert RTR2RTS_OPTIONAL[0] == CURRENT_STATE && RTR2RTS_OPTIONAL[1] == NEXT_STATE;
    forall b: nat | Has(mask, b) ensures b in RTR2RTS_REQUIRED || b in RTR2RTS_OPTIONAL {
      assert b in CLAIM_MASK;
      assert b in RTR2RTS_REQUIRED || b == CLAIM_MASK[4] || b == CLAIM_MASK[5];
    }
    MaskAcceptedMeans(mask, RTR2RTS_REQUIRED, RTR2RTS_OPTIONAL);
  }

  /** A caller that claims a fresh queue pair is ready to receive, to a device that does not check. */
  lemma ClaimNeedsTheDevice(a: Attributes, mask: u32, dev: Device)
    requires IsClaimMask(mask) && a.currentState == RTR && a.nextState == RTS
    ensures var es := [Modify(a, mask, true, true)];
      After(es, dev).cached == RTS && !ToRtsPath(SinceReset(After(es, dev).trail)) && !Lawful(es, dev)
  {
    var e := Modify(a, mask, true, true);
    ClaimIsChecked(a, mask, dev);
    ClaimIsAccepted(mask);
    assert Asked(START, e, dev) == Some(Rtr2Rts);
    ClaimedWorld(e, dev, Done(Rtr2Rts, mask));
  }

  lemma ClaimedWorld(e: Event, dev: Device, d: Done)
    requires Succeeds(START, e, dev) && Asked(START, e, dev) == Some(Rtr2Rts) && d == Done(Rtr2Rts, e.mask)
    ensures After([e], dev).cached == RTS && !ToRtsPath(SinceReset(After([e], dev).trail)) && !Lawful([e], dev)
  {
    assert [e][..0] == [] && After([e][..0], dev) == START;
    SinceResetStep([], d);
    assert [] + [d] == [d] && SinceReset([d]) == [d];
  }

}
