/** Whole runs of the transmit ring: any number of ETH_Transmit_Descriptors calls,
    access by access, interleaved with any DMA activity. */
module EthTransmitRuns {
  import opened Words
  import opened Ring
  import opened EthDescriptors
  import opened EthSegments
  import opened EthTransmit

  /** The state with its history: the segments of the descriptors as they were when
      OWN was set, the segments the DMA sent, and the frames submitted. */
  datatype System = System(
    tx: TxState,
    published: seq<Segment>,
    sent: seq<Segment>,
    frames: seq<nat>)

  datatype Action =
    | Submit(length: nat)
    | Driver
    | Dma(e: bv32)

  /** What the driver and the DMA can do at all: calls follow one another, a length has
      16 bits, and the DMA may always act. */
  ghost predicate Possible(s: System, a: Action)
  {
    match a
    case Submit(length) => s.tx.at.Idle? && length <= 0xFFFF
    case Driver => !s.tx.at.Idle?
    case Dma(e) => true
  }

  /** The frame needs no more descriptors than are free. */
  ghost predicate Fits(s: System, length: nat)
  {
    |s.published| + SegmentCount(length) <= |s.sent| + |s.tx.ring|
  }

  /** What a careful caller does: a frame is submitted only when its descriptors are free. */
  ghost predicate Enabled(s: System, a: Action)
  {
    Possible(s, a) && (a.Submit? ==> Fits(s, a.length))
  }

  ghost function SubmitStep(s: System, length: nat): System
    requires Valid(s.tx)
  {
    s.(tx := Begin(s.tx, length), frames := s.frames + [length])
  }

  ghost function DriverAction(s: System): System
    requires Valid(s.tx) && !s.tx.at.Idle?
  {
    s.(tx := DriverStep(s.tx),
       published := if s.tx.at.Publish? && !Loads(s.tx) then s.published + [SegmentOf(Seen(s.tx))] else s.published)
  }

  ghost function DmaAction(s: System, e: bv32): System
    requires Valid(s.tx)
  {
    s.(tx := DmaStep(s.tx, e),
       sent := if DmaSends(s.tx) then s.sent + [SegmentOf(s.tx.ring[s.tx.head])] else s.sent)
  }

  ghost function Step(s: System, a: Action): System
    requires Valid(s.tx) && Possible(s, a)
  {
    match a
    case Submit(length) => SubmitStep(s, length)
    case Driver => DriverAction(s)
    case Dma(e) => DmaAction(s, e)
  }

  /** The state left by the chain builder and whatever settings the caller has made, with
      the DMA started. */
  ghost predicate Initial(s: System)
  {
    && Valid(s.tx) && s.tx.at.Idle? && s.tx.toSet == 0 && s.tx.head == 0 && !s.tx.suspended
    && (forall i :: 0 <= i < |s.tx.ring| ==> !Owned(s.tx.ring[i].status))
    && s.published == [] && s.sent == [] && s.frames == []
  }

  // ----- The invariant -----

  /** Whether a call is still publishing segments. */
  predicate Publishing(a: Access) { Preparing(a) || a.Publish? }

  /** The descriptor belongs to the DMA and describes exactly this segment. */
  ghost predicate Holds(d: Descriptor, s: Segment) { Owned(d.status) && SegmentOf(d) == s }

  /** The segments published and not yet sent are in the ring, one after another. */
  ghost predicate InFlight(ring: seq<Descriptor>, published: seq<Segment>, from: nat)
    requires |ring| > 0
  {
    forall p :: from <= p < |published| ==> Holds(ring[Slot(p, |ring|)], published[p])
  }

  /** The descriptors at positions from..to belong to the CPU. */
  ghost predicate FreeArc(ring: seq<Descriptor>, from: nat, to: nat)
    requires |ring| > 0
  {
    forall p :: from <= p < to ==> !Owned(ring[Slot(p, |ring|)].status)
  }

  /** The DMA's descriptors are one arc, from its cursor to the next one to be published. */
  ghost predicate ArcsOf(ring: seq<Descriptor>, head: nat, published: seq<Segment>, sent: seq<Segment>)
  {
    && |ring| > 0
    && |sent| <= |published| <= |sent| + |ring| && sent == published[..|sent|]
    && head == Slot(|sent|, |ring|)
    && InFlight(ring, published, |sent|)
    && FreeArc(ring, |published|, |sent| + |ring|)
  }

  ghost predicate Arcs(s: System)
  {
    ArcsOf(s.tx.ring, s.tx.head, s.published, s.sent)
  }

  /** The published segments are those of the submitted frames, up to segment i of
      the frame being handed over. */
  ghost predicate OrderOf(published: seq<Segment>, frames: seq<nat>, publishing: bool, length: nat, i: nat)
  {
    if publishing then
      && frames != [] && frames[|frames| - 1] == length && i < SegmentCount(length)
      && published == Flat(frames[..|frames| - 1]) + Segments(length)[..i]
    else published == Flat(frames)
  }

  ghost predicate Order(s: System)
  {
    OrderOf(s.published, s.frames, Publishing(s.tx.at), s.tx.length, s.tx.i)
  }

  /** The call is at the right descriptor and has prepared the current segment as far
      as the access sequence says. */
  ghost predicate Call(s: System)
    requires Valid(s.tx)
  {
    if Publishing(s.tx.at) then
      && s.tx.cur == Slot(|s.published|, |s.tx.ring|)
      && Progress(s.tx.ring[s.tx.cur], s.tx.length, s.tx.i, s.tx.at)
    else s.tx.toSet == Slot(|s.published|, |s.tx.ring|)
  }

  /** A suspended DMA has raised TXBU, or is about to be woken; between calls it is
      only suspended when nothing is left to send. */
  ghost predicate WakeUp(s: System)
  {
    && (s.tx.suspended ==> s.tx.txbu || s.tx.at.Demand?)
    && (s.tx.suspended && s.tx.at.Idle? ==> |s.sent| == |s.published|)
  }

  /** There is room for the rest of the frame being handed over. */
  ghost predicate Room(s: System)
    requires Valid(s.tx)
  {
    Publishing(s.tx.at) ==> |s.published| + (SegmentCount(s.tx.length) - s.tx.i) <= |s.sent| + |s.tx.ring|
  }

  /** A status word read by the driver has not changed since. */
  ghost predicate Fresh(tx: TxState)
    requires tx.cur < |tx.ring|
  {
    tx.held.Held? ==> tx.held.word == tx.ring[tx.cur].status
  }

  /** Some descriptor is free. */
  ghost predicate HasFree(s: System) { |s.published| < |s.sent| + |s.tx.ring| }

  /** The part of the invariant that does not depend on the caller's care. */
  ghost predicate Core(s: System)
  {
    Valid(s.tx) && Arcs(s) && Order(s) && Call(s) && WakeUp(s) && Fresh(s.tx)
  }

  ghost predicate Inv(s: System) { Core(s) && Room(s) }

  lemma InitialInv(s: System)
    requires Initial(s)
    ensures Inv(s)
  {
  }

  // ----- Writes to the ring -----

  /** Writing to the next free descriptor without handing it over. */
  lemma WriteFree(ring: seq<Descriptor>, d: Descriptor, published: seq<Segment>, from: nat)
    requires |ring| > 0 && from <= |published| < from + |ring| && !Owned(d.status)
    requires InFlight(ring, published, from) && FreeArc(ring, |published|, from + |ring|)
    ensures var r := ring[Slot(|published|, |ring|) := d];
      InFlight(r, published, from) && FreeArc(r, |published|, from + |ring|)
  {
    forall p | from <= p < from + |ring| && p != |published|
      ensures ring[Slot(|published|, |ring|) := d][Slot(p, |ring|)] == ring[Slot(p, |ring|)]
    {
      WindowElsewhere(ring, d, from, |published|, p);
    }
  }

  /** Handing over the next free descriptor. */
  lemma WritePublished(ring: seq<Descriptor>, d: Descriptor, published: seq<Segment>, s: Segment, from: nat)
    requires |ring| > 0 && from <= |published| < from + |ring| && Holds(d, s)
    requires InFlight(ring, published, from) && FreeArc(ring, |published|, from + |ring|)
    ensures var r := ring[Slot(|published|, |ring|) := d];
      InFlight(r, published + [s], from) && FreeArc(r, |published| + 1, from + |ring|)
  {
    forall p | from <= p < from + |ring| && p != |published|
      ensures ring[Slot(|published|, |ring|) := d][Slot(p, |ring|)] == ring[Slot(p, |ring|)]
    {
      WindowElsewhere(ring, d, from, |published|, p);
    }
  }

  /** The DMA giving back the oldest descriptor. */
  lemma WriteReleased(ring: seq<Descriptor>, d: Descriptor, published: seq<Segment>, from: nat)
    requires |ring| > 0 && from < |published| <= from + |ring| && !Owned(d.status)
    requires InFlight(ring, published, from) && FreeArc(ring, |published|, from + |ring|)
    ensures var r := ring[Slot(from, |ring|) := d];
      InFlight(r, published, from + 1) && FreeArc(r, |published|, from + 1 + |ring|)
  {
    forall p | from < p < from + |ring|
      ensures ring[Slot(from, |ring|) := d][Slot(p, |ring|)] == ring[Slot(p, |ring|)]
    {
      WindowElsewhere(ring, d, from, from, p);
    }
    SlotPeriodic(from, |ring|);
  }

  // ----- Preservation -----

  /** The descriptor being prepared is the CPU's as long as one is free. */
  lemma PreparedIsFree(s: System)
    requires Core(s) && Publishing(s.tx.at) && HasFree(s)
    ensures !Owned(s.tx.ring[s.tx.cur].status)
  {
  }

  /** Otherwise it is the oldest one in flight. */
  lemma PreparedIsOldest(s: System)
    requires Core(s) && Publishing(s.tx.at) && !HasFree(s)
    ensures Owned(s.tx.ring[s.tx.cur].status)
  {
    SlotPeriodic(|s.sent|, |s.tx.ring|);
    assert Holds(s.tx.ring[Slot(|s.sent|, |s.tx.ring|)], s.published[|s.sent|]);
  }

  lemma SubmitCore(s: System, length: nat)
    requires Core(s) && s.tx.at.Idle?
    ensures Core(SubmitStep(s, length))
  {
    var t := SubmitStep(s, length);
    assert t.frames[..|t.frames| - 1] == s.frames;
    assert Segments(length)[..0] == [];
  }

  /** Reading the status word changes nothing else. */
  lemma LoadCore(s: System)
    requires Core(s) && Loads(s.tx)
    ensures Core(DriverAction(s))
  {
  }

  /** A write to the descriptor being prepared leaves the arcs as they are. */
  lemma WriteArcs(s: System, d: Descriptor)
    requires Arcs(s) && HasFree(s) && s.tx.cur == Slot(|s.published|, |s.tx.ring|)
    requires !Owned(d.status)
    ensures ArcsOf(s.tx.ring[s.tx.cur := d], s.tx.head, s.published, s.sent)
  {
    WriteFree(s.tx.ring, d, s.published, |s.sent|);
  }

  lemma PrepareCore(s: System)
    requires Core(s) && Preparing(s.tx.at) && !Loads(s.tx) && HasFree(s)
    ensures Core(DriverAction(s))
  {
    var tx := s.tx;
    var d := Prepared(tx.ring[tx.cur], tx.length, tx.i, tx.at);
    assert Seen(tx) == tx.ring[tx.cur];
    PreparedIsFree(s);
    PreparingKeeps(tx.ring[tx.cur], tx.length, tx.i, tx.at);
    PreparingProgress(tx.ring[tx.cur], tx.length, tx.i, tx.at);
    MarksAreFine(d.status, tx.ring[tx.cur].status);
    WriteArcs(s, d);
    assert DriverAction(s).tx.ring == tx.ring[tx.cur := d];
  }

  /** The system after handing over the current descriptor as d. */
  ghost function HandedOver(s: System, d: Descriptor): System
    requires Valid(s.tx) && s.tx.at.Publish? && d.next == s.tx.ring[s.tx.cur].next
  {
    s.(tx := HandOver(s.tx, d), published := s.published + [SegmentOf(s.tx.ring[s.tx.cur])])
  }

  lemma HandOverArcs(s: System, d: Descriptor)
    requires Valid(s.tx) && Arcs(s) && s.tx.at.Publish? && HasFree(s)
    requires s.tx.cur == Slot(|s.published|, |s.tx.ring|)
    requires d.next == s.tx.ring[s.tx.cur].next
    requires Holds(d, SegmentOf(s.tx.ring[s.tx.cur]))
    ensures Arcs(HandedOver(s, d))
  {
    WritePublished(s.tx.ring, d, s.published, SegmentOf(s.tx.ring[s.tx.cur]), |s.sent|);
    assert HandedOver(s, d).tx.ring == s.tx.ring[s.tx.cur := d];
  }

  lemma HandOverCall(s: System, d: Descriptor)
    requires Valid(s.tx) && Order(s) && Call(s) && WakeUp(s) && s.tx.at.Publish?
    requires d.next == s.tx.ring[s.tx.cur].next
    ensures var t := HandedOver(s, d); Order(t) && Call(t) && WakeUp(t)
  {
    PublishOrder(s.published, s.frames, s.tx.length, s.tx.i, SegmentOf(s.tx.ring[s.tx.cur]));
    assert d.next == Slot(|s.published| + 1, |s.tx.ring|);
  }

  /** Handing over a descriptor that describes the prepared segment. */
  lemma HandOverCore(s: System, d: Descriptor)
    requires Core(s) && s.tx.at.Publish? && HasFree(s)
    requires d.next == s.tx.ring[s.tx.cur].next
    requires Holds(d, SegmentOf(s.tx.ring[s.tx.cur]))
    ensures Core(HandedOver(s, d))
  {
    HandOverArcs(s, d);
    HandOverCall(s, d);
  }

  lemma PublishCore(s: System)
    requires Core(s) && s.tx.at.Publish? && !Loads(s.tx) && HasFree(s)
    ensures Core(DriverAction(s))
  {
    var d := s.tx.ring[s.tx.cur];
    assert Seen(s.tx) == d;
    SetOwnHolds(d);
    HandOverCore(s, d.(status := Own(d.status)));
  }

  lemma SetOwnHolds(d: Descriptor)
    ensures var r := d.(status := Own(d.status));
      Holds(r, SegmentOf(d))
  {
    OwnBits(d.status);
  }

  lemma PublishOrder(published: seq<Segment>, frames: seq<nat>, length: nat, i: nat, s: Segment)
    requires OrderOf(published, frames, true, length, i) && s == SegmentAt(length, i)
    ensures OrderOf(published + [s], frames, i + 1 < SegmentCount(length), length, i + 1)
  {
    var segments := Segments(length);
    assert segments[..i + 1] == segments[..i] + [s];
    if i + 1 == SegmentCount(length) {
      assert segments[..i + 1] == segments;
    }
  }

  /** Accesses to the DMA registers leave everything but the wake-up part alone. */
  lemma RegisterAccessCore(s: System, at: Access, suspended: bool, txbu: bool)
    requires Core(s) && !Publishing(s.tx.at) && !Publishing(at)
    requires WakeUp(s.(tx := s.tx.(at := at, suspended := suspended, txbu := txbu)))
    ensures Core(s.(tx := s.tx.(at := at, suspended := suspended, txbu := txbu)))
  {
  }

  lemma WakeCore(s: System)
    requires Core(s) && !Publishing(s.tx.at) && !s.tx.at.Idle?
    ensures Core(DriverAction(s))
  {
    var tx := WakeStep(s.tx);
    assert DriverAction(s) == s.(tx := tx);
    RegisterAccessCore(s, tx.at, tx.suspended, tx.txbu);
  }

  /** An access of the driver keeps the core as long as it does not need a descriptor
      that is not there. */
  lemma DriverCore(s: System)
    requires Core(s) && !s.tx.at.Idle? && (Publishing(s.tx.at) ==> HasFree(s))
    ensures Core(DriverAction(s))
  {
    if Loads(s.tx) {
      LoadCore(s);
    } else if Preparing(s.tx.at) {
      PrepareCore(s);
    } else if s.tx.at.Publish? {
      PublishCore(s);
    } else {
      WakeCore(s);
    }
  }

  lemma DriverInv(s: System)
    requires Inv(s) && !s.tx.at.Idle?
    ensures Inv(DriverAction(s))
  {
    DriverCore(s);
  }

  /** The DMA finds work exactly when something is in flight. */
  lemma DmaWork(s: System)
    requires Inv(s)
    ensures Owned(s.tx.ring[s.tx.head].status) <==> |s.sent| < |s.published|
    ensures |s.sent| < |s.published| ==> SegmentOf(s.tx.ring[s.tx.head]) == s.published[|s.sent|]
  {
    if |s.sent| < |s.published| {
      assert Holds(s.tx.ring[Slot(|s.sent|, |s.tx.ring|)], s.published[|s.sent|]);
    }
  }

  lemma DmaSendArcs(s: System, released: Descriptor)
    requires Arcs(s) && |s.sent| < |s.published| && !Owned(released.status)
    ensures ArcsOf(s.tx.ring[s.tx.head := released], Next(s.tx.head, |s.tx.ring|), s.published,
                   s.sent + [s.published[|s.sent|]])
  {
    WriteReleased(s.tx.ring, released, s.published, |s.sent|);
  }

  lemma DmaInv(s: System, e: bv32)
    requires Inv(s)
    ensures Inv(DmaAction(s, e))
  {
    DmaWork(s);
    if DmaSends(s.tx) {
      var tx := s.tx;
      var d := tx.ring[tx.head];
      var released := d.(status := Released(d.status, e));
      ReleasedBits(d.status, e);
      DmaSendArcs(s, released);
      assert DmaAction(s, e).tx.ring == tx.ring[tx.head := released];
      if Publishing(tx.at) {
        WindowElsewhere(tx.ring, released, |s.sent|, |s.sent|, |s.published|);
      }
    }
  }

  lemma StepInv(s: System, a: Action)
    requires Inv(s) && Enabled(s, a)
    ensures Inv(Step(s, a))
  {
    match a
    case Submit(length) => SubmitCore(s, length);
    case Driver => DriverInv(s);
    case Dma(e) => DmaInv(s, e);
  }

  // ----- Runs -----

  /** A sequence of actions that can happen. */
  ghost predicate Feasible(s: System, actions: seq<Action>)
    decreases |actions|
  {
    actions == [] ||
    (Valid(s.tx) && Possible(s, actions[0]) && Feasible(Step(s, actions[0]), actions[1..]))
  }

  ghost function Run(s: System, actions: seq<Action>): System
    requires Feasible(s, actions)
    decreases |actions|
  {
    if actions == [] then s else Run(Step(s, actions[0]), actions[1..])
  }

  /** The caller submits with care throughout. */
  ghost predicate Careful(s: System, actions: seq<Action>)
    requires Feasible(s, actions)
    decreases |actions|
  {
    actions == [] || (Enabled(s, actions[0]) && Careful(Step(s, actions[0]), actions[1..]))
  }

  ghost predicate Legal(s: System, actions: seq<Action>)
  {
    Feasible(s, actions) && Careful(s, actions)
  }

  lemma {:induction false} RunInv(s: System, actions: seq<Action>)
    requires Inv(s) && Legal(s, actions)
    ensures Inv(Run(s, actions))
    decreases |actions|
  {
    if actions != [] {
      StepInv(s, actions[0]);
      RunInv(Step(s, actions[0]), actions[1..]);
    }
  }

  lemma {:induction false} RunSnoc(s: System, actions: seq<Action>, a: Action)
    requires Feasible(s, actions) && Valid(Run(s, actions).tx) && Possible(Run(s, actions), a)
    ensures Feasible(s, actions + [a]) && Run(s, actions + [a]) == Step(Run(s, actions), a)
    ensures Careful(s, actions) && Enabled(Run(s, actions), a) ==> Careful(s, actions + [a])
    decreases |actions|
  {
    if actions == [] {
      assert (actions + [a])[1..] == [];
    } else {
      assert (actions + [a])[0] == actions[0] && (actions + [a])[1..] == actions[1..] + [a];
      RunSnoc(Step(s, actions[0]), actions[1..], a);
    }
  }

  /** Slot i lies on the arc from the DMA's cursor to the next descriptor to publish. */
  ghost predicate OnArc(s: System, i: nat)
    requires |s.tx.ring| > 0
  {
    exists p :: |s.sent| <= p < |s.published| && Slot(p, |s.tx.ring|) == i
  }

  lemma OwnedIsArc(s: System, i: nat)
    requires Inv(s) && i < |s.tx.ring|
    ensures Owned(s.tx.ring[i].status) <==> OnArc(s, i)
  {
    var q := SlotCovers(|s.sent|, i, |s.tx.ring|);
    if q < |s.published| {
      assert Holds(s.tx.ring[Slot(q, |s.tx.ring|)], s.published[q]);
    }
  }

  // ----- What no one changes -----

  /** Every descriptor still has the buffer and settings of ring0, and a word the driver
      has read has them too. */
  ghost predicate SettingsKept(ring0: seq<Descriptor>, tx: TxState)
    requires tx.cur < |tx.ring|
  {
    && |tx.ring| == |ring0|
    && (forall j :: 0 <= j < |ring0| ==>
          tx.ring[j].buffer == ring0[j].buffer && SameSettings(tx.ring[j].status, ring0[j].status))
    && (tx.held.Held? ==> SameSettings(tx.held.word, ring0[tx.cur].status))
  }

  /** A write of a word with the settings of the word read. */
  lemma WriteKeepsSettings(ring0: seq<Descriptor>, tx: TxState, d: Descriptor, t: TxState)
    requires tx.cur < |tx.ring| && t.cur < |t.ring| && SettingsKept(ring0, tx)
    requires d.buffer == tx.ring[tx.cur].buffer && SameSettings(d.status, Seen(tx).status)
    requires t.ring == tx.ring[tx.cur := d] && t.held.Empty?
    ensures SettingsKept(ring0, t)
  {
    assert SameSettings(Seen(tx).status, ring0[tx.cur].status);
  }

  lemma DriverKeepsSettings(ring0: seq<Descriptor>, tx: TxState)
    requires Valid(tx) && !tx.at.Idle? && SettingsKept(ring0, tx)
    ensures SettingsKept(ring0, DriverStep(tx))
  {
    var t := DriverStep(tx);
    if Publishing(tx.at) && !Loads(tx) {
      AccessKeeps(tx);
      HandOverIsFine(t.ring[tx.cur].status, Seen(tx).status);
      WriteKeepsSettings(ring0, tx, t.ring[tx.cur], t);
    }
  }

  lemma DmaKeepsSettings(ring0: seq<Descriptor>, tx: TxState, e: bv32)
    requires Valid(tx) && SettingsKept(ring0, tx)
    ensures SettingsKept(ring0, DmaStep(tx, e))
  {
    ReleasedBits(tx.ring[tx.head].status, e);
  }

  /** Over every feasible run, careful or not, each descriptor keeps its buffer and the
      settings the chain builder or the caller has made. */
  lemma {:induction false} RunKeepsSettings(ring0: seq<Descriptor>, s: System, actions: seq<Action>)
    requires Valid(s.tx) && Feasible(s, actions) && SettingsKept(ring0, s.tx)
    ensures var t := Run(s, actions).tx; Valid(t) && SettingsKept(ring0, t)
    decreases |actions|
  {
    if actions != [] {
      match actions[0] {
        case Submit(length) =>
        case Driver => DriverKeepsSettings(ring0, s.tx);
        case Dma(e) => DmaKeepsSettings(ring0, s.tx, e);
      }
      RunKeepsSettings(ring0, Step(s, actions[0]), actions[1..]);
    }
  }

  /** A careful caller's driver changes no other status bit than OWN, FS and LS at all. */
  lemma DriverTouchesHandOverOnly(s: System, j: nat)
    requires Inv(s) && !s.tx.at.Idle? && j < |s.tx.ring|
    ensures SameButHandOver(DriverStep(s.tx).ring[j].status, s.tx.ring[j].status)
  {
    TouchesOnly(s.tx, j);
  }

  lemma TouchesOnly(tx: TxState, j: nat)
    requires Valid(tx) && !tx.at.Idle? && Fresh(tx) && j < |tx.ring|
    ensures SameButHandOver(DriverStep(tx).ring[j].status, tx.ring[j].status)
  {
    if Publishing(tx.at) && !Loads(tx) && j == tx.cur {
      AccessKeeps(tx);
      assert Seen(tx).status == tx.ring[j].status;
    } else {
      assert DriverStep(tx).ring[j] == tx.ring[j];
    }
  }

  /** OWN with FS and LS as a segment requires. */
  function HandOverBits(s: Segment): bv32
  {
    match (s.first, s.last)
    case (true, true) => 0xB000_0000
    case (true, false) => 0x9000_0000
    case (false, true) => 0xA000_0000
    case (false, false) => 0x8000_0000
  }

  /** The status word hands over a segment, with the settings of `before`. */
  predicate HandsOver(w: bv32, s: Segment, before: bv32)
  {
    w & 0xB000_0000 == HandOverBits(s) && SameSettings(w, before)
  }

  lemma ThreeBits(w: bv32, size: nat)
    requires Owned(w)
    ensures w & 0xB000_0000 == HandOverBits(Segment(TxFirst(w), TxLast(w), size))
  {
  }

  /** What the DMA finds, over every run: in each descriptor in flight the size of its
      segment and exactly the bits the driver promises, OWN, FS and LS set as the segment
      requires and the settings as they were. */
  lemma PublishedWords(s: System, actions: seq<Action>, p: nat)
    requires Initial(s) && Legal(s, actions) && |Run(s, actions).sent| <= p < |Run(s, actions).published|
    ensures var t := Run(s, actions);
      && |s.tx.ring| == |t.tx.ring| > 0 && |t.published| <= |Flat(t.frames)|
      && var slot, segment := Slot(p, |t.tx.ring|), Flat(t.frames)[p];
         && t.tx.ring[slot].control == segment.size
         && HandsOver(t.tx.ring[slot].status, segment, s.tx.ring[slot].status)
  {
    InitialInv(s);
    RunInv(s, actions);
    RunKeepsSettings(s.tx.ring, s, actions);
    PublishedWord(s.tx.ring, Run(s, actions), p);
  }

  lemma PublishedWord(ring0: seq<Descriptor>, t: System, p: nat)
    requires Inv(t) && SettingsKept(ring0, t.tx) && |t.sent| <= p < |t.published|
    ensures |t.published| <= |Flat(t.frames)|
    ensures var slot, segment := Slot(p, |t.tx.ring|), Flat(t.frames)[p];
      && t.tx.ring[slot].control == segment.size
      && HandsOver(t.tx.ring[slot].status, segment, ring0[slot].status)
  {
    var slot := Slot(p, |t.tx.ring|);
    var d := t.tx.ring[slot];
    PublishedIsFlatPrefix(t);
    assert Holds(d, t.published[p]);
    ThreeBits(d.status, d.control);
  }

  /** TXBU is raised exactly while the DMA is suspended, except between its clearing and
      the poll demand, which is only made to a suspended DMA. */
  predicate FlagExact(tx: TxState)
  {
    if tx.at.Demand? then tx.suspended && !tx.txbu
    else (tx.txbu <==> tx.suspended) && (tx.at.ClearTxbu? ==> tx.txbu)
  }

  /** So it is over every feasible run that starts with the flag clear. */
  lemma {:induction false} RunFlagExact(s: System, actions: seq<Action>)
    requires Valid(s.tx) && Feasible(s, actions) && FlagExact(s.tx)
    ensures FlagExact(Run(s, actions).tx)
    decreases |actions|
  {
    if actions != [] {
      FlagStep(s, actions[0]);
      RunFlagExact(Step(s, actions[0]), actions[1..]);
    }
  }

  lemma FlagStep(s: System, a: Action)
    requires Valid(s.tx) && Possible(s, a) && FlagExact(s.tx)
    ensures Valid(Step(s, a).tx) && FlagExact(Step(s, a).tx)
  {
  }

  lemma PublishedIsFlatPrefix(s: System)
    requires Inv(s)
    ensures s.sent <= s.published <= Flat(s.frames)
    ensures !Publishing(s.tx.at) ==> s.published == Flat(s.frames)
  {
    if Publishing(s.tx.at) {
      var last := s.frames[|s.frames| - 1];
      assert Segments(last) == Segments(last)[..s.tx.i] + Segments(last)[s.tx.i..];
    }
  }

  /** Over every run: the DMA owns exactly the arc from its cursor to the next
      descriptor to publish; each of those already describes its final segment of
      the submitted frames and its original settings; the segments leave in order and reassemble to the frames
      in submission order; and between calls a suspended DMA has nothing left to do. */
  lemma FramesLeaveInOrder(s: System, actions: seq<Action>)
    requires Initial(s) && Legal(s, actions)
    ensures var t := Run(s, actions);
      && |t.tx.ring| == |s.tx.ring| > 0 && Valid(t.tx)
      && (forall i :: 0 <= i < |t.tx.ring| ==>
            (Owned(t.tx.ring[i].status) <==> OnArc(t, i)))
      && SettingsKept(s.tx.ring, t.tx)
      && t.sent <= t.published <= Flat(t.frames)
      && InFlight(t.tx.ring, Flat(t.frames)[..|t.published|], |t.sent|)
      && Reassemble(t.sent).lengths <= t.frames
      && (t.tx.at.Idle? ==>
            && t.published == Flat(t.frames)
            && t.tx.toSet == Slot(|t.published|, |t.tx.ring|)
            && (t.tx.suspended ==> t.sent == Flat(t.frames)))
  {
    InitialInv(s);
    RunInv(s, actions);
    var t := Run(s, actions);
    forall i | 0 <= i < |t.tx.ring|
      ensures Owned(t.tx.ring[i].status) <==> OnArc(t, i)
    {
      OwnedIsArc(t, i);
    }
    RunKeepsSettings(s.tx.ring, s, actions);
    PublishedIsFlatPrefix(t);
    SentReassembles(t.sent, t.frames);
    assert Flat(t.frames)[..|t.published|] == t.published;
  }

  lemma RunCons(s: System, a: Action, rest: seq<Action>)
    requires Valid(s.tx) && Enabled(s, a) && Legal(Step(s, a), rest)
    ensures Legal(s, [a] + rest) && Run(s, [a] + rest) == Run(Step(s, a), rest)
  {
    assert ([a] + rest)[1..] == rest;
  }

  /** As many DMA steps as `es` has result words. */
  function DmaSteps(es: seq<bv32>): seq<Action>
  {
    seq(|es|, i requires 0 <= i < |es| => Dma(es[i]))
  }

  /** Between calls the DMA sends a segment with every step as long as there is one. */
  lemma DmaSendsNext(s: System, e: bv32)
    requires Inv(s) && s.tx.at.Idle? && |s.sent| < |s.published|
    ensures var t := DmaAction(s, e);
      && Inv(t) && t.tx.at.Idle? && |t.sent| == |s.sent| + 1
      && t.published == s.published && t.frames == s.frames
  {
    DmaWork(s);
    DmaInv(s, e);
  }

  lemma AllSent(s: System)
    requires Inv(s) && s.tx.at.Idle? && |s.sent| == |s.published|
    ensures s.sent == Flat(s.frames)
  {
  }

  /** Between calls nothing keeps the DMA from its work: its next steps, one for each
      segment in flight, send everything that was submitted. */
  lemma {:induction false} DmaDrains(s: System, es: seq<bv32>)
    requires Inv(s) && s.tx.at.Idle? && |es| == |s.published| - |s.sent|
    ensures Legal(s, DmaSteps(es)) && Run(s, DmaSteps(es)).sent == Flat(s.frames)
    decreases |es|
  {
    if es == [] {
      AllSent(s);
    } else {
      var t := DmaAction(s, es[0]);
      DmaSendsNext(s, es[0]);
      DmaDrains(t, es[1..]);
      RunCons(s, Dma(es[0]), DmaSteps(es[1..]));
      assert DmaSteps(es) == [Dma(es[0])] + DmaSteps(es[1..]);
    }
  }

  /** So after every run that ends between two calls, everything submitted is sent within
      as many DMA steps as there are segments in flight, and comes out as it went in. */
  lemma EverythingIsSent(s: System, actions: seq<Action>, es: seq<bv32>)
    requires Initial(s) && Legal(s, actions) && Run(s, actions).tx.at.Idle?
    requires |es| == |Run(s, actions).published| - |Run(s, actions).sent|
    ensures var t := Run(s, actions);
      Legal(t, DmaSteps(es)) && Reassemble(Run(t, DmaSteps(es)).sent).lengths == t.frames
  {
    InitialInv(s);
    RunInv(s, actions);
    DmaDrains(Run(s, actions), es);
    ReassembleFlat(Run(s, actions).frames);
  }

  lemma SentReassembles(sent: seq<Segment>, frames: seq<nat>)
    requires sent <= Flat(frames)
    ensures Reassemble(sent).lengths <= frames
  {
    ReassemblePrefix(Flat(frames), |sent|);
    ReassembleFlat(frames);
    assert Flat(frames)[..|sent|] == sent;
  }

  /** No access of the driver changes a descriptor the DMA owns. */
  lemma DriverSparesDma(s: System, j: nat)
    requires Inv(s) && !s.tx.at.Idle? && j < |s.tx.ring| && Owned(s.tx.ring[j].status)
    ensures DriverStep(s.tx).ring[j] == s.tx.ring[j]
  {
    if Publishing(s.tx.at) {
      PreparedIsFree(s);
    }
  }

  // ----- Without room -----

  /** The state after the next k accesses of the driver, or after the end of its call
      if that comes first, with the DMA standing still. */
  ghost function Accesses(tx: TxState, k: nat): (r: TxState)
    requires Valid(tx)
    ensures Valid(r)
    decreases k
  {
    if k == 0 || tx.at.Idle? then tx else Accesses(DriverStep(tx), k - 1)
  }

  /** The next access writes to a descriptor the DMA owns. */
  ghost predicate WritesOwned(tx: TxState)
    requires Valid(tx)
  {
    Publishing(tx.at) && !Loads(tx) && Owned(tx.ring[tx.cur].status)
  }

  /** Some access of a call with this length writes to a descriptor the DMA owns. */
  ghost predicate Overwrites(tx: TxState, length: nat)
    requires Valid(tx)
  {
    exists k: nat :: WritesOwned(Accesses(Begin(tx, length), k))
  }

  /** With room for the frame no access does. */
  lemma {:induction false} AccessesSpareDma(s: System, k: nat)
    requires Inv(s)
    ensures !WritesOwned(Accesses(s.tx, k))
    decreases k
  {
    if k == 0 || s.tx.at.Idle? {
      if Publishing(s.tx.at) {
        PreparedIsFree(s);
      }
    } else {
      DriverInv(s);
      AccessesSpareDma(DriverAction(s), k - 1);
    }
  }

  /** How many accesses to the current descriptor are left, at most. */
  function AccessesLeft(a: Access, held: Held): nat
  {
    var writes :=
      match a
      case Flags => 5
      case MarkFirst => 4
      case Size => 3
      case MarkLast => 2
      case LastSize => 1
      case _ => 0;
    2 * writes + if held.Empty? then 1 else 0
  }

  /** A call without room is not at its end while a descriptor is free. */
  lemma DeficitRemains(s: System)
    requires Valid(s.tx) && Publishing(s.tx.at) && !Room(s) && HasFree(s)
    ensures var t := DriverAction(s).tx;
      && Publishing(t.at) && !Room(DriverAction(s)) && t.length == s.tx.length
      && (t.i > s.tx.i || (t.i == s.tx.i && AccessesLeft(t.at, t.held) < AccessesLeft(s.tx.at, s.tx.held)))
  {
  }

  /** Without room the call uses up the free descriptors and goes on. */
  lemma AccessesReachOwned(s: System) returns (k: nat)
    requires Core(s) && Publishing(s.tx.at) && !Room(s)
    ensures WritesOwned(Accesses(s.tx, k))
    decreases SegmentCount(s.tx.length) - s.tx.i, AccessesLeft(s.tx.at, s.tx.held)
  {
    if HasFree(s) {
      DriverCore(s);
      DeficitRemains(s);
      k := AccessesReachOwned(DriverAction(s));
      k := k + 1;
    } else {
      PreparedIsOldest(s);
      k := if Loads(s.tx) then 1 else 0;
      assert Accesses(s.tx, k) == if Loads(s.tx) then DriverStep(s.tx) else s.tx;
    }
  }

  /** The condition on submitting is exact: with the DMA standing still, a call writes
      to a descriptor the DMA owns if and only if the frame needs more descriptors
      than are free. The driver itself never refuses. */
  lemma RoomIsExact(s: System, length: nat)
    requires Inv(s) && s.tx.at.Idle?
    ensures Overwrites(s.tx, length) <==> !Fits(s, length)
  {
    var t := SubmitStep(s, length);
    SubmitCore(s, length);
    if Fits(s, length) {
      forall k: nat
        ensures !WritesOwned(Accesses(t.tx, k))
      {
        AccessesSpareDma(t, k);
      }
    } else {
      var k := AccessesReachOwned(t);
      assert WritesOwned(Accesses(Begin(s.tx, length), k));
    }
  }

  lemma {:induction false} RunConcat(s: System, a: seq<Action>, b: seq<Action>)
    requires Feasible(s, a) && Feasible(Run(s, a), b)
    ensures Feasible(s, a + b) && Run(s, a + b) == Run(Run(s, a), b)
    decreases |a|
  {
    if a == [] {
      assert a + b == b;
    } else {
      assert (a + b)[0] == a[0] && (a + b)[1..] == a[1..] + b;
      RunConcat(Step(s, a[0]), a[1..], b);
    }
  }

  lemma RunOne(s: System, a: Action)
    requires Valid(s.tx) && Possible(s, a)
    ensures Feasible(s, [a]) && Run(s, [a]) == Step(s, a)
  {
    assert [a][1..] == [];
  }

  lemma RunThree(s: System, a: Action, b: Action, c: Action)
    requires Valid(s.tx) && Possible(s, a)
    requires Valid(Step(s, a).tx) && Possible(Step(s, a), b)
    requires Valid(Step(Step(s, a), b).tx) && Possible(Step(Step(s, a), b), c)
    ensures Feasible(s, [a, b, c]) && Run(s, [a, b, c]) == Step(Step(Step(s, a), b), c)
  {
    RunOne(s, a);
    RunOne(Step(s, a), b);
    RunOne(Step(Step(s, a), b), c);
    RunConcat(s, [a], [b]);
    RunConcat(s, [a] + [b], [c]);
    assert [a] + [b] + [c] == [a, b, c];
  }

  /** A ring of one descriptor between two calls, its TXBU flag clear. */
  ghost predicate OneDescriptor(s: System)
  {
    Valid(s.tx) && |s.tx.ring| == 1 && s.tx.at.Idle? && !s.tx.txbu && !s.tx.suspended
  }

  /** The accesses of a one-segment call up to the size, and the rest of it. */
  function CallStart(length: nat): seq<Action> { [Submit(length)] + [Driver, Driver, Driver] }

  const CALL_END: seq<Action> := [Driver, Driver, Driver]

  /** The first accesses overwrite the descriptor, whoever owns it. */
  lemma CallStartWrites(s: System, length: nat)
    requires OneDescriptor(s) && length <= BUF_SIZE
    ensures Feasible(s, CallStart(length))
    ensures var d := s.tx.ring[0];
      Run(s, CallStart(length)) == s.(
        tx := s.tx.(ring := [d.(status := d.status | TX_FS_LS, control := length)],
                    cur := 0, length := length, i := 0, at := Publish, held := Empty),
        frames := s.frames + [length])
  {
    RunOne(s, Submit(length));
    var begun := SubmitStep(s, length);
    RunThree(begun, Driver, Driver, Driver);
    RunConcat(s, [Submit(length)], [Driver, Driver, Driver]);
  }

  lemma CallEndPublishes(s: System)
    requires Valid(s.tx) && |s.tx.ring| == 1 && Loads(s.tx) && s.tx.at.Publish? && !s.tx.txbu
    requires SegmentCount(s.tx.length) == 1
    ensures Feasible(s, CALL_END)
    ensures var d := s.tx.ring[0];
      Run(s, CALL_END) == s.(
        tx := s.tx.(ring := [d.(status := Own(d.status))], cur := 0, i := 1, toSet := 0, at := Idle),
        published := s.published + [SegmentOf(d)])
  {
    RunThree(s, Driver, Driver, Driver);
  }

  function WholeCall(length: nat): seq<Action> { CallStart(length) + CALL_END }

  /** A whole call hands the descriptor to the DMA with the new length. */
  lemma WholeCallPublishes(s: System, length: nat)
    requires OneDescriptor(s) && length <= BUF_SIZE
    ensures Feasible(s, WholeCall(length)) && OneDescriptor(Run(s, WholeCall(length)))
    ensures var t := Run(s, WholeCall(length));
      && t.tx.head == s.tx.head && t.tx.ring[0].control == length
      && Owned(t.tx.ring[0].status) && SegmentOf(t.tx.ring[0]) == Segment(true, true, length)
      && t.sent == s.sent && t.frames == s.frames + [length]
  {
    CallStartWrites(s, length);
    var prepared := Run(s, CallStart(length));
    CallEndPublishes(prepared);
    RunConcat(s, CallStart(length), CALL_END);
    FlagsBits(s.tx.ring[0].status, true);
    OwnBits(prepared.tx.ring[0].status);
  }

  /** The DMA sends what the descriptor describes and has nothing more to send. */
  lemma DmaSendsOne(s: System, segment: Segment)
    requires OneDescriptor(s) && Owned(s.tx.ring[0].status) && SegmentOf(s.tx.ring[0]) == segment
    ensures Feasible(s, [Dma(0)])
    ensures var t := Run(s, [Dma(0)]);
      && |t.tx.ring| == 1 && !Owned(t.tx.ring[0].status)
      && t.sent == s.sent + [segment] && t.frames == s.frames
  {
    RunOne(s, Dma(0));
    ReleasedBits(s.tx.ring[0].status, 0);
  }

  /** The first accesses of a call leave the DMA its descriptor, with the new length. */
  lemma StillOwned(s: System, length: nat)
    requires OneDescriptor(s) && Owned(s.tx.ring[0].status) && length <= BUF_SIZE
    ensures Feasible(s, CallStart(length))
    ensures var t := Run(s, CallStart(length));
      |t.tx.ring| == 1 && Owned(t.tx.ring[0].status) && t.tx.ring[0].control == length
  {
    CallStartWrites(s, length);
    BothMarksKeepOwner(s.tx.ring[0].status);
  }

  /** What is lost without room: on a ring of one descriptor a frame of `first` bytes is
      submitted and, before the DMA has sent it, one of `second` bytes. Three accesses
      into the second call the descriptor, still the DMA's, holds the second length;
      in the end the DMA has sent the second frame only and nothing is left to send. */
  lemma FrameLost(s: System, first: nat, second: nat)
    requires Initial(s) && |s.tx.ring| == 1 && !s.tx.txbu
    requires first <= BUF_SIZE && second <= BUF_SIZE && first != second
    ensures var actions := WholeCall(first) + CallStart(second);
      && Feasible(s, actions) && |Run(s, actions).tx.ring| == 1
      && Owned(Run(s, actions).tx.ring[0].status) && Run(s, actions).tx.ring[0].control == second
    ensures var actions := WholeCall(first) + WholeCall(second) + [Dma(0)];
      && Feasible(s, actions) && |Run(s, actions).tx.ring| == 1
      && Run(s, actions).frames == [first, second] && !Owned(Run(s, actions).tx.ring[0].status)
      && Reassemble(Run(s, actions).sent).lengths == [second]
      && !(Reassemble(Run(s, actions).sent).lengths <= Run(s, actions).frames)
  {
    WholeCallPublishes(s, first);
    var one := Run(s, WholeCall(first));
    StillOwned(one, second);
    RunConcat(s, WholeCall(first), CallStart(second));
    WholeCallPublishes(one, second);
    RunConcat(s, WholeCall(first), WholeCall(second));
    DmaSendsOne(Run(one, WholeCall(second)), Segment(true, true, second));
    RunConcat(s, WholeCall(first) + WholeCall(second), [Dma(0)]);
    OneSegmentReassembles(second);
    assert [first, second][0] != [second][0];
  }

  lemma OneSegmentReassembles(length: nat)
    ensures Reassemble([Segment(true, true, length)]).lengths == [length]
  {
    assert [Segment(true, true, length)][..0] == [];
  }

  /** A second call that has read the status word when the DMA gives the descriptor back,
      and then writes the word it has read. */
  function StaleStart(length: nat): seq<Action> { [Submit(length)] + [Driver, Dma(0), Driver] }

  /** The write undoes what the DMA wrote: the descriptor is the DMA's again, with the
      length of the frame already sent. */
  lemma StaleWrite(s: System, length: nat)
    requires OneDescriptor(s) && Owned(s.tx.ring[0].status) && length <= BUF_SIZE
    requires SegmentOf(s.tx.ring[0]).first && SegmentOf(s.tx.ring[0]).last
    ensures Feasible(s, StaleStart(length))
    ensures var t := Run(s, StaleStart(length));
      && Valid(t.tx) && |t.tx.ring| == 1 && !t.tx.suspended && Owned(t.tx.ring[0].status)
      && SegmentOf(t.tx.ring[0]) == SegmentOf(s.tx.ring[0])
      && t.sent == s.sent + [SegmentOf(s.tx.ring[0])] && t.frames == s.frames + [length]
  {
    RunOne(s, Submit(length));
    RunThree(SubmitStep(s, length), Driver, Dma(0), Driver);
    RunConcat(s, [Submit(length)], [Driver, Dma(0), Driver]);
    FlagsBits(s.tx.ring[0].status, true);
    BothMarksKeepOwner(s.tx.ring[0].status);
  }

  /** What can also happen without room: the frame of `first` bytes is sent twice. */
  lemma FrameRepeated(s: System, first: nat, second: nat)
    requires Initial(s) && |s.tx.ring| == 1 && !s.tx.txbu
    requires first <= BUF_SIZE && second <= BUF_SIZE && first != second
    ensures var actions := WholeCall(first) + StaleStart(second) + [Dma(0)];
      && Feasible(s, actions) && Run(s, actions).frames == [first, second]
      && Reassemble(Run(s, actions).sent).lengths == [first, first]
      && !(Reassemble(Run(s, actions).sent).lengths <= Run(s, actions).frames)
  {
    WholeCallPublishes(s, first);
    var one := Run(s, WholeCall(first));
    StaleWrite(one, second);
    var two := Run(one, StaleStart(second));
    RunConcat(s, WholeCall(first), StaleStart(second));
    RunOne(two, Dma(0));
    RunConcat(s, WholeCall(first) + StaleStart(second), [Dma(0)]);
    TwoSegmentsReassemble(first);
    assert [first, second][1] != [first, first][1];
  }

  lemma TwoSegmentsReassemble(length: nat)
    ensures var segment := Segment(true, true, length); Reassemble([segment] + [segment]).lengths == [length, length]
  {
    var segment := Segment(true, true, length);
    OneSegmentReassembles(length);
    assert ([segment] + [segment])[..1] == [segment];
  }

  // ----- The driver -----

  const ETH_SUCCESS: nat := 1

  /** The driver's part of two states agrees. */
  ghost predicate SameCall(s: TxState, t: TxState)
  {
    s.toSet == t.toSet && s.cur == t.cur && s.length == t.length && s.i == t.i && s.at == t.at &&
    s.held == t.held && |s.ring| == |t.ring|
  }

  /** Nothing was submitted or published between two states. */
  ghost predicate SameProgress(s: System, t: System)
  {
    s.frames == t.frames && s.published == t.published
  }

  class TxDriver {
    const table: array<Descriptor>
    const count: nat
    var toSet: nat
    var head: nat
    var suspended: bool
    var txbu: bool
    ghost var origin: System
    ghost var trace: seq<Action>

    /** The state of the transition system after everything done so far. */
    ghost function Sys(): System
      reads this
      requires Feasible(origin, trace)
    {
      Run(origin, trace)
    }

    /** Every frame so far was submitted with its descriptors free. */
    ghost predicate CarefulSoFar()
      reads this
      requires Feasible(origin, trace)
    {
      Careful(origin, trace)
    }

    /** Everything done so far is a feasible run, and the concrete ring, pointer and
        registers are those it leads to. */
    ghost predicate Linked()
      reads this, table
    {
      && count <= table.Length && Initial(origin) && Feasible(origin, trace) && Valid(Sys().tx)
      && table[..count] == Sys().tx.ring && toSet == Sys().tx.toSet && head == Sys().tx.head
      && suspended == Sys().tx.suspended && txbu == Sys().tx.txbu
    }

    /** ETH_ConfigDMATxDescChain on a fresh driver, with the DMA started. */
    constructor (txTable: array<Descriptor>, txBuff: nat, txCount: nat)
      requires 0 < txCount <= txTable.Length
      requires txBuff + txCount * BUF_SIZE <= TWO32
      modifies txTable
      ensures table == txTable && count == txCount
      ensures Linked() && trace == []
    {
      table, count := txTable, txCount;
      suspended, txbu := false, false;
      new;
      toSet, head := ConfigTxChain(table, txBuff, count);
      origin := System(TxState(table[..count], 0, 0, 0, 0, Idle, Empty, 0, false, false), [], [], []);
      trace := [];
    }

    /** One step of the DMA on the shared ring and registers. */
    method DmaTick(e: bv32)
      requires Linked()
      modifies this`head, this`suspended, this`txbu, this`trace, table
      ensures Linked() && Sys() == DmaAction(old(Sys()), e)
      ensures old(CarefulSoFar()) ==> CarefulSoFar()
    {
      RunSnoc(origin, trace, Dma(e));
      var d := table[head];
      if !suspended && Owned(d.status) {
        table[head] := d.(status := Released(d.status, e));
        head := d.next;
      } else {
        suspended, txbu := true, txbu || !suspended;
      }
      trace := trace + [Dma(e)];
      assert table[..count] == Sys().tx.ring;
    }

    /** Any number of DMA steps. */
    method Interfere(es: seq<bv32>)
      requires Linked()
      modifies this`head, this`suspended, this`txbu, this`trace, table
      ensures Linked() && SameProgress(Sys(), old(Sys())) && SameCall(Sys().tx, old(Sys().tx))
      ensures old(CarefulSoFar()) ==> CarefulSoFar()
    {
      for j := 0 to |es|
        invariant Linked() && SameProgress(Sys(), old(Sys())) && SameCall(Sys().tx, old(Sys().tx))
        invariant old(CarefulSoFar()) ==> CarefulSoFar()
      {
        DmaTick(es[j]);
      }
    }

    /** Reading the status word of the current descriptor, to be changed and written back. */
    method Load(cur: nat) returns (w: bv32)
      requires Linked() && Loads(Sys().tx) && cur == Sys().tx.cur
      modifies this`trace
      ensures Linked() && SameProgress(Sys(), old(Sys()))
      ensures old(CarefulSoFar()) ==> CarefulSoFar()
      ensures Sys().tx == old(Sys().tx).(held := Held(w))
    {
      RunSnoc(origin, trace, Driver);
      w := table[cur].status;
      trace := trace + [Driver];
    }

    /** One preparing write to the current descriptor. */
    method Prepare(cur: nat, d: Descriptor)
      requires Linked() && Preparing(Sys().tx.at) && !Loads(Sys().tx) && cur == Sys().tx.cur
      requires d == Prepared(Seen(Sys().tx), Sys().tx.length, Sys().tx.i, Sys().tx.at)
      modifies this`trace, table
      ensures Linked() && SameProgress(Sys(), old(Sys()))
      ensures old(CarefulSoFar()) ==> CarefulSoFar()
      ensures Sys().tx.at == AfterPreparing(old(Sys().tx.length), old(Sys().tx.i), old(Sys().tx.at))
      ensures Sys().tx.held.Empty? && SameCall(Sys().tx.(at := old(Sys().tx.at), held := old(Sys().tx.held)), old(Sys().tx))
    {
      RunSnoc(origin, trace, Driver);
      table[cur] := d;
      trace := trace + [Driver];
      assert table[..count] == Sys().tx.ring;
    }

    /** A compound assignment to the status word of the current descriptor. The DMA acts
        before each of its two accesses. */
    method Modify(cur: nat, change: Access, whole: bool, before: seq<bv32>, between: seq<bv32>)
      requires Linked() && Preparing(change) && Loads(Sys().tx) && cur == Sys().tx.cur
      requires change == Sys().tx.at && whole == (SegmentCount(Sys().tx.length) == 1)
      modifies this`head, this`suspended, this`txbu, this`trace, table
      ensures Linked() && SameProgress(Sys(), old(Sys()))
      ensures old(CarefulSoFar()) ==> CarefulSoFar()
      ensures Sys().tx.at == AfterPreparing(old(Sys().tx.length), old(Sys().tx.i), change)
      ensures SameCall(Sys().tx.(at := change), old(Sys().tx))
    {
      Interfere(before);
      var w := Load(cur);
      Interfere(between);
      Prepare(cur, table[cur].(status := Changed(w, whole, change)));
    }

    /** Setting OWN on the current descriptor and, after the last segment, storing
        DMATxDescToSet. `next` is the descriptor after it. */
    method Publish(cur: nat, w: bv32, last: bool) returns (next: nat)
      requires Linked() && Sys().tx.at.Publish? && Sys().tx.held == Held(w) && cur == Sys().tx.cur
      requires last <==> Sys().tx.i + 1 == SegmentCount(Sys().tx.length)
      modifies this`trace, this`toSet, table
      ensures Linked() && Sys().frames == old(Sys().frames)
      ensures old(CarefulSoFar()) ==> CarefulSoFar()
      ensures |Sys().published| == old(|Sys().published|) + 1
      ensures Sys().tx.length == old(Sys().tx.length) && Sys().tx.i == old(Sys().tx.i) + 1
      ensures Sys().tx.cur == next && Sys().tx.held.Empty? && Sys().tx.at == if last then CheckTxbu else Flags
      ensures cur < count && next == Next(cur, count) && (last ==> toSet == next)
    {
      RunSnoc(origin, trace, Driver);
      table[cur] := table[cur].(status := Own(w));
      next := table[cur].next;
      if last {
        toSet := next;
      }
      trace := trace + [Driver];
      assert table[..count] == Sys().tx.ring;
    }

    /** A frame in one segment; access k is preceded by the DMA steps env(k). */
    method PrepareWhole(cur: nat, length: nat, env: nat -> seq<bv32>)
      requires Linked() && Sys().tx.at.Flags? && Sys().tx.held.Empty? && cur == Sys().tx.cur
      requires length == Sys().tx.length && SegmentCount(length) == 1
      modifies this`head, this`suspended, this`txbu, this`trace, table
      ensures Linked() && SameProgress(Sys(), old(Sys()))
      ensures old(CarefulSoFar()) ==> CarefulSoFar()
      ensures Sys().tx.at.Publish? && SameCall(Sys().tx.(at := Flags), old(Sys().tx))
    {
      Modify(cur, Flags, true, env(0), env(1));
      Interfere(env(2));
      Prepare(cur, table[cur].(control := length % SIZE_MODULUS));
    }

    /** Segment i of a frame in several segments. */
    method PrepareSegment(cur: nat, length: nat, segments: nat, i: nat, env: nat -> seq<bv32>)
      requires Linked() && Sys().tx.at.Flags? && Sys().tx.held.Empty? && cur == Sys().tx.cur
      requires length == Sys().tx.length && i == Sys().tx.i && segments == SegmentCount(length) > 1
      modifies this`head, this`suspended, this`txbu, this`trace, table
      ensures Linked() && SameProgress(Sys(), old(Sys()))
      ensures old(CarefulSoFar()) ==> CarefulSoFar()
      ensures Sys().tx.at.Publish? && SameCall(Sys().tx.(at := Flags), old(Sys().tx))
    {
      Modify(cur, Flags, false, env(0), env(1));
      if i == 0 {
        Modify(cur, MarkFirst, false, env(2), env(3));
      }
      Interfere(env(4));
      Prepare(cur, table[cur].(control := BUF_SIZE % SIZE_MODULUS));
      if i == segments - 1 {
        CloseSegment(cur, length, segments, env);
      }
    }

    /** The extra writes on the last segment. */
    method CloseSegment(cur: nat, length: nat, segments: nat, env: nat -> seq<bv32>)
      requires Linked() && Sys().tx.at.MarkLast? && Sys().tx.held.Empty? && cur == Sys().tx.cur
      requires length == Sys().tx.length && segments == SegmentCount(length) > 1
      modifies this`head, this`suspended, this`txbu, this`trace, table
      ensures Linked() && SameProgress(Sys(), old(Sys()))
      ensures old(CarefulSoFar()) ==> CarefulSoFar()
      ensures Sys().tx.at.Publish? && SameCall(Sys().tx.(at := MarkLast), old(Sys().tx))
    {
      Modify(cur, MarkLast, false, env(5), env(6));
      Interfere(env(7));
      SegmentCountIsCeiling(length);
      var size := length - (segments - 1) * BUF_SIZE;
      Prepare(cur, table[cur].(control := size % SIZE_MODULUS));
    }

    /** A frame of this length is under way and its first i segments are published. */
    ghost predicate UnderWay(cur: nat, length: nat, i: nat)
      reads this, table
    {
      && Linked() && Sys().tx.at == (if i < SegmentCount(length) then Flags else CheckTxbu)
      && Sys().tx.held.Empty? && Sys().tx.cur == cur && Sys().tx.length == length && Sys().tx.i == i
    }

    /** Preparing and publishing segment i of the frame under way, at position p. */
    method PublishSegment(cur: nat, length: nat, segments: nat, i: nat, env: nat -> seq<bv32>, ghost p: nat)
      returns (next: nat)
      requires UnderWay(cur, length, i) && i < segments == SegmentCount(length)
      requires count > 0 && cur == Slot(p, count)
      modifies this`toSet, this`head, this`suspended, this`txbu, this`trace, table
      ensures UnderWay(next, length, i + 1)
      ensures old(CarefulSoFar()) ==> CarefulSoFar()
      ensures Sys().frames == old(Sys().frames) && |Sys().published| == old(|Sys().published|) + 1
      ensures next == Slot(p + 1, count) && (i == segments - 1 ==> toSet == next)
    {
      if segments == 1 {
        PrepareWhole(cur, length, env);
      } else {
        PrepareSegment(cur, length, segments, i, env);
      }
      Interfere(env(8));
      var w := Load(cur);
      Interfere(env(9));
      next := Publish(cur, w, i == segments - 1);
    }

    /** The loop over the segments of the frame just submitted, whose first descriptor
        is at position `start`. */
    method PublishSegments(first: nat, length: nat, segments: nat, env: (nat, nat) -> seq<bv32>, ghost start: nat)
      requires UnderWay(first, length, 0) && segments == SegmentCount(length)
      requires count > 0 && first == Slot(start, count)
      modifies this`toSet, this`head, this`suspended, this`txbu, this`trace, table
      ensures Linked() && Sys().tx.at.CheckTxbu?
      ensures old(CarefulSoFar()) ==> CarefulSoFar()
      ensures Sys().frames == old(Sys().frames) && |Sys().published| == old(|Sys().published|) + segments
      ensures toSet == Slot(start + segments, count)
    {
      var cur, i := first, 0;
      while i < segments
        invariant i <= segments && UnderWay(cur, length, i)
        invariant old(CarefulSoFar()) ==> CarefulSoFar()
        invariant Sys().frames == old(Sys().frames) && |Sys().published| == old(|Sys().published|) + i
        invariant cur == Slot(start + i, count) && (i == segments ==> toSet == cur)
      {
        cur := PublishSegment(cur, length, segments, i, (j: nat) => env(i, j), start + i);
        i := i + 1;
      }
    }

    /** Preparing and publishing the frame just submitted. */
    method PublishFrame(first: nat, length: nat, segments: nat, env: (nat, nat) -> seq<bv32>, ghost start: nat)
      requires UnderWay(first, length, 0) && segments == SegmentCount(length)
      requires count > 0 && first == Slot(start, count)
      modifies this`toSet, this`head, this`suspended, this`txbu, this`trace, table
      ensures Linked() && Sys().tx.at.CheckTxbu?
      ensures old(CarefulSoFar()) ==> CarefulSoFar()
      ensures Sys().frames == old(Sys().frames) && |Sys().published| == old(|Sys().published|) + segments
      ensures toSet == Slot(start + segments, count)
    {
      if segments == 1 {
        var next := PublishSegment(first, length, segments, 0, (j: nat) => env(0, j), start);
      } else {
        PublishSegments(first, length, segments, env, start);
      }
    }

    /** Waking a DMA that ran out of descriptors: test TXBU, clear it, demand a poll. */
    method WakeDma(env: nat -> seq<bv32>)
      requires Linked() && Sys().tx.at.CheckTxbu?
      modifies this`head, this`suspended, this`txbu, this`trace, table
      ensures Linked() && SameProgress(Sys(), old(Sys())) && Sys().tx.at.Idle?
      ensures old(CarefulSoFar()) ==> CarefulSoFar()
    {
      Interfere(env(0));
      RunSnoc(origin, trace, Driver);
      trace := trace + [Driver];
      if txbu {
        Interfere(env(1));
        ClearTxbuFlag();
        Interfere(env(2));
        PollDemand();
      }
    }

    method ClearTxbuFlag()
      requires Linked() && Sys().tx.at.ClearTxbu?
      modifies this`txbu, this`trace
      ensures Linked() && SameProgress(Sys(), old(Sys())) && Sys().tx.at.Demand?
      ensures old(CarefulSoFar()) ==> CarefulSoFar()
    {
      RunSnoc(origin, trace, Driver);
      txbu := false;
      trace := trace + [Driver];
    }

    method PollDemand()
      requires Linked() && Sys().tx.at.Demand?
      modifies this`suspended, this`trace
      ensures Linked() && SameProgress(Sys(), old(Sys())) && Sys().tx.at.Idle?
      ensures old(CarefulSoFar()) ==> CarefulSoFar()
    {
      RunSnoc(origin, trace, Driver);
      suspended := false;
      trace := trace + [Driver];
    }

    /** The number of descriptors, as the driver computes it. */
    static method CountSegments(frameLength: nat) returns (segments: nat)
      ensures segments == SegmentCount(frameLength)
    {
      if frameLength > BUF_SIZE {
        segments := frameLength / BUF_SIZE;
        if frameLength % BUF_SIZE != 0 {
          segments := segments + 1;
        }
      } else {
        segments := 1;
      }
    }

    /** ETH_Transmit_Descriptors. Access j of segment i is preceded by the DMA steps
        env(i, j). The call extends the run: it submits the frame, publishes its
        segments and leaves the driver idle, whatever the DMA does meanwhile, and moves
        DMATxDescToSet on by that many links. With room for the frame the run stays
        one of a careful caller; the driver does not check. */
    method TransmitDescriptors(frameLength: nat, env: (nat, nat) -> seq<bv32>) returns (r: nat)
      requires Linked() && Sys().tx.at.Idle? && frameLength <= 0xFFFF
      modifies this`toSet, this`head, this`suspended, this`txbu, this`trace, table
      ensures Linked() && Sys().tx.at.Idle?
      ensures old(CarefulSoFar()) && old(Fits(Sys(), frameLength)) ==> CarefulSoFar()
      ensures r == 1 // ETH_SUCCESS
      ensures Sys().frames == old(Sys().frames) + [frameLength]
      ensures |Sys().published| == old(|Sys().published|) + SegmentCount(frameLength)
      ensures toSet == Walk(table[..count], old(toSet), SegmentCount(frameLength))
    {
      BusyCheckNeverFires(table[toSet].status);
      if BusyCheck(table[toSet].status) {
        assert false; // ETH_ERROR would be returned here
      }
      ghost var start := SlotCovers(0, toSet, count);
      var segments := CountSegments(frameLength);
      RunSnoc(origin, trace, Submit(frameLength));
      trace := trace + [Submit(frameLength)];
      PublishFrame(toSet, frameLength, segments, env, start);
      WakeDma((j: nat) => env(segments, j));
      WalkIsSlot(table[..count], start, segments);
      r := ETH_SUCCESS;
    }
  }
}
