/** Handing transmit descriptors to a running DMA: ETH_Transmit_Descriptors as a
    sequence of single memory accesses interleaved with the DMA engine. */
module EthTransmit {
  import opened EthDescriptors
  import opened EthSegments

  const TX_WRITEBACK: bv32 := 0x0003_FFFF

  predicate TxFirst(w: bv32) { w & TX_FS != 0 }

  predicate TxLast(w: bv32) { w & TX_LS != 0 }

  /** What the DMA transmits for a descriptor. */
  function SegmentOf(d: Descriptor): Segment
  {
    Segment(TxFirst(d.status), TxLast(d.status), d.control)
  }

  /** What the driver does next. */
  datatype Access =
    | Idle
    | Flags      // clear FS and LS (or set both, for a one-segment frame)
    | MarkFirst  // set FS
    | Size       // write the buffer size
    | MarkLast   // set LS
    | LastSize   // write the remaining size
    | Publish    // set OWN, move to the next descriptor
    | CheckTxbu  // test the transmit-buffer-unavailable flag
    | ClearTxbu  // write-one-to-clear that flag
    | Demand     // write the poll-demand register

  /** Whether the access writes to the descriptor being prepared. */
  predicate Preparing(a: Access)
  {
    a.Flags? || a.MarkFirst? || a.Size? || a.MarkLast? || a.LastSize?
  }

  /** Whether it reads the status word before it writes it back. The compound
      assignments of the driver are two accesses, with the DMA free to act between. */
  predicate Modifies(a: Access) { a.Flags? || a.MarkFirst? || a.MarkLast? || a.Publish? }

  /** The status word read and not yet written back. */
  datatype Held = Empty | Held(word: bv32)

  /** The ring, the driver's DMATxDescToSet and locals, and the DMA: its cursor
      `head`, whether it is suspended, and its sticky TXBU flag. */
  datatype TxState = TxState(
    ring: seq<Descriptor>,
    toSet: nat,
    cur: nat,
    length: nat,
    i: nat,
    at: Access,
    held: Held,
    head: nat,
    suspended: bool,
    txbu: bool)

  ghost predicate Valid(s: TxState)
  {
    && Chained(s.ring)
    && s.toSet < |s.ring| && s.cur < |s.ring| && s.head < |s.ring|
    && (Preparing(s.at) || s.at.Publish? ==> s.i < SegmentCount(s.length))
    && (s.held.Held? ==> Modifies(s.at))
  }

  /** The next access only reads the status word. */
  predicate Loads(s: TxState) { Modifies(s.at) && s.held.Empty? }

  /** The current descriptor with the status word the driver has read. */
  function Seen(s: TxState): (d: Descriptor)
    requires s.cur < |s.ring|
    ensures d.next == s.ring[s.cur].next && d.buffer == s.ring[s.cur].buffer
  {
    if s.held.Held? then s.ring[s.cur].(status := s.held.word) else s.ring[s.cur]
  }

  /** The first write: both flags for a frame in one segment, otherwise neither. */
  function FlagsWord(w: bv32, whole: bool): bv32
  {
    if whole then w | TX_FS_LS else w & !TX_FS_LS
  }

  /** The status word a preparing write puts in place of w. */
  function Changed(w: bv32, whole: bool, at: Access): bv32
    requires Preparing(at) && Modifies(at)
  {
    match at
    case Flags => FlagsWord(w, whole)
    case MarkFirst => w | TX_FS
    case MarkLast => w | TX_LS
  }

  /** The status word that hands a descriptor to the DMA. */
  function Own(w: bv32): bv32 { w | OWN }

  /** One preparing write. */
  function Prepared(d: Descriptor, length: nat, i: nat, at: Access): (r: Descriptor)
    requires Preparing(at) && i < SegmentCount(length)
    ensures r.next == d.next && r.buffer == d.buffer
  {
    var count := SegmentCount(length);
    if Modifies(at) then d.(status := Changed(d.status, count == 1, at))
    else if at.Size? then d.(control := (if count == 1 then length else BUF_SIZE) % SIZE_MODULUS)
    else d.(control := (length - (count - 1) * BUF_SIZE) % SIZE_MODULUS)
  }

  /** The access after a preparing write. */
  function AfterPreparing(length: nat, i: nat, at: Access): (r: Access)
    requires Preparing(at)
    ensures Preparing(r) || r.Publish?
  {
    var count := SegmentCount(length);
    match at
    case Flags => if count > 1 && i == 0 then MarkFirst else Size
    case MarkFirst => Size
    case Size => if count > 1 && i == count - 1 then MarkLast else Publish
    case MarkLast => LastSize
    case LastSize => Publish
  }

  /** The current descriptor becomes d and the driver moves to the next one; after
      the last segment DMATxDescToSet follows. */
  function HandOver(s: TxState, d: Descriptor): (r: TxState)
    requires Valid(s) && s.at.Publish? && d.next == s.ring[s.cur].next
    ensures Valid(r)
  {
    var moved := s.(ring := s.ring[s.cur := d], cur := d.next, i := s.i + 1, held := Empty);
    if s.i + 1 < SegmentCount(s.length) then moved.(at := Flags)
    else moved.(toSet := d.next, at := CheckTxbu)
  }

  /** One access to the DMA registers: test TXBU, clear it, or demand a poll. */
  function WakeStep(s: TxState): (r: TxState)
    requires Valid(s) && (s.at.CheckTxbu? || s.at.ClearTxbu? || s.at.Demand?)
    ensures Valid(r)
  {
    match s.at
    case CheckTxbu => s.(at := if s.txbu then ClearTxbu else Idle)
    case ClearTxbu => s.(txbu := false, at := Demand)
    case Demand => s.(suspended := false, at := Idle)
  }

  /** One access of the driver. */
  function DriverStep(s: TxState): (r: TxState)
    requires Valid(s) && !s.at.Idle?
    ensures Valid(r)
  {
    var d := Seen(s);
    if Loads(s) then s.(held := Held(s.ring[s.cur].status))
    else if Preparing(s.at) then
      s.(ring := s.ring[s.cur := Prepared(d, s.length, s.i, s.at)],
         at := AfterPreparing(s.length, s.i, s.at), held := Empty)
    else if s.at.Publish? then HandOver(s, d.(status := Own(d.status)))
    else WakeStep(s)
  }

  /** The call begins: the frame's first descriptor is DMATxDescToSet. */
  function Begin(s: TxState, length: nat): (r: TxState)
    requires Valid(s)
    ensures Valid(r)
  {
    s.(cur := s.toSet, length := length, i := 0, at := Flags, held := Empty)
  }

  /** The status word the DMA writes back: OWN cleared, result bits `e` filled in. */
  function Released(w: bv32, e: bv32): bv32
  {
    (w & 0x7FFC_0000) | (e & TX_WRITEBACK)
  }

  predicate DmaSends(s: TxState)
    requires Valid(s)
  {
    !s.suspended && Owned(s.ring[s.head].status)
  }

  /** One step of the DMA: send the segment at its cursor and release the
      descriptor, or suspend and raise TXBU if that descriptor is not its own. */
  function DmaStep(s: TxState, e: bv32): (r: TxState)
    requires Valid(s)
    ensures Valid(r)
  {
    var d := s.ring[s.head];
    if DmaSends(s) then
      s.(ring := s.ring[s.head := d.(status := Released(d.status, e))], head := d.next)
    else s.(suspended := true, txbu := s.txbu || !s.suspended)
  }

  // ----- The busy check -----

  /** The test at the start of ETH_Transmit_Descriptors: the masked OWN bit is
      compared with SET, which is 1. */
  predicate BusyCheck(w: bv32) { w & OWN == 1 }

  /** The test never fires, in particular not on a busy descriptor. */
  lemma BusyCheckNeverFires(w: bv32)
    ensures !BusyCheck(w)
    ensures Owned(OWN) && !BusyCheck(OWN)
  {
  }

  // ----- Bits -----

  /** How far the descriptor is prepared just before access `at`. */
  ghost predicate Progress(d: Descriptor, length: nat, i: nat, at: Access)
    requires i < SegmentCount(length)
  {
    var count := SegmentCount(length);
    var s := SegmentOf(d);
    match at
    case MarkFirst => count > 1 && i == 0 && !s.first && !s.last
    case Size => if count == 1 then s.first && s.last else s.first == (i == 0) && !s.last
    case MarkLast => count > 1 && i == count - 1 && s.first == (i == 0) && !s.last
    case LastSize => count > 1 && i == count - 1 && s.first == (i == 0) && s.last
    case Publish => s == SegmentAt(length, i)
    case _ => true
  }

  lemma SetFirstBits(w: bv32)
    ensures var r := w | TX_FS;
      TxFirst(r) && TxLast(r) == TxLast(w)
  {
    assert (w | TX_FS) & TX_LS == w & TX_LS;
  }

  lemma SetLastBits(w: bv32)
    ensures var r := w | TX_LS;
      TxLast(r) && TxFirst(r) == TxFirst(w)
  {
    assert (w | TX_LS) & TX_FS == w & TX_FS;
  }

  lemma FlagsBits(w: bv32, whole: bool)
    ensures TxFirst(FlagsWord(w, whole)) == TxLast(FlagsWord(w, whole)) == whole
  {
  }

  /** All bits but FS and LS agree. */
  predicate SameButMarks(v: bv32, w: bv32) { v & 0xCFFF_FFFF == w & 0xCFFF_FFFF }

  /** All bits but OWN, FS and LS agree. */
  predicate SameButHandOver(v: bv32, w: bv32) { v & 0x4FFF_FFFF == w & 0x4FFF_FFFF }

  /** Bits 18 to 27 and 30 agree: the settings the chain builder or the caller has made,
      which neither the driver nor the DMA may change. */
  predicate SameSettings(v: bv32, w: bv32) { v & 0x4FFC_0000 == w & 0x4FFC_0000 }

  lemma MarksAreFine(v: bv32, w: bv32)
    requires SameButMarks(v, w)
    ensures Owned(v) == Owned(w) && SameButHandOver(v, w)
  {
    assert v & 0x8000_0000 == (v & 0xCFFF_FFFF) & 0x8000_0000;
    assert w & 0x8000_0000 == (w & 0xCFFF_FFFF) & 0x8000_0000;
    assert v & 0x4FFF_FFFF == (v & 0xCFFF_FFFF) & 0x4FFF_FFFF;
    assert w & 0x4FFF_FFFF == (w & 0xCFFF_FFFF) & 0x4FFF_FFFF;
  }

  lemma HandOverIsFine(v: bv32, w: bv32)
    requires SameButHandOver(v, w)
    ensures SameSettings(v, w)
  {
    assert v & 0x4FFC_0000 == (v & 0x4FFF_FFFF) & 0x4FFC_0000;
    assert w & 0x4FFC_0000 == (w & 0x4FFF_FFFF) & 0x4FFC_0000;
  }

  lemma OwnKeeps(w: bv32, m: bv32)
    requires m & OWN == 0
    ensures Own(w) & m == w & m
  {
  }

  lemma OwnSets(w: bv32)
    ensures Owned(Own(w))
  {
  }

  lemma OwnBits(w: bv32)
    ensures var r := Own(w);
      Owned(r) && TxFirst(r) == TxFirst(w) && TxLast(r) == TxLast(w) && SameButHandOver(r, w)
  {
    OwnSets(w);
    OwnKeeps(w, TX_FS);
    OwnKeeps(w, TX_LS);
    OwnKeeps(w, 0x4FFF_FFFF);
  }

  lemma ReleasedBits(w: bv32, e: bv32)
    ensures !Owned(Released(w, e)) && SameSettings(Released(w, e), w)
  {
    assert Released(w, e) & 0x4FFC_0000 == w & 0x4FFC_0000;
  }

  lemma FlagsKeep(w: bv32, whole: bool)
    ensures SameButMarks(FlagsWord(w, whole), w)
  {
    assert (w | 0x3000_0000) & 0xCFFF_FFFF == w & 0xCFFF_FFFF;
    assert (w & 0xCFFF_FFFF) & 0xCFFF_FFFF == w & 0xCFFF_FFFF;
  }

  lemma FirstKeeps(w: bv32)
    ensures SameButMarks(w | TX_FS, w)
  {
  }

  lemma LastKeeps(w: bv32)
    ensures SameButMarks(w | TX_LS, w)
  {
  }

  /** Setting both marks leaves a descriptor its owner. */
  lemma BothMarksKeepOwner(w: bv32)
    ensures Owned(w | TX_FS_LS) == Owned(w)
  {
    FlagsKeep(w, true);
    MarksAreFine(w | TX_FS_LS, w);
  }

  lemma ChangedKeeps(w: bv32, whole: bool, at: Access)
    requires Preparing(at) && Modifies(at)
    ensures SameButMarks(Changed(w, whole, at), w)
  {
    if at.Flags? {
      FlagsKeep(w, whole);
    } else if at.MarkFirst? {
      FirstKeeps(w);
    } else {
      LastKeeps(w);
    }
  }

  /** A preparing write changes no bit of the status word but FS and LS. */
  lemma PreparingKeeps(d: Descriptor, length: nat, i: nat, at: Access)
    requires Preparing(at) && i < SegmentCount(length)
    ensures SameButMarks(Prepared(d, length, i, at).status, d.status)
  {
    if Modifies(at) {
      ChangedKeeps(d.status, SegmentCount(length) == 1, at);
    } else {
      assert Prepared(d, length, i, at).status == d.status;
    }
  }

  /** An access of the driver changes no status bit but OWN, FS and LS of the word it
      has read. */
  lemma AccessKeeps(s: TxState)
    requires Valid(s) && (Preparing(s.at) || s.at.Publish?)
    ensures SameButHandOver(DriverStep(s).ring[s.cur].status, Seen(s).status) || Loads(s)
  {
    var d := Seen(s);
    if Preparing(s.at) {
      PreparingKeeps(d, s.length, s.i, s.at);
      MarksAreFine(Prepared(d, s.length, s.i, s.at).status, d.status);
    } else {
      OwnBits(d.status);
    }
  }

  /** Each preparing write brings the descriptor one access further. */
  lemma PreparingProgress(d: Descriptor, length: nat, i: nat, at: Access)
    requires Preparing(at) && i < SegmentCount(length) && Progress(d, length, i, at)
    ensures Progress(Prepared(d, length, i, at), length, i, AfterPreparing(length, i, at))
  {
    match at
    case Flags => FlagsBits(d.status, SegmentCount(length) == 1);
    case MarkFirst => SetFirstBits(d.status);
    case MarkLast => SetLastBits(d.status);
    case Size =>
    case LastSize =>
  }
}
