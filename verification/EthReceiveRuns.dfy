/** Whole runs of the receive ring: DMA fills, polls, interrupt scans, frame reads and
    the caller's recycling, in any order the caller's protocol allows. */
module EthReceiveRuns {
  import opened Words
  import opened Ring
  import opened EthDescriptors
  import opened EthReceive

  /** What the caller may do next: poll, read the frame just found, or (after the
      read) zero the segment count before polling again. */
  datatype Phase = Polling | FrameFound | FrameTaken

  /** A frame together with its number of segments. */
  datatype Received = Received(frame: Frame, segments: nat)

  /** The ring and driver (`rx`) with the history of the run. Positions count
      descriptors since start-up: the DMA has filled |log| of them (with those status
      words), the driver has scanned `position`, frames up to `taken` were
      handed to the caller, who has recycled the first `recycled`. `polled` says whether
      the first segment of the open frame was taken by a poll rather than a scan. */
  datatype System = System(
    rx: RxState,
    buffers: seq<nat>,
    log: seq<bv32>,
    frameStart: nat,
    completed: seq<Received>,
    recycled: nat,
    taken: nat,
    position: nat,
    phase: Phase,
    polled: bool,
    delivered: seq<Received>)
  {
    function N(): nat { |rx.ring| }
  }

  /** Whether position p of a log of status words opens a frame. */
  predicate Boundary(log: seq<bv32>, p: nat)
    requires p <= |log|
  {
    p == 0 || Last(log[p - 1])
  }

  datatype Action =
    | DmaFill(w: bv32)
    | PollOnce
    | ScanOnce
    | ReadFrame
    | ClearCount
    | Recycle

  /** When an action may happen. The DMA marks exactly the first segment of a frame
      with FDES. A poll, or the decision of one iteration of the interrupt scan, needs a
      descriptor that is neither held by the caller nor part of the frame being
      assembled. */
  ghost predicate Enabled(s: System, a: Action)
    requires Valid(s.rx)
  {
    match a
    case DmaFill(w) =>
      && Owned(s.rx.ring[s.rx.dma].status) && !Owned(w)
      && (First(w) <==> Boundary(s.log, |s.log|))
    case PollOnce => s.phase == Polling && s.position < s.recycled + s.N()
    case ScanOnce => s.phase == Polling && s.position < s.recycled + s.N()
    case ReadFrame => s.phase == FrameFound
    case ClearCount => s.phase == FrameTaken
    case Recycle => s.recycled < s.taken
  }

  ghost predicate Ready(s: System) { Valid(s.rx) && |s.buffers| == s.N() }

  /** The DMA fills the next descriptor; a closing word completes a frame. */
  ghost function Fill(s: System, w: bv32): System
    requires Valid(s.rx) && |s.buffers| == s.N()
  {
    var start := if First(w) then |s.log| else s.frameStart;
    var slot := Slot(start, s.N());
    s.(rx := DmaWrite(s.rx, w),
       log := s.log + [w],
       frameStart := start,
       completed := if Last(w)
         then s.completed + [Received(Frame(PayloadLength(w), s.buffers[slot], Some(slot)),
                                      if start <= |s.log| then |s.log| + 1 - start else 0)]
         else s.completed)
  }

  ghost function PollStep(s: System): System
    requires Valid(s.rx)
  {
    var w := s.rx.ring[s.rx.get].status;
    s.(rx := Poll(s.rx).0,
       position := if !Owned(w) && !Last(w) then s.position + 1 else s.position,
       phase := if Poll(s.rx).1 == 1 then FrameFound else Polling,
       polled := s.polled || OpensFrame(w))
  }

  /** The word of a segment that opens a frame and does not close it. */
  predicate OpensFrame(w: bv32) { !Owned(w) && First(w) && !Last(w) }

  /** Like a poll, with LS_RxDesc left alone while a frame is open. */
  ghost function ScanStep(s: System): System
    requires Valid(s.rx)
  {
    PollStep(s).(rx := ScanPoll(s.rx).0, polled := s.polled && !OpensFrame(s.rx.ring[s.rx.get].status))
  }

  ghost function ReadStep(s: System): System
    requires Valid(s.rx)
  {
    s.(rx := Read(s.rx).0,
       position := s.position + 1,
       taken := s.position + 1,
       phase := FrameTaken,
       delivered := s.delivered + [Received(Read(s.rx).1, s.rx.segCount)])
  }

  ghost function RecycleStep(s: System): System
    requires Valid(s.rx)
  {
    s.(rx := SetOwn(s.rx, Slot(s.recycled, s.N())), recycled := s.recycled + 1)
  }

  ghost function Step(s: System, a: Action): System
    requires Valid(s.rx) && |s.buffers| == s.N() && Enabled(s, a)
  {
    match a
    case DmaFill(w) => Fill(s, w)
    case PollOnce => PollStep(s)
    case ScanOnce => ScanStep(s)
    case ReadFrame => ReadStep(s)
    case ClearCount => s.(rx := s.rx.(segCount := 0), phase := Polling)
    case Recycle => RecycleStep(s)
  }

  /** The state left by the chain builder: everything belongs to the DMA. */
  ghost predicate Initial(s: System)
  {
    && Valid(s.rx) && s.N() < TWO32
    && s.rx.get == 0 && s.rx.dma == 0 && s.rx.segCount == 0
    && |s.buffers| == s.N()
    && (forall i :: 0 <= i < s.N() ==> Owned(s.rx.ring[i].status) && s.rx.ring[i].buffer == s.buffers[i])
    && s.log == [] && s.completed == [] && s.delivered == []
    && s.recycled == 0 && s.taken == 0 && s.position == 0 && s.phase == Polling
  }

  // ----- The frames in a log of status words -----

  /** The position of the first segment of the frame that position p belongs to. */
  ghost function StartOf(log: seq<bv32>, p: nat): (r: nat)
    requires p < |log|
    ensures r <= p
  {
    if p == 0 || Last(log[p - 1]) then p else StartOf(log, p - 1)
  }

  /** The frame closed by position p. */
  ghost function FrameEnding(buffers: seq<nat>, log: seq<bv32>, p: nat): Received
    requires p < |log| && |buffers| > 0
  {
    var start := StartOf(log, p);
    var slot := Slot(start, |buffers|);
    Received(Frame(PayloadLength(log[p]), buffers[slot], Some(slot)), p + 1 - start)
  }

  /** The frames closed within the first k positions, oldest first. */
  ghost function Frames(buffers: seq<nat>, log: seq<bv32>, k: nat): seq<Received>
    requires k <= |log| && |buffers| > 0
  {
    if k == 0 then []
    else Frames(buffers, log, k - 1) +
         (if Last(log[k - 1]) then [FrameEnding(buffers, log, k - 1)] else [])
  }

  lemma {:induction false} StartOfAppend(log: seq<bv32>, w: bv32, p: nat)
    requires p < |log|
    ensures StartOf(log + [w], p) == StartOf(log, p)
  {
    if p > 0 {
      StartOfAppend(log, w, p - 1);
    }
  }

  lemma {:induction false} FramesAppend(buffers: seq<nat>, log: seq<bv32>, w: bv32, k: nat)
    requires k <= |log| && |buffers| > 0
    ensures Frames(buffers, log + [w], k) == Frames(buffers, log, k)
  {
    if k > 0 {
      FramesAppend(buffers, log, w, k - 1);
      StartOfAppend(log, w, k - 1);
    }
  }

  /** Frames come in order: those of a shorter log are a prefix. */
  lemma {:induction false} FramesPrefix(buffers: seq<nat>, log: seq<bv32>, k: nat, l: nat)
    requires k <= l <= |log| && |buffers| > 0
    ensures Frames(buffers, log, k) <= Frames(buffers, log, l)
    decreases l
  {
    if k < l {
      FramesPrefix(buffers, log, k, l - 1);
    }
  }

  /** Positions that close nothing add no frame. */
  lemma {:induction false} FramesUnchanged(buffers: seq<nat>, log: seq<bv32>, k: nat, l: nat)
    requires k <= l <= |log| && |buffers| > 0
    requires forall p :: k <= p < l ==> !Last(log[p])
    ensures Frames(buffers, log, k) == Frames(buffers, log, l)
    decreases l
  {
    if k < l {
      FramesUnchanged(buffers, log, k, l - 1);
    }
  }

  /** Taking the frame that closes at l extends the frames up to k by exactly it. */
  lemma FramesTake(buffers: seq<nat>, log: seq<bv32>, k: nat, l: nat)
    requires k <= l < |log| && |buffers| > 0 && Last(log[l])
    requires forall p :: k <= p < l ==> !Last(log[p])
    ensures Frames(buffers, log, l + 1) == Frames(buffers, log, k) + [FrameEnding(buffers, log, l)]
  {
    FramesUnchanged(buffers, log, k, l);
  }

  /** That frame is the first of the whole log not among the frames up to k. */
  lemma FramesIndex(buffers: seq<nat>, log: seq<bv32>, k: nat, l: nat)
    requires k <= l < |log| && |buffers| > 0 && Last(log[l])
    requires forall p :: k <= p < l ==> !Last(log[p])
    ensures var i := |Frames(buffers, log, k)|;
      var all := Frames(buffers, log, |log|);
      i < |all| && all[i] == FrameEnding(buffers, log, l)
  {
    FramesTake(buffers, log, k, l);
    FramesPrefix(buffers, log, l + 1, |log|);
  }

  lemma {:induction false} StartOfIs(log: seq<bv32>, start: nat, p: nat)
    requires start <= p < |log|
    requires start == 0 || Last(log[start - 1])
    requires forall q :: start <= q < p ==> !Last(log[q])
    ensures StartOf(log, p) == start
    decreases p
  {
    if start < p {
      StartOfIs(log, start, p - 1);
    }
  }

  // ----- The invariant -----

  /** The words filled since position `from` are still in the ring. */
  ghost predicate Filled(ring: seq<Descriptor>, log: seq<bv32>, from: nat)
    requires |ring| > 0
  {
    forall p :: from <= p < |log| ==> ring[Slot(p, |ring|)].status == log[p]
  }

  /** The descriptors at positions from..to belong to the DMA. */
  ghost predicate DmaOwns(ring: seq<Descriptor>, from: nat, to: nat)
    requires |ring| > 0
  {
    forall p :: from <= p < to ==> Owned(ring[Slot(p, |ring|)].status)
  }

  ghost predicate WordOk(log: seq<bv32>, p: nat)
    requires p < |log|
  {
    && !Owned(log[p])
    && (First(log[p]) <==> Boundary(log, p))
  }

  ghost predicate LogOk(log: seq<bv32>)
  {
    forall p :: 0 <= p < |log| ==> WordOk(log, p)
  }

  /** No frame closes at positions from..to. */
  ghost predicate NoneClosed(log: seq<bv32>, from: nat, to: nat)
    requires to <= |log|
  {
    forall p :: from <= p < to ==> !Last(log[p])
  }

  /** The ring is three arcs: taken but not recycled, filled, and the DMA's. */
  ghost predicate Arcs(s: System)
  {
    && Valid(s.rx) && s.N() < TWO32 && |s.buffers| == s.N()
    && s.recycled <= s.taken <= s.position <= |s.log| <= s.recycled + s.N()
    && s.rx.get == Slot(s.position, s.N())
    && s.rx.dma == Slot(|s.log|, s.N())
    && Filled(s.rx.ring, s.log, s.recycled)
    && DmaOwns(s.rx.ring, |s.log|, s.recycled + s.N())
  }

  ghost predicate SameBuffers(ring: seq<Descriptor>, buffers: seq<nat>)
  {
    |buffers| == |ring| && forall i :: 0 <= i < |ring| ==> ring[i].buffer == buffers[i]
  }

  /** The frame being assembled runs from `taken` to `position`. */
  ghost predicate Assembly(s: System)
    requires s.N() > 0 && s.taken <= s.position <= |s.log|
  {
    match s.phase
    case Polling =>
      && s.rx.segCount == s.position - s.taken
      && (s.taken < s.position ==> s.rx.fs == Some(Slot(s.taken, s.N())) && (s.polled ==> s.rx.ls == None))
    case FrameFound =>
      && s.position < |s.log| && Last(s.log[s.position])
      && s.rx.segCount == s.position + 1 - s.taken
      && s.rx.fs == Some(Slot(s.taken, s.N()))
      && s.rx.ls == Some(Slot(s.position, s.N()))
    case FrameTaken =>
      s.position == s.taken
  }

  /** What the DMA completed and what was delivered are the frames in the log. */
  ghost predicate HistoryOf(buffers: seq<nat>, log: seq<bv32>, frameStart: nat,
    completed: seq<Received>, delivered: seq<Received>, taken: nat)
    requires |buffers| > 0 && taken <= |log|
  {
    && completed == Frames(buffers, log, |log|)
    && delivered == Frames(buffers, log, taken)
    && (!Boundary(log, |log|) ==> frameStart == StartOf(log, |log| - 1))
  }

  ghost predicate History(s: System)
    requires |s.buffers| > 0 && s.taken <= |s.log|
  {
    HistoryOf(s.buffers, s.log, s.frameStart, s.completed, s.delivered, s.taken)
  }

  ghost predicate Inv(s: System)
  {
    && Arcs(s) && SameBuffers(s.rx.ring, s.buffers)
    && LogOk(s.log) && Boundary(s.log, s.taken) && NoneClosed(s.log, s.taken, s.position)
    && Assembly(s) && History(s)
  }

  lemma InitialInv(s: System)
    requires Initial(s)
    ensures Inv(s)
  {
  }

  // ----- Preservation, one action at a time -----

  /** Filling the next descriptor moves it from the DMA's arc to the filled arc. */
  lemma FillArcs(ring: seq<Descriptor>, log: seq<bv32>, from: nat, w: bv32)
    requires |ring| > 0 && from <= |log| < from + |ring|
    requires Filled(ring, log, from) && DmaOwns(ring, |log|, from + |ring|)
    ensures var slot := Slot(|log|, |ring|);
      var filled := WithStatus(ring, slot, w);
      Filled(filled, log + [w], from) && DmaOwns(filled, |log| + 1, from + |ring|)
  {
    var slot := Slot(|log|, |ring|);
    forall p | from <= p < from + |ring| && p != |log|
      ensures WithStatus(ring, slot, w)[Slot(p, |ring|)] == ring[Slot(p, |ring|)]
    {
      WindowElsewhere(ring, ring[slot].(status := w), from, |log|, p);
    }
  }

  /** Recycling the oldest descriptor moves it to the end of the DMA's arc. */
  lemma RecycleArcs(ring: seq<Descriptor>, log: seq<bv32>, from: nat, w: bv32)
    requires |ring| > 0 && from < |log| <= from + |ring| && Owned(w)
    requires Filled(ring, log, from) && DmaOwns(ring, |log|, from + |ring|)
    ensures var given := WithStatus(ring, Slot(from, |ring|), w);
      Filled(given, log, from + 1) && DmaOwns(given, |log|, from + 1 + |ring|)
  {
    var slot := Slot(from, |ring|);
    forall p | from < p < from + |ring|
      ensures WithStatus(ring, slot, w)[Slot(p, |ring|)] == ring[Slot(p, |ring|)]
    {
      WindowElsewhere(ring, ring[slot].(status := w), from, from, p);
    }
    SlotPeriodic(from, |ring|);
  }

  /** The DMA can only be stopped by a ring it does not own any part of. */
  lemma DmaHasRoom(s: System)
    requires Inv(s) && Owned(s.rx.ring[s.rx.dma].status)
    ensures |s.log| < s.recycled + s.N()
  {
    if |s.log| == s.recycled + s.N() {
      SlotPeriodic(s.recycled, s.N());
      var filled := WordOk(s.log, s.recycled);
    }
  }

  lemma LogOkAppend(log: seq<bv32>, w: bv32)
    requires LogOk(log) && !Owned(w)
    requires First(w) <==> Boundary(log, |log|)
    ensures LogOk(log + [w])
  {
    forall p | 0 <= p < |log| + 1
      ensures WordOk(log + [w], p)
    {
      if p < |log| {
        assert WordOk(log, p);
      }
    }
  }

  lemma FillFrames(buffers: seq<nat>, log: seq<bv32>, w: bv32)
    requires |buffers| > 0
    ensures Frames(buffers, log + [w], |log| + 1) ==
            Frames(buffers, log, |log|) + if Last(w) then [FrameEnding(buffers, log + [w], |log|)] else []
  {
    FramesAppend(buffers, log, w, |log|);
  }

  lemma FillStart(log: seq<bv32>, w: bv32, frameStart: nat)
    requires First(w) <==> Boundary(log, |log|)
    requires !Boundary(log, |log|) ==> frameStart == StartOf(log, |log| - 1)
    ensures StartOf(log + [w], |log|) == if First(w) then |log| else frameStart
  {
    if !First(w) {
      StartOfAppend(log, w, |log| - 1);
    }
  }

  /** A word that closes a frame completes exactly the frame the DMA was filling. */
  lemma FillHistory(s: System, w: bv32)
    requires Ready(s) && s.N() > 0 && s.taken <= |s.log| && History(s)
    requires First(w) <==> Boundary(s.log, |s.log|)
    ensures History(Fill(s, w))
  {
    FillFrames(s.buffers, s.log, w);
    FillStart(s.log, w, s.frameStart);
    FramesAppend(s.buffers, s.log, w, s.taken);
  }

  lemma FillStepArcs(s: System, w: bv32)
    requires Arcs(s) && |s.log| < s.recycled + s.N() && !Owned(w)
    requires Owned(s.rx.ring[s.rx.dma].status)
    ensures Arcs(Fill(s, w))
  {
    var t := Fill(s, w);
    assert t.rx.ring == WithStatus(s.rx.ring, s.rx.dma, w);
    assert t.N() == s.N();
    FillArcs(s.rx.ring, s.log, s.recycled, w);
  }

  lemma FillAssembly(s: System, w: bv32)
    requires Arcs(s) && SameBuffers(s.rx.ring, s.buffers) && Assembly(s)
    requires Boundary(s.log, s.taken) && NoneClosed(s.log, s.taken, s.position)
    ensures var t := Fill(s, w);
      && SameBuffers(t.rx.ring, t.buffers) && Boundary(t.log, t.taken)
      && NoneClosed(t.log, t.taken, t.position) && Assembly(t)
  {
  }

  lemma DmaFillInv(s: System, w: bv32)
    requires Inv(s) && Enabled(s, DmaFill(w))
    ensures Inv(Fill(s, w))
  {
    DmaHasRoom(s);
    FillStepArcs(s, w);
    LogOkAppend(s.log, w);
    FillAssembly(s, w);
    FillHistory(s, w);
  }

  /** What a poll sees: the next unread word, or a descriptor of the DMA. */
  ghost predicate Sees(s: System, w: bv32)
  {
    if s.position < |s.log| then w == s.log[s.position] && WordOk(s.log, s.position) else Owned(w)
  }

  lemma PolledWord(s: System)
    requires Arcs(s) && LogOk(s.log) && s.position < s.recycled + s.N()
    ensures Sees(s, s.rx.ring[s.rx.get].status)
  {
  }

  lemma PollArcs(s: System)
    requires Arcs(s) && Sees(s, s.rx.ring[s.rx.get].status)
    ensures Arcs(PollStep(s))
  {
    var t := PollStep(s);
    assert t.position > s.position ==> Slot(t.position, s.N()) == Next(Slot(s.position, s.N()), s.N());
  }

  /** A first segment can only be met where no frame is open, a middle one only
      inside an open frame; the count and FS_RxDesc follow. */
  lemma PollAssembly(s: System)
    requires Valid(s.rx) && s.taken <= s.position <= |s.log| && s.position < s.taken + TWO32 - 1
    requires s.rx.get == Slot(s.position, s.N())
    requires Sees(s, s.rx.ring[s.rx.get].status) && s.phase == Polling && Assembly(s)
    requires Boundary(s.log, s.taken) && NoneClosed(s.log, s.taken, s.position)
    ensures var t := PollStep(s);
      t.position <= |t.log| && NoneClosed(t.log, t.taken, t.position) && Assembly(t)
  {
    if s.taken < s.position {
      assert !Boundary(s.log, s.position);
    }
  }

  /** An action that keeps the log and the histories keeps the whole invariant
      once the arcs and the assembly are known to hold. */
  lemma SameLogInv(s: System, t: System)
    requires Inv(s) && Arcs(t) && SameBuffers(t.rx.ring, t.buffers)
    requires t.log == s.log && t.buffers == s.buffers && t.frameStart == s.frameStart
    requires t.completed == s.completed && t.delivered == s.delivered && t.taken == s.taken
    requires NoneClosed(t.log, t.taken, t.position) && Assembly(t)
    ensures Inv(t)
  {
  }

  lemma PollOnceInv(s: System)
    requires Inv(s) && s.phase == Polling && s.position < s.recycled + s.N()
    ensures Inv(PollStep(s))
  {
    PolledWord(s);
    PollArcs(s);
    PollAssembly(s);
    SameLogInv(s, PollStep(s));
  }

  lemma ScanOnceInv(s: System)
    requires Inv(s) && s.phase == Polling && s.position < s.recycled + s.N()
    ensures Inv(ScanStep(s))
  {
    PollOnceInv(s);
    if OpensFrame(s.rx.ring[s.rx.get].status) {
      LsIsFree(PollStep(s), s.rx.ls);
    }
  }

  /** While a frame found by scanning is open, LS_RxDesc may hold anything. */
  lemma LsIsFree(s: System, x: Option<nat>)
    requires Inv(s) && s.phase == Polling
    ensures Inv(s.(rx := s.rx.(ls := x), polled := false))
  {
    var t := s.(rx := s.rx.(ls := x), polled := false);
    assert Arcs(t) && Assembly(t);
    SameLogInv(s, t);
  }

  lemma ReadArcs(s: System)
    requires Arcs(s) && s.position < |s.log|
    ensures Arcs(ReadStep(s))
  {
    assert Slot(s.position + 1, s.N()) == Next(Slot(s.position, s.N()), s.N());
  }

  /** The frame read is the one closed at `position`. */
  lemma ReadIsNext(s: System)
    requires Arcs(s) && SameBuffers(s.rx.ring, s.buffers)
    requires s.phase == FrameFound && Assembly(s)
    requires Boundary(s.log, s.taken) && NoneClosed(s.log, s.taken, s.position)
    ensures Received(Read(s.rx).1, s.rx.segCount) == FrameEnding(s.buffers, s.log, s.position)
  {
    StartOfIs(s.log, s.taken, s.position);
    assert s.rx.ring[Slot(s.position, s.N())].status == s.log[s.position];
  }

  /** Reading delivers the next frame in order. */
  lemma ReadHistory(s: System)
    requires |s.buffers| > 0 && s.taken <= s.position < |s.log| && Valid(s.rx) && History(s)
    requires Last(s.log[s.position]) && NoneClosed(s.log, s.taken, s.position)
    requires Received(Read(s.rx).1, s.rx.segCount) == FrameEnding(s.buffers, s.log, s.position)
    ensures History(ReadStep(s))
  {
    FramesTake(s.buffers, s.log, s.taken, s.position);
  }

  lemma ReadFrameInv(s: System)
    requires Inv(s) && s.phase == FrameFound
    ensures Inv(ReadStep(s))
  {
    ReadArcs(s);
    ReadIsNext(s);
    ReadHistory(s);
  }

  lemma RecycleStepArcs(s: System)
    requires Arcs(s) && s.recycled < s.taken
    ensures Arcs(RecycleStep(s))
  {
    var slot := Slot(s.recycled, s.N());
    var w := WithOwn(s.rx.ring[slot].status);
    assert Owned(w);
    RecycleArcs(s.rx.ring, s.log, s.recycled, w);
    assert RecycleStep(s).rx.ring == WithStatus(s.rx.ring, slot, w);
  }

  lemma RecycleInv(s: System)
    requires Inv(s) && s.recycled < s.taken
    ensures Inv(RecycleStep(s))
  {
    RecycleStepArcs(s);
    assert SameBuffers(RecycleStep(s).rx.ring, s.buffers);
    SameLogInv(s, RecycleStep(s));
  }

  lemma StepInv(s: System, a: Action)
    requires Inv(s) && Enabled(s, a)
    ensures Inv(Step(s, a))
  {
    match a
    case DmaFill(w) => DmaFillInv(s, w);
    case PollOnce => PollOnceInv(s);
    case ScanOnce => ScanOnceInv(s);
    case ReadFrame => ReadFrameInv(s);
    case ClearCount =>
    case Recycle => RecycleInv(s);
  }

  // ----- Runs -----

  /** Every action is enabled when its turn comes. */
  ghost predicate Legal(s: System, actions: seq<Action>)
    decreases |actions|
  {
    actions == [] ||
    (&& Valid(s.rx) && |s.buffers| == s.N() && Enabled(s, actions[0])
     && Legal(Step(s, actions[0]), actions[1..]))
  }

  ghost function Run(s: System, actions: seq<Action>): System
    requires Legal(s, actions)
    decreases |actions|
  {
    if actions == [] then s else Run(Step(s, actions[0]), actions[1..])
  }

  lemma {:induction false} RunInv(s: System, actions: seq<Action>)
    requires Inv(s) && Legal(s, actions)
    ensures Inv(Run(s, actions))
    decreases |actions|
  {
    if actions != [] {
      StepInv(s, actions[0]);
      RunInv(Step(s, actions[0]), actions[1..]);
    }
  }

  /** The k-th descriptor after FS_RxDesc is released and correctly marked. */
  ghost predicate SegmentOk(rx: RxState, k: nat)
    requires Valid(rx) && rx.fs.Some?
  {
    var w := rx.ring[Walk(rx.ring, rx.fs.value, k)].status;
    !Owned(w) && (First(w) <==> k == 0) && (Last(w) <==> k == rx.segCount - 1)
  }

  /** From FS_RxDesc, following the chain, segCount released descriptors lead to
      LS_RxDesc; only the first has FDES and only the last has LDES. */
  ghost predicate WholeFrame(rx: RxState)
    requires Valid(rx)
  {
    && rx.fs.Some? && rx.segCount >= 1
    && rx.ls == Some(Walk(rx.ring, rx.fs.value, rx.segCount - 1)) && rx.ls == Some(rx.get)
    && forall k :: 0 <= k < rx.segCount ==> SegmentOk(rx, k)
  }

  lemma FoundSegment(s: System, k: nat)
    requires Arcs(s) && LogOk(s.log) && s.phase == FrameFound && Assembly(s) && k < s.rx.segCount
    requires Boundary(s.log, s.taken) && NoneClosed(s.log, s.taken, s.position)
    ensures SegmentOk(s.rx, k)
  {
    var p := s.taken + k;
    WalkIsSlot(s.rx.ring, s.taken, k);
    assert WordOk(s.log, p);
    assert s.rx.ring[Slot(p, s.N())].status == s.log[p];
  }

  lemma FoundFrameIsWhole(s: System)
    requires Inv(s) && s.phase == FrameFound
    ensures WholeFrame(s.rx)
  {
    WalkIsSlot(s.rx.ring, s.taken, s.rx.segCount - 1);
    forall k | 0 <= k < s.rx.segCount
      ensures SegmentOk(s.rx, k)
    {
      FoundSegment(s, k);
    }
  }

  /** The frame a poll has reported is the oldest one not yet delivered. */
  ghost predicate FoundIsNext(s: System)
    requires Valid(s.rx)
  {
    && |s.delivered| < |s.completed|
    && Received(Read(s.rx).1, s.rx.segCount) == s.completed[|s.delivered|]
  }

  lemma FoundFrameIsNext(s: System)
    requires Inv(s) && s.phase == FrameFound
    ensures FoundIsNext(s)
  {
    ReadIsNext(s);
    FramesIndex(s.buffers, s.log, s.taken, s.position);
  }

  /** A frame is open: the record says where it began and how many segments it has so far,
      and, if a poll took the first one, that its last one is not known. */
  ghost predicate OpenFrame(s: System)
  {
    && s.rx.fs.Some? && s.N() > 0 && s.rx.fs.value == Slot(s.taken, s.N())
    && s.position == s.taken + s.rx.segCount && s.rx.get == Slot(s.position, s.N())
    && (s.polled ==> s.rx.ls == None)
  }

  /** Frames are delivered exactly once and in the order the DMA completed them:
      after any run the delivered frames are the oldest completed ones, none is
      missing once the driver has scanned everything the DMA filled, and whenever
      a poll has reported a frame the record describes exactly that frame. */
  lemma FramesExactlyOnceInOrder(s: System, actions: seq<Action>)
    requires Initial(s) && Legal(s, actions)
    ensures var t := Run(s, actions);
      && Valid(t.rx)
      && t.delivered <= t.completed
      && (t.position == |t.log| ==> t.delivered == t.completed)
      && (t.phase == FrameFound ==> WholeFrame(t.rx) && FoundIsNext(t))
      && (t.phase == Polling && t.rx.segCount > 0 ==> OpenFrame(t))
  {
    InitialInv(s);
    RunInv(s, actions);
    var t := Run(s, actions);
    FramesPrefix(t.buffers, t.log, t.taken, |t.log|);
    if t.position == |t.log| {
      FramesUnchanged(t.buffers, t.log, t.taken, |t.log|);
    }
    if t.phase == FrameFound {
      FoundFrameIsWhole(t);
      FoundFrameIsNext(t);
    }
  }

  /** The guard on polling is exact: without it the poll would look at a descriptor
      the caller still holds, or at the start of the very frame it is assembling. */
  lemma PollGuardIsExact(s: System)
    requires Inv(s) && s.phase != FrameFound
    ensures s.position < s.recycled + s.N() <==> Sees(s, s.rx.ring[s.rx.get].status)
  {
    if s.position < s.recycled + s.N() {
      PolledWord(s);
    } else {
      SlotPeriodic(s.recycled, s.N());
      assert WordOk(s.log, s.recycled);
    }
  }

  /** With a caller that has recycled every frame it took, a poll is safe exactly
      while the frame being assembled leaves one descriptor of the ring free. */
  lemma PollSafeAfterRecycling(s: System)
    requires Inv(s) && s.phase == Polling && s.recycled == s.taken
    ensures Enabled(s, PollOnce) <==> s.rx.segCount < s.N()
  {
  }

  // ----- Calls that are not atomic -----

  lemma {:induction false} RunConcat(s: System, a: seq<Action>, b: seq<Action>)
    requires Legal(s, a) && Legal(Run(s, a), b)
    ensures Legal(s, a + b) && Run(s, a + b) == Run(Run(s, a), b)
    decreases |a|
  {
    if a == [] {
      assert a + b == b;
    } else {
      assert (a + b)[0] == a[0] && (a + b)[1..] == a[1..] + b;
      RunConcat(Step(s, a[0]), a[1..], b);
    }
  }

  /** Whether the DMA can perform this write. */
  predicate Takes(rx: RxState, w: bv32)
    requires rx.dma < |rx.ring|
  {
    Owned(rx.ring[rx.dma].status) && !Owned(w)
  }

  /** The DMA marks exactly the first segment of each frame with FDES. */
  ghost predicate WellMarked(s: System, ws: seq<bv32>)
    requires Ready(s)
    decreases |ws|
  {
    ws == [] ||
    if Takes(s.rx, ws[0])
    then (First(ws[0]) <==> Boundary(s.log, |s.log|)) && WellMarked(Fill(s, ws[0]), ws[1..])
    else WellMarked(s, ws[1..])
  }

  /** The fills that a sequence of DMA writes amounts to. */
  ghost function Fills(s: System, ws: seq<bv32>): seq<Action>
    requires Ready(s)
    decreases |ws|
  {
    if ws == [] then []
    else if Takes(s.rx, ws[0]) then [DmaFill(ws[0])] + Fills(Fill(s, ws[0]), ws[1..])
    else Fills(s, ws[1..])
  }

  /** What only the driver and its caller change. */
  ghost predicate SameCaller(s: System, t: System)
  {
    && s.recycled == t.recycled && s.taken == t.taken && s.position == t.position
    && s.phase == t.phase && s.delivered == t.delivered && s.N() == t.N()
  }

  lemma {:induction false} FillsAreRun(s: System, ws: seq<bv32>)
    requires Ready(s) && WellMarked(s, ws)
    ensures Legal(s, Fills(s, ws))
    ensures var t := Run(s, Fills(s, ws)); t.rx == DmaRun(s.rx, ws) && SameCaller(s, t) && Ready(t)
    decreases |ws|
  {
    if ws != [] {
      if Takes(s.rx, ws[0]) {
        var rest := Fills(Fill(s, ws[0]), ws[1..]);
        FillsAreRun(Fill(s, ws[0]), ws[1..]);
        assert ([DmaFill(ws[0])] + rest)[1..] == rest;
        assert Step(s, DmaFill(ws[0])) == Fill(s, ws[0]);
      } else {
        FillsAreRun(s, ws[1..]);
      }
    }
  }

  /** A poll with the DMA acting between its status reads is a run in the sense
      above: DMA fills, one atomic poll, DMA fills. So what holds over every run
      holds over every run of calls that are not atomic. */
  lemma InterleavedPollIsRun(s: System, env: seq<seq<bv32>>, at: nat, used: nat)
    requires Inv(s) && Enabled(s, PollOnce) && at <= used <= |env|
    requires WellMarked(s, Flatten(env[..at]))
    requires var t := Run(s, LegalFills(s, Flatten(env[..at])));
      Ready(t) && WellMarked(PollStep(t), Flatten(env[at..used]))
    ensures var before := LegalFills(s, Flatten(env[..at]));
      var polled := PollStep(Run(s, before));
      var actions := before + [PollOnce] + Fills(polled, Flatten(env[at..used]));
      && Legal(s, actions) && Run(s, actions).rx == PollAt(s.rx, env, at, used).0
      && (Run(s, actions).phase == FrameFound <==> PollAt(s.rx, env, at, used).1 == 1)
  {
    var first, last := Flatten(env[..at]), Flatten(env[at..used]);
    FillsAreRun(s, first);
    DmaRunsFlat(s.rx, env[..at]);
    var before := Fills(s, first);
    var t := Run(s, before);
    var polled := PollStep(t);
    FillsAreRun(polled, last);
    DmaRunsFlat(polled.rx, env[at..used]);
    PollIsRun(t);
    RunConcat(s, before, [PollOnce]);
    RunConcat(s, before + [PollOnce], Fills(polled, last));
  }

  lemma PollIsRun(t: System)
    requires Ready(t) && Enabled(t, PollOnce)
    ensures Legal(t, [PollOnce]) && Run(t, [PollOnce]) == PollStep(t)
  {
    assert [PollOnce][1..] == [];
    assert Step(t, PollOnce) == PollStep(t);
  }

  /** The fills of a well-marked sequence, which form a legal run. */
  ghost function LegalFills(s: System, ws: seq<bv32>): (actions: seq<Action>)
    requires Ready(s) && WellMarked(s, ws)
    ensures Legal(s, actions)
  {
    FillsAreRun(s, ws);
    Fills(s, ws)
  }

  // ----- The interrupt scan -----

  /** The state after a batch of DMA writes. */
  ghost function AfterFills(s: System, ws: seq<bv32>): (t: System)
    requires Ready(s) && WellMarked(s, ws)
    ensures t.rx == DmaRun(s.rx, ws) && SameCaller(s, t) && Ready(t)
  {
    FillsAreRun(s, ws);
    Run(s, Fills(s, ws))
  }

  /** Whether the scan makes a decision in this state, with `left` batches left. */
  predicate Decides(rx: RxState, left: nat)
    requires rx.get < |rx.ring|
  {
    left > 1 && !Owned(rx.ring[rx.get].status)
  }

  /** The DMA marks its segments well, and every decision of the scan meets the guard
      on polling. */
  ghost predicate ScanGuarded(s: System, batches: seq<seq<bv32>>)
    requires Ready(s)
    decreases |batches|
  {
    && batches != [] && WellMarked(s, batches[0])
    && var now := AfterFills(s, batches[0]);
       Decides(now.rx, |batches|) ==>
         Enabled(now, ScanOnce) && (ScanPoll(now.rx).1 != 1 ==> ScanGuarded(ScanStep(now), batches[1..]))
  }

  /** The actions a scan amounts to: fills and decisions, and the read of the frame found. */
  ghost function ScanActions(s: System, batches: seq<seq<bv32>>): seq<Action>
    requires Ready(s) && ScanGuarded(s, batches)
    decreases |batches|
  {
    var now := AfterFills(s, batches[0]);
    Fills(s, batches[0]) +
    if !Decides(now.rx, |batches|) then []
    else if ScanPoll(now.rx).1 == 1 then [ScanOnce, ReadFrame]
    else [ScanOnce] + ScanActions(ScanStep(now), batches[1..])
  }

  /** What the caller was given after a scan returned `frame`. */
  ghost function Given(delivered: seq<Received>, frame: Frame, segCount: nat): seq<Received>
  {
    if frame.descriptor.Some? then delivered + [Received(frame, segCount)] else delivered
  }

  /** rx and `delivered` are the outcome of a scan. */
  ghost predicate ScanOutcome(before: seq<Received>, scan: (RxState, Option<Frame>), rx: RxState, delivered: seq<Received>)
  {
    && rx == scan.0
    && match scan.1
       case None => delivered == before
       case Some(read) =>
         && rx.segCount != 0 && read.descriptor.Some?
         && delivered == before + [Received(read, rx.segCount)]
  }

  lemma FillsThen(s: System, ws: seq<bv32>, rest: seq<Action>)
    requires Ready(s) && WellMarked(s, ws) && Legal(AfterFills(s, ws), rest)
    ensures Legal(s, Fills(s, ws) + rest)
    ensures Run(s, Fills(s, ws) + rest) == Run(AfterFills(s, ws), rest)
  {
    FillsAreRun(s, ws);
    RunConcat(s, Fills(s, ws), rest);
  }

  lemma FillsKeepInv(s: System, ws: seq<bv32>)
    requires Inv(s) && WellMarked(s, ws)
    ensures Inv(AfterFills(s, ws))
  {
    FillsAreRun(s, ws);
    RunInv(s, Fills(s, ws));
  }

  lemma ConsIsRun(s: System, a: Action, rest: seq<Action>)
    requires Ready(s) && Enabled(s, a) && Legal(Step(s, a), rest)
    ensures Legal(s, [a] + rest) && Run(s, [a] + rest) == Run(Step(s, a), rest)
  {
    assert ([a] + rest)[1..] == rest;
  }

  /** A frame found has at least one segment, the first of which is recorded. */
  lemma FoundHasSegments(s: System)
    requires Inv(s) && s.phase == FrameFound
    ensures s.rx.segCount != 0 && s.rx.fs.Some?
  {
  }

  lemma CloseIsRun(s: System)
    requires Inv(s) && Enabled(s, ScanOnce) && ScanPoll(s.rx).1 == 1
    ensures Legal(s, [ScanOnce, ReadFrame])
    ensures var t := Run(s, [ScanOnce, ReadFrame]);
      var scanned := ScanPoll(s.rx).0;
      ScanOutcome(s.delivered, (Read(scanned).0, Some(Read(scanned).1)), t.rx, t.delivered)
  {
    var found := ScanStep(s);
    ScanOnceInv(s);
    FoundHasSegments(found);
    assert Legal(ReadStep(found), []);
    ConsIsRun(found, ReadFrame, []);
    ConsIsRun(s, ScanOnce, [ReadFrame]);
    assert [ScanOnce] + [ReadFrame] == [ScanOnce, ReadFrame];
    assert [ReadFrame] + [] == [ReadFrame];
  }

  /** An interrupt scan is a run: fills and decisions, and the read of the frame found,
      which is thereby delivered. */
  lemma {:induction false} ScanIsRun(s: System, batches: seq<seq<bv32>>)
    requires Inv(s) && ScanGuarded(s, batches)
    ensures Legal(s, ScanActions(s, batches))
    ensures var t := Run(s, ScanActions(s, batches));
      ScanOutcome(s.delivered, ScanThenRead(s.rx, batches), t.rx, t.delivered)
    decreases |batches|
  {
    var now := AfterFills(s, batches[0]);
    FillsKeepInv(s, batches[0]);
    if !Decides(now.rx, |batches|) {
      FillsThen(s, batches[0], []);
    } else if ScanPoll(now.rx).1 == 1 {
      CloseIsRun(now);
      FillsThen(s, batches[0], [ScanOnce, ReadFrame]);
    } else {
      ScanOnceInv(now);
      ScanIsRun(ScanStep(now), batches[1..]);
      var rest := ScanActions(ScanStep(now), batches[1..]);
      ConsIsRun(now, ScanOnce, rest);
      FillsThen(s, batches[0], [ScanOnce] + rest);
    }
  }

  /** The state after a scan. */
  ghost function AfterScan(s: System, batches: seq<seq<bv32>>): (t: System)
    requires Inv(s) && ScanGuarded(s, batches)
    ensures Ready(t) && ScanOutcome(s.delivered, ScanThenRead(s.rx, batches), t.rx, t.delivered)
  {
    ScanIsRun(s, batches);
    RunInv(s, ScanActions(s, batches));
    Run(s, ScanActions(s, batches))
  }

  /** The frame a scan returns is the one delivered. */
  lemma ScanDelivers(before: seq<Received>, rx: RxState, delivered: seq<Received>,
                     s: RxState, batches: seq<seq<bv32>>, tail: seq<bv32>, t: RxState, frame: Frame)
    requires Valid(s) && |batches| > 0 && ScanOutcome(before, ScanThenRead(s, batches), rx, delivered)
    requires IsScan(s, batches, tail, t, frame)
    ensures t == DmaRun(rx, tail) && delivered == Given(before, frame, t.segCount)
  {
  }

  /** A call of ETH_ReadReceivedFrameInterrupt with the DMA acting between its status
      reads is a run in the sense above, so what holds over every run holds over runs
      that use it, and the frame it returns is the one delivered. */
  lemma InterruptScanIsRun(s: System, batches: seq<seq<bv32>>, tail: seq<bv32>, t: RxState, frame: Frame)
    requires Inv(s) && ScanGuarded(s, batches) && IsScan(s.rx, batches, tail, t, frame)
    requires WellMarked(AfterScan(s, batches), tail)
    ensures var actions := ScanActions(s, batches) + Fills(AfterScan(s, batches), tail);
      && Legal(s, actions) && Run(s, actions).rx == t
      && Run(s, actions).delivered == Given(s.delivered, frame, t.segCount)
  {
    var scanned := AfterScan(s, batches);
    ScanIsRun(s, batches);
    ScanDelivers(s.delivered, scanned.rx, scanned.delivered, s.rx, batches, tail, t, frame);
    FillsAreRun(scanned, tail);
    RunConcat(s, ScanActions(s, batches), Fills(scanned, tail));
  }
}
