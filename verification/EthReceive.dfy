/** The receive side of the Ethernet driver: polling, frame read-out and the
    interrupt-time scan, each interleaved with the DMA engine. */
module EthReceive {
  import opened Words
  import opened EthDescriptors

  datatype Option<T> = None | Some(value: T)

  /** ETH_Frame_T. */
  datatype Frame = Frame(length: nat, buffer: nat, descriptor: Option<nat>)

  /** The descriptor ring with the DMA's cursor (`dma`), the driver's read
      pointer DMARxDescToGet (`get`) and the DMARxFraminfos record. */
  datatype RxState = RxState(
    ring: seq<Descriptor>,
    dma: nat,
    get: nat,
    fs: Option<nat>,
    ls: Option<nat>,
    segCount: nat)

  /** Pointers stay inside the ring. */
  ghost predicate Valid(s: RxState)
  {
    && Chained(s.ring)
    && s.dma < |s.ring| && s.get < |s.ring|
    && s.segCount < TWO32
    && (s.fs.Some? ==> s.fs.value < |s.ring|)
  }

  /** 32-bit increment. */
  function Inc32(x: nat): nat { if x + 1 == TWO32 then 0 else x + 1 }

  lemma Inc32Wraps(x: nat)
    requires x < TWO32
    ensures Inc32(x) == (x + 1) % TWO32
  {
  }

  // ----- The DMA engine -----

  /** What the driver alone writes. */
  ghost predicate SameDriver(s: RxState, t: RxState)
  {
    s.get == t.get && s.fs == t.fs && s.ls == t.ls && s.segCount == t.segCount
  }

  /** One DMA write-back: the status word of an OWN descriptor is replaced by
      one that releases it, and the DMA moves on. Otherwise nothing happens. */
  function DmaWrite(s: RxState, w: bv32): (r: RxState)
    requires Valid(s)
    ensures Valid(r) && SameDriver(s, r) && |r.ring| == |s.ring|
  {
    if Owned(s.ring[s.dma].status) && !Owned(w) then
      s.(ring := WithStatus(s.ring, s.dma, w), dma := s.ring[s.dma].next)
    else s
  }

  function DmaRun(s: RxState, ws: seq<bv32>): (r: RxState)
    requires Valid(s)
    ensures Valid(r) && SameDriver(s, r) && |r.ring| == |s.ring|
    decreases |ws|
  {
    if ws == [] then s else DmaRun(DmaWrite(s, ws[0]), ws[1..])
  }

  /** One batch of DMA writes after another. */
  function DmaRuns(s: RxState, batches: seq<seq<bv32>>): (r: RxState)
    requires Valid(s)
    ensures Valid(r) && SameDriver(s, r) && |r.ring| == |s.ring|
    decreases |batches|
  {
    if batches == [] then s else DmaRuns(DmaRun(s, batches[0]), batches[1..])
  }

  lemma {:induction false} DmaRunsSplit(s: RxState, batches: seq<seq<bv32>>, k: nat)
    requires Valid(s) && k <= |batches|
    ensures DmaRuns(s, batches) == DmaRuns(DmaRuns(s, batches[..k]), batches[k..])
    decreases k
  {
    if k == 0 {
      assert batches[0..] == batches;
    } else {
      DmaRunsSplit(DmaRun(s, batches[0]), batches[1..], k - 1);
      assert batches[..k][1..] == batches[1..][..k - 1];
      assert batches[k..] == batches[1..][k - 1..];
    }
  }

  function Flatten(batches: seq<seq<bv32>>): seq<bv32>
    decreases |batches|
  {
    if batches == [] then [] else batches[0] + Flatten(batches[1..])
  }

  lemma {:induction false} DmaRunConcat(s: RxState, v: seq<bv32>, w: seq<bv32>)
    requires Valid(s)
    ensures DmaRun(s, v + w) == DmaRun(DmaRun(s, v), w)
    decreases |v|
  {
    if v == [] {
      assert v + w == w;
    } else {
      DmaRunConcat(DmaWrite(s, v[0]), v[1..], w);
      assert (v + w)[1..] == v[1..] + w;
    }
  }

  /** Batches are only a way of cutting up the sequence of writes. */
  lemma {:induction false} DmaRunsFlat(s: RxState, batches: seq<seq<bv32>>)
    requires Valid(s)
    ensures DmaRuns(s, batches) == DmaRun(s, Flatten(batches))
    decreases |batches|
  {
    if batches != [] {
      DmaRunConcat(s, batches[0], Flatten(batches[1..]));
      DmaRunsFlat(DmaRun(s, batches[0]), batches[1..]);
    }
  }

  /** Appending one batch runs it last. */
  lemma DmaRunsSnoc(s: RxState, batches: seq<seq<bv32>>, k: nat)
    requires Valid(s) && k < |batches|
    ensures DmaRuns(s, batches[..k + 1]) == DmaRun(DmaRuns(s, batches[..k]), batches[k])
  {
    DmaRunsSplit(s, batches[..k + 1], k);
    assert batches[..k + 1][..k] == batches[..k];
    assert batches[..k + 1][k..] == [batches[k]];
    assert DmaRuns(DmaRuns(s, batches[..k]), [batches[k]]) == DmaRun(DmaRuns(s, batches[..k]), batches[k]);
  }

  // ----- Atomic specifications -----

  /** The three-way decision of ETH_CheckReceivedFrame on a single status word. */
  function Poll(s: RxState): (r: (RxState, nat))
    requires Valid(s)
    ensures Valid(r.0) && r.0.ring == s.ring && r.0.dma == s.dma
  {
    var w := s.ring[s.get].status;
    if Owned(w) then (s, 0)
    else if Last(w) then
      var count := Inc32(s.segCount);
      (s.(segCount := count,
          fs := if count == 1 then Some(s.get) else s.fs,
          ls := Some(s.get)), 1)
    else if First(w) then
      (s.(fs := Some(s.get), ls := None, segCount := 1, get := s.ring[s.get].next), 0)
    else
      (s.(segCount := Inc32(s.segCount), get := s.ring[s.get].next), 0)
  }

  /** The buffer address found through a descriptor pointer (0 through a null one). */
  function BufferOf(ring: seq<Descriptor>, p: Option<nat>): nat
    requires p.Some? ==> p.value < |ring|
  {
    if p.Some? then ring[p.value].buffer else 0
  }

  /** The frame check sequence, counted by the length field but not delivered. */
  const FCS_BYTES: nat := 4

  /** The length field less the check bytes, in 32-bit arithmetic. */
  function PayloadLength(w: bv32): nat
  {
    var field := FrameLengthField(w);
    if field >= FCS_BYTES then field - FCS_BYTES else field + TWO32 - FCS_BYTES
  }

  /** The length delivered is the field less 4 exactly when the field is at least 4;
      otherwise it wraps to a value no frame can have. */
  lemma PayloadIsExact(w: bv32)
    ensures PayloadLength(w) + FCS_BYTES == FrameLengthField(w) <==> FrameLengthField(w) >= FCS_BYTES
    ensures FrameLengthField(w) < FCS_BYTES ==> PayloadLength(w) >= TWO32 - FCS_BYTES
  {
  }

  /** A frame whose status word holds `length` in bits 16 to 29, check bytes included, is
      delivered as that less 4. */
  lemma PayloadOf(flags: bv32, length: bv32)
    requires flags & 0x3FFF_0000 == 0 && 4 <= length < 0x4000
    ensures PayloadLength(flags | (length << 16)) == length as nat - 4
  {
    LengthReadsBack(flags, length);
    assert length as nat >= 4;
  }

  /** ETH_ReadReceivedFrame. */
  function Read(s: RxState): (r: (RxState, Frame))
    requires Valid(s)
    ensures Valid(r.0)
  {
    (s.(get := s.ring[s.get].next),
     Frame(PayloadLength(s.ring[s.get].status), BufferOf(s.ring, s.fs), s.fs))
  }

  /** ETH_ConfigDMARxDescOwnBit: descriptor i goes back to the DMA. */
  function SetOwn(s: RxState, i: nat): (r: RxState)
    requires Valid(s) && i < |s.ring|
    ensures Valid(r)
  {
    s.(ring := WithStatus(s.ring, i, WithOwn(s.ring[i].status)))
  }

  /** Word w is v with the OWN bit, the highest one, set. */
  predicate OwnAdded(v: bv32, w: bv32)
  {
    w & 0x8000_0000 == 0x8000_0000 && w & 0x7FFF_FFFF == v & 0x7FFF_FFFF
  }

  function WithOwn(v: bv32): (w: bv32)
    ensures OwnAdded(v, w)
  {
    v | OWN
  }

  const RXBUFNB: nat := 5
  const NO_FRAME: Frame := Frame(0, 0, None)

  /** Reading a frame by polling: after each batch of DMA writes one poll, until a
      poll finds a whole frame (which is then read), the descriptor is still the
      DMA's, or only one batch is left. */
  function PollThenRead(s: RxState, batches: seq<seq<bv32>>): (r: (RxState, Option<Frame>))
    requires Valid(s) && |batches| > 0
    ensures Valid(r.0)
    decreases |batches|
  {
    var now := DmaRun(s, batches[0]);
    if |batches| == 1 || Owned(now.ring[now.get].status) then (now, None)
    else
      var (polled, found) := Poll(now);
      if found == 1 then (Read(polled).0, Some(Read(polled).1)) else PollThenRead(polled, batches[1..])
  }

  /** The decision of one iteration of ETH_ReadReceivedFrameInterrupt: that of a poll,
      except that LS_RxDesc is left alone while a frame is open. */
  function ScanPoll(s: RxState): (r: (RxState, nat))
    requires Valid(s)
    ensures Valid(r.0) && r.0.ring == s.ring && r.0.dma == s.dma
  {
    var (polled, found) := Poll(s);
    (if found == 1 then polled else polled.(ls := s.ls), found)
  }

  /** The interrupt scan: one decision after each batch of DMA writes. */
  function ScanThenRead(s: RxState, batches: seq<seq<bv32>>): (r: (RxState, Option<Frame>))
    requires Valid(s) && |batches| > 0
    ensures Valid(r.0)
    decreases |batches|
  {
    var now := DmaRun(s, batches[0]);
    if |batches| == 1 || Owned(now.ring[now.get].status) then (now, None)
    else
      var (scanned, found) := ScanPoll(now);
      if found == 1 then (Read(scanned).0, Some(Read(scanned).1)) else ScanThenRead(scanned, batches[1..])
  }

  // ----- Interference -----

  /** DMA activity changes no driver variable, no address and no link, and never
      touches a descriptor the CPU already owns. */
  lemma {:induction false} DmaRunFrame(s: RxState, ws: seq<bv32>, i: nat)
    requires Valid(s) && i < |s.ring|
    ensures DmaRun(s, ws).ring[i].next == s.ring[i].next
    ensures DmaRun(s, ws).ring[i].buffer == s.ring[i].buffer
    ensures !Owned(s.ring[i].status) ==> DmaRun(s, ws).ring[i] == s.ring[i]
    decreases |ws|
  {
    if ws != [] {
      DmaRunFrame(DmaWrite(s, ws[0]), ws[1..], i);
    }
  }

  /** DMA activity depends only on the ring and the DMA cursor. */
  lemma {:induction false} DmaRunIgnoresDriver(s: RxState, t: RxState, ws: seq<bv32>)
    requires Valid(s) && Valid(t) && s.ring == t.ring && s.dma == t.dma
    ensures DmaRun(s, ws).ring == DmaRun(t, ws).ring && DmaRun(s, ws).dma == DmaRun(t, ws).dma
    decreases |ws|
  {
    if ws != [] {
      DmaRunIgnoresDriver(DmaWrite(s, ws[0]), DmaWrite(t, ws[0]), ws[1..]);
    }
  }

  /** Once the polled descriptor is released, polling commutes with the DMA. */
  lemma PollCommutes(s: RxState, ws: seq<bv32>)
    requires Valid(s) && !Owned(s.ring[s.get].status)
    ensures !Owned(DmaRun(s, ws).ring[s.get].status)
    ensures Poll(DmaRun(s, ws)) == (DmaRun(Poll(s).0, ws), Poll(s).1)
  {
    DmaRunFrame(s, ws, s.get);
    DmaRunFrame(Poll(s).0, ws, s.get);
    DmaRunIgnoresDriver(s, Poll(s).0, ws);
  }

  /** The state after the first k batches. */
  ghost function At(s: RxState, env: seq<seq<bv32>>, k: nat): (r: RxState)
    requires Valid(s) && k <= |env|
    ensures Valid(r) && SameDriver(s, r) && |r.ring| == |s.ring|
  {
    DmaRuns(s, env[..k])
  }

  /** A call taking effect at instant `at` of `used`: DMA steps, the atomic
      decision, the remaining DMA steps. */
  ghost function PollAt(s: RxState, env: seq<seq<bv32>>, at: nat, used: nat): (r: (RxState, nat))
    requires Valid(s) && at <= used <= |env|
  {
    var decision := Poll(At(s, env, at));
    (DmaRuns(decision.0, env[at..used]), decision.1)
  }

  /** One more batch after the call runs last. */
  lemma PollAtSnoc(s: RxState, env: seq<seq<bv32>>, at: nat, used: nat)
    requires Valid(s) && at < used <= |env|
    ensures PollAt(s, env, at, used) ==
            (DmaRun(PollAt(s, env, at, used - 1).0, env[used - 1]), PollAt(s, env, at, used - 1).1)
  {
    var decided := Poll(At(s, env, at)).0;
    var rest := env[at..used];
    DmaRunsSnoc(decided, rest, used - 1 - at);
    assert rest[..used - 1 - at] == env[at..used - 1];
    assert rest[..used - 1 - at + 1] == rest;
  }

  /** The status word of the polled descriptor after the first k batches. */
  ghost function Word(s: RxState, env: seq<seq<bv32>>, k: nat): bv32
    requires Valid(s) && k <= |env|
  {
    At(s, env, k).ring[s.get].status
  }

  /** From the instant the polled descriptor is released, its status is fixed. */
  lemma {:induction false} WordStable(s: RxState, env: seq<seq<bv32>>, at: nat, used: nat)
    requires Valid(s) && at <= used <= |env|
    requires !Owned(Word(s, env, at))
    ensures Word(s, env, used) == Word(s, env, at)
    decreases used
  {
    if at < used {
      WordStable(s, env, at, used - 1);
      DmaRunsSnoc(s, env, used - 1);
      DmaRunFrame(At(s, env, used - 1), env[used - 1], s.get);
    }
  }

  /** Deciding after the release is the same as deciding at the release. */
  lemma {:induction false} DecisionStable(s: RxState, env: seq<seq<bv32>>, at: nat, used: nat)
    requires Valid(s) && at <= used <= |env|
    requires !Owned(Word(s, env, at))
    ensures Poll(At(s, env, used)) == PollAt(s, env, at, used)
    decreases used
  {
    if used == at {
      assert env[at..used] == [];
    } else {
      var before := At(s, env, used - 1);
      WordStable(s, env, at, used - 1);
      DecisionStable(s, env, at, used - 1);
      DmaRunsSnoc(s, env, used - 1);
      PollCommutes(before, env[used - 1]);
      PollAtSnoc(s, env, at, used);
    }
  }

  /** A call that sees the descriptor still owned and changes nothing took effect then. */
  lemma DecisionSkipped(s: RxState, env: seq<seq<bv32>>, at: nat, used: nat)
    requires Valid(s) && at <= used <= |env|
    requires Owned(Word(s, env, at))
    ensures (At(s, env, used), 0) == PollAt(s, env, at, used)
  {
    DmaRunsSplit(s, env[..used], at);
    assert env[..used][..at] == env[..at];
    assert env[..used][at..] == env[at..used];
  }

  // ----- The interrupt scan -----

  /** LS_RxDesc is only written by a poll, never consulted. */
  lemma PollIgnoresLs(s: RxState, x: Option<nat>)
    requires Valid(s)
    ensures Poll(s.(ls := x)).1 == Poll(s).1
    ensures Poll(s.(ls := x)).0 == Poll(s).0.(ls := Poll(s.(ls := x)).0.ls)
    ensures Poll(s).1 == 1 ==> Poll(s.(ls := x)).0 == Poll(s).0
  {
  }

  lemma DmaRunIgnoresLs(s: RxState, x: Option<nat>, ws: seq<bv32>)
    requires Valid(s)
    ensures DmaRun(s.(ls := x), ws) == DmaRun(s, ws).(ls := x)
  {
    DmaRunIgnoresDriver(s, s.(ls := x), ws);
  }

  /** The scan finds the frame polling finds and leaves the same state, except for
      LS_RxDesc while a frame is open. */
  lemma {:induction false} ScanRefinesPolling(s: RxState, t: RxState, batches: seq<seq<bv32>>)
    requires Valid(s) && |batches| > 0 && t == s.(ls := t.ls)
    ensures var scan, poll := ScanThenRead(t, batches), PollThenRead(s, batches);
      && scan.1 == poll.1 && scan.0 == poll.0.(ls := scan.0.ls)
      && (scan.1.Some? ==> scan.0 == poll.0)
    decreases |batches|
  {
    var now, other := DmaRun(s, batches[0]), DmaRun(t, batches[0]);
    DmaRunIgnoresLs(s, t.ls, batches[0]);
    PollIgnoresLs(now, t.ls);
    if |batches| > 1 && !Owned(now.ring[now.get].status) && Poll(now).1 != 1 {
      ScanRefinesPolling(Poll(now).0, ScanPoll(other).0, batches[1..]);
    }
  }

  /** Once the scanned descriptor is released, the decision commutes with the DMA. */
  lemma ScanCommutes(s: RxState, ws: seq<bv32>)
    requires Valid(s) && !Owned(s.ring[s.get].status)
    ensures ScanPoll(DmaRun(s, ws)) == (DmaRun(ScanPoll(s).0, ws), ScanPoll(s).1)
  {
    PollCommutes(s, ws);
    DmaRunIgnoresLs(Poll(s).0, s.ls, ws);
  }

  /** So does reading the frame it closes. */
  lemma ReadCommutes(s: RxState, ws: seq<bv32>)
    requires Valid(s) && !Owned(s.ring[s.get].status)
    ensures Read(DmaRun(s, ws)) == (DmaRun(Read(s).0, ws), Read(s).1)
  {
    DmaRunFrame(s, ws, s.get);
    DmaRunIgnoresDriver(s, Read(s).0, ws);
    if s.fs.Some? {
      DmaRunFrame(s, ws, s.fs.value);
    }
  }

  /** Each batch is followed by a decision on a segment that closes no frame; the last
      one leads to g. */
  ghost predicate Opens(s: RxState, batches: seq<seq<bv32>>, g: RxState)
    requires Valid(s)
    decreases |batches|
  {
    if batches == [] then g == s
    else
      var now := DmaRun(s, batches[0]);
      !Owned(now.ring[now.get].status) && ScanPoll(now).1 == 0 && Opens(ScanPoll(now).0, batches[1..], g)
  }

  lemma {:induction false} OpensSnoc(s: RxState, batches: seq<seq<bv32>>, g: RxState, batch: seq<bv32>)
    requires Valid(s) && Valid(g) && Opens(s, batches, g)
    requires var now := DmaRun(g, batch); !Owned(now.ring[now.get].status) && ScanPoll(now).1 == 0
    ensures Opens(s, batches + [batch], ScanPoll(DmaRun(g, batch)).0)
    decreases |batches|
  {
    if batches == [] {
      assert (batches + [batch])[1..] == [];
    } else {
      assert (batches + [batch])[1..] == batches[1..] + [batch];
      OpensSnoc(ScanPoll(DmaRun(s, batches[0])).0, batches[1..], g, batch);
    }
  }

  lemma {:induction false} OpensThen(s: RxState, batches: seq<seq<bv32>>, g: RxState, rest: seq<seq<bv32>>)
    requires Valid(s) && Valid(g) && Opens(s, batches, g) && |rest| > 0
    ensures ScanThenRead(s, batches + rest) == ScanThenRead(g, rest)
    decreases |batches|
  {
    if batches == [] {
      assert batches + rest == rest;
    } else {
      assert (batches + rest)[0] == batches[0] && (batches + rest)[1..] == batches[1..] + rest;
      OpensThen(ScanPoll(DmaRun(s, batches[0])).0, batches[1..], g, rest);
    }
  }

  lemma {:induction false} FlattenSnoc(batches: seq<seq<bv32>>, batch: seq<bv32>)
    ensures Flatten(batches + [batch]) == Flatten(batches) + batch
    decreases |batches|
  {
    if batches == [] {
      assert (batches + [batch])[1..] == [];
    } else {
      assert (batches + [batch])[1..] == batches[1..] + [batch];
      FlattenSnoc(batches[1..], batch);
    }
  }

  lemma FlattenPrefix(env: seq<seq<bv32>>, k: nat)
    requires k < |env|
    ensures Flatten(env[..k + 1]) == Flatten(env[..k]) + env[k]
  {
    FlattenSnoc(env[..k], env[k]);
    assert env[..k + 1] == env[..k] + [env[k]];
  }

  ghost predicate SameFrame(frame: Frame, read: Frame, segCount: nat)
  {
    frame == read.(buffer := frame.buffer) && (segCount != 0 ==> frame == read)
  }

  /** State t and `frame` are those of a scan from s, followed by the DMA writes `tail`.
      A scan without a frame made all its decisions or met a descriptor of the DMA. The
      buffer address is that of the frame unless the 32-bit segment count wrapped to 0. */
  ghost predicate IsScan(s: RxState, batches: seq<seq<bv32>>, tail: seq<bv32>, t: RxState, frame: Frame)
    requires Valid(s) && |batches| > 0
  {
    var scan := ScanThenRead(s, batches);
    && t == DmaRun(scan.0, tail)
    && match scan.1
       case None =>
         && frame == Frame(0, 0, None)
         && (|batches| == 6 || (t.get < |t.ring| && Owned(t.ring[t.get].status)))
       case Some(read) => SameFrame(frame, read, t.segCount)
  }

  /** State t and `frame` are those of polling from s, followed by the DMA writes
      `tail`, except that LS_RxDesc may differ while a frame is open. */
  ghost predicate SameAsPolling(s: RxState, batches: seq<seq<bv32>>, tail: seq<bv32>, t: RxState, frame: Frame)
    requires Valid(s) && |batches| > 0
  {
    var polling := PollThenRead(s, batches);
    match polling.1
    case None => t == DmaRun(polling.0, tail).(ls := t.ls) && frame == Frame(0, 0, None)
    case Some(read) => t == DmaRun(polling.0, tail) && SameFrame(frame, read, t.segCount)
  }

  lemma ScanIsPolling(s: RxState, batches: seq<seq<bv32>>, tail: seq<bv32>, t: RxState, frame: Frame)
    requires Valid(s) && |batches| > 0 && IsScan(s, batches, tail, t, frame)
    ensures SameAsPolling(s, batches, tail, t, frame)
  {
    ScanRefinesPolling(s, s, batches);
    var scan, poll := ScanThenRead(s, batches), PollThenRead(s, batches);
    DmaRunIgnoresLs(poll.0, scan.0.ls, tail);
  }

  /** A scan from `start` is under way: after the decisions of `batches` it was in state
      g, and with the DMA writes `pending` since it is in s; `writes` are all of them. */
  ghost predicate Scanning(start: RxState, batches: seq<seq<bv32>>, g: RxState, pending: seq<bv32>,
                           s: RxState, writes: seq<bv32>)
  {
    && Valid(start) && Valid(g) && Opens(start, batches, g)
    && s == DmaRun(g, pending) && writes == Flatten(batches) + pending
  }

  /** A segment that closes no frame: the scan goes on. */
  lemma ScanContinues(start: RxState, batches: seq<seq<bv32>>, g: RxState, pending: seq<bv32>,
                      s: RxState, writes: seq<bv32>, rest: seq<bv32>, t: RxState)
    requires Scanning(start, batches, g, pending, s, writes)
    requires !Owned(s.ring[s.get].status) && ScanPoll(s).1 == 0 && t == DmaRun(ScanPoll(s).0, rest)
    ensures Scanning(start, batches + [pending], ScanPoll(s).0, rest, t, writes + rest)
  {
    OpensSnoc(start, batches, g, pending);
    FlattenSnoc(batches, pending);
  }

  /** A segment that closes a frame: the scan ends. */
  lemma ScanEnds(start: RxState, passed: seq<seq<bv32>>, g: RxState, pending: seq<bv32>,
                 s: RxState, writes: seq<bv32>, tail: seq<bv32>, t: RxState, frame: Frame)
    returns (batches: seq<seq<bv32>>)
    requires Scanning(start, passed, g, pending, s, writes)
    requires !Owned(s.ring[s.get].status) && ScanPoll(s).1 == 1
    requires t == DmaRun(Read(ScanPoll(s).0).0, tail) && SameFrame(frame, Read(ScanPoll(s).0).1, t.segCount)
    ensures |batches| == |passed| + 2 && Flatten(batches) == writes
    ensures IsScan(start, batches, tail, t, frame)
  {
    OpensThen(start, passed, g, [pending, []]);
    batches := passed + [pending, []];
    assert batches == passed + [pending] + [[]];
    FlattenSnoc(passed, pending);
    FlattenSnoc(passed + [pending], []);
  }

  /** Nothing to take, or enough decisions made: the scan ends without a frame. */
  lemma ScanStops(start: RxState, passed: seq<seq<bv32>>, g: RxState, pending: seq<bv32>,
                  s: RxState, writes: seq<bv32>) returns (batches: seq<seq<bv32>>)
    requires Scanning(start, passed, g, pending, s, writes)
    requires |passed| == RXBUFNB || Owned(s.ring[s.get].status)
    ensures |batches| == |passed| + 1 && Flatten(batches) + [] == writes
    ensures IsScan(start, batches, [], s, NO_FRAME)
  {
    OpensThen(start, passed, g, [pending]);
    batches := passed + [pending];
    FlattenSnoc(passed, pending);
  }

  // ----- The driver -----

  class RxDriver {
    const table: array<Descriptor>
    const count: nat
    var dma: nat
    var get: nat
    var fs: Option<nat>
    var ls: Option<nat>
    var segCount: nat

    function View(): RxState
      requires count <= table.Length
      reads this, table
    {
      RxState(table[..count], dma, get, fs, ls, segCount)
    }

    ghost predicate Ok()
      reads this, table
    {
      count <= table.Length && Valid(View())
    }

    /** ETH_ConfigDMARxDescChain on a fresh driver. */
    constructor (rxTable: array<Descriptor>, rxBuff: nat, rxCount: nat)
      requires 0 < rxCount <= rxTable.Length
      requires rxBuff + rxCount * BUF_SIZE <= TWO32
      modifies rxTable
      ensures table == rxTable && count == rxCount && Ok()
      ensures get == 0 && dma == 0 && segCount == 0 && fs == None && ls == None
      ensures BuffersTile(View().ring, rxBuff)
      ensures forall i :: 0 <= i < count ==> Owned(View().ring[i].status)
    {
      table, count := rxTable, rxCount;
      fs, ls, segCount := None, None, 0;
      new;
      get, dma := ConfigRxChain(table, rxBuff, count);
    }

    /** A batch of DMA write-backs, performed on the shared descriptors. */
    method DmaBatch(ws: seq<bv32>)
      requires Ok()
      modifies this`dma, table
      ensures Ok() && View() == DmaRun(old(View()), ws)
    {
      var j := 0;
      while j < |ws|
        invariant j <= |ws| && Ok()
        invariant DmaRun(View(), ws[j..]) == DmaRun(old(View()), ws)
      {
        var d := table[dma];
        ghost var before := View();
        if Owned(d.status) && !Owned(ws[j]) {
          table[dma] := d.(status := ws[j]);
          dma := d.next;
          assert View().ring == before.ring[before.dma := d.(status := ws[j])];
        }
        assert View() == DmaWrite(before, ws[j..][0]);
        assert ws[j..][1..] == ws[j + 1..];
        j := j + 1;
      }
    }

    /** The k-th volatile read of the current descriptor's status: the DMA may act first. */
    method ReadStatus(ghost s: RxState, env: seq<seq<bv32>>, k: nat) returns (w: bv32)
      requires Ok() && Valid(s) && k < |env| && View() == At(s, env, k)
      modifies this`dma, table
      ensures Ok() && View() == At(s, env, k + 1)
      ensures w == Word(s, env, k + 1)
    {
      DmaBatch(env[k]);
      DmaRunsSnoc(s, env, k);
      w := table[get].status;
    }

    /** The first test: the descriptor is released and closes a frame. */
    method TestLast(ghost s: RxState, env: seq<seq<bv32>>) returns (taken: bool, k: nat)
      requires Ok() && Valid(s) && |env| == 8 && View() == s
      modifies this`dma, table
      ensures Ok() && 1 <= k <= 2 && View() == At(s, env, k)
      ensures taken <==> !Owned(Word(s, env, 1)) && Last(Word(s, env, 1))
    {
      var w := ReadStatus(s, env, 0);
      k, taken := 1, !Owned(w);
      if taken {
        w := ReadStatus(s, env, k);
        WordStable(s, env, 1, 2);
        k, taken := 2, Last(w);
      }
    }

    /** The second and third test: the descriptor is released, its FDES bit is
        `first` and its LDES bit is clear. */
    method TestOpen(ghost s: RxState, env: seq<seq<bv32>>, first: bool, start: nat)
      returns (taken: bool, k: nat)
      requires Ok() && Valid(s) && start + 3 <= |env| && View() == At(s, env, start)
      modifies this`dma, table
      ensures Ok() && start < k <= start + 3 && View() == At(s, env, k)
      ensures var w := Word(s, env, start + 1);
        taken <==> !Owned(w) && First(w) == first && !Last(w)
    {
      var w := ReadStatus(s, env, start);
      k, taken := start + 1, !Owned(w);
      if taken {
        w := ReadStatus(s, env, k);
        WordStable(s, env, start + 1, start + 2);
        k, taken := start + 2, First(w) == first;
        if taken {
          w := ReadStatus(s, env, k);
          WordStable(s, env, start + 1, start + 3);
          k, taken := start + 3, !Last(w);
        }
      }
    }

    /** The first branch: the descriptor closes a frame. */
    method RecordLast()
      requires Ok() && !Owned(table[get].status) && Last(table[get].status)
      modifies this`segCount, this`fs, this`ls
      ensures Ok() && (View(), 1) == Poll(old(View()))
    {
      segCount := Inc32(segCount);
      if segCount == 1 {
        fs := Some(get);
      }
      ls := Some(get);
    }

    /** The second branch: the descriptor opens a frame. */
    method RecordFirst()
      requires Ok() && !Owned(table[get].status) && First(table[get].status) && !Last(table[get].status)
      modifies this`segCount, this`fs, this`ls, this`get
      ensures Ok() && (View(), 0) == Poll(old(View()))
    {
      fs, ls, segCount := Some(get), None, 1;
      get := table[get].next;
    }

    /** The third branch: the descriptor continues a frame. */
    method RecordMiddle()
      requires Ok() && !Owned(table[get].status) && !First(table[get].status) && !Last(table[get].status)
      modifies this`segCount, this`get
      ensures Ok() && (View(), 0) == Poll(old(View()))
    {
      segCount := Inc32(segCount);
      get := table[get].next;
    }

    /** ETH_CheckReceivedFrame with the k-th status read preceded by the DMA
        writes env[k]. `used` reads are made; whatever the DMA does between them,
        the call takes effect atomically after the first `at` of them. */
    method CheckReceivedFrame(env: seq<seq<bv32>>) returns (r: nat, used: nat, ghost at: nat)
      requires Ok() && |env| == 8
      modifies this, table
      ensures Ok() && 1 <= at <= used <= 8
      ensures (View(), r) == PollAt(old(View()), env, at, used)
    {
      ghost var s := View();
      var taken;
      taken, used := TestLast(s, env);
      at := 1;
      if taken {
        WordStable(s, env, at, used);
        RecordLast();
        DecisionStable(s, env, at, used);
        return 1, used, at;
      }
      ghost var k1 := used + 1;
      taken, used := TestOpen(s, env, true, used);
      if taken {
        at := if Owned(Word(s, env, 1)) then k1 else 1;
        WordStable(s, env, at, k1);
        WordStable(s, env, k1, used);
        RecordFirst();
        DecisionStable(s, env, at, used);
        return 0, used, at;
      }
      ghost var k2 := used + 1;
      taken, used := TestOpen(s, env, false, used);
      if taken {
        at := if !Owned(Word(s, env, 1)) then 1 else if !Owned(Word(s, env, k1)) then k1 else k2;
        WordStable(s, env, at, k2);
        WordStable(s, env, k2, used);
        RecordMiddle();
        DecisionStable(s, env, at, used);
        return 0, used, at;
      }
      if !Owned(Word(s, env, 1)) {
        WordStable(s, env, 1, k1);
        WordStable(s, env, 1, k2);
        assert false;
      }
      DecisionSkipped(s, env, at, used);
      r := 0;
    }

    /** ETH_ReadReceivedFrame. */
    method ReadReceivedFrame() returns (frame: Frame)
      requires Ok()
      modifies this`get
      ensures Ok() && (View(), frame) == Read(old(View()))
      ensures frame.descriptor == fs && (fs.Some? ==> frame.buffer == table[fs.value].buffer)
      ensures frame.length == PayloadLength(table[old(get)].status) && get == table[old(get)].next
    {
      var d := table[get];
      frame := Frame(PayloadLength(d.status), BufferOf(table[..count], fs), fs);
      get := d.next;
    }

    /** ETH_ConfigDMARxDescOwnBit. */
    method GiveToDma(i: nat)
      requires Ok() && i < count
      modifies table
      ensures Ok() && View() == SetOwn(old(View()), i)
      ensures table[i] == old(table[i]).(status := table[i].status) && OwnAdded(old(table[i]).status, table[i].status)
      ensures forall j :: 0 <= j < table.Length && j != i ==> table[j] == old(table[j])
    {
      var w := WithOwn(table[i].status);
      table[i] := table[i].(status := w);
      assert View().ring == old(View()).ring[i := table[i]];
    }

    // ----- The interrupt scan -----

    /** The k-th volatile read of the current descriptor's status, in an iteration that
        began in state s after the DMA writes `prior`, with the DMA writes v since. */
    method Peek(ghost s: RxState, ghost prior: seq<bv32>, ghost v: seq<bv32>, env: seq<seq<bv32>>, k: nat)
      returns (w: bv32, ghost more: seq<bv32>)
      requires Ok() && Valid(s) && k < |env| && View() == DmaRun(s, v) && Flatten(env[..k]) == prior + v
      modifies this`dma, table
      ensures Ok() && View() == DmaRun(s, more) && Flatten(env[..k + 1]) == prior + more
      ensures w == View().ring[get].status
      ensures !Owned(s.ring[s.get].status) ==> w == s.ring[s.get].status
    {
      more := v + env[k];
      DmaBatch(env[k]);
      DmaRunConcat(s, v, env[k]);
      DmaRunFrame(s, more, s.get);
      FlattenPrefix(env, k);
      w := table[get].status;
    }

    /** One of the two tests of an iteration: the FDES bit is `first` and the LDES bit is
        clear. `used` reads were made by its end. */
    method TestSegment(ghost s: RxState, ghost prior: seq<bv32>, ghost v: seq<bv32>,
                       env: seq<seq<bv32>>, start: nat, first: bool)
      returns (open: bool, used: nat, ghost more: seq<bv32>)
      requires Ok() && Valid(s) && !Owned(s.ring[s.get].status) && start + 2 <= |env|
      requires View() == DmaRun(s, v) && Flatten(env[..start]) == prior + v
      modifies this`dma, table
      ensures Ok() && View() == DmaRun(s, more)
      ensures used == (if First(s.ring[s.get].status) == first then start + 2 else start + 1)
      ensures Flatten(env[..used]) == prior + more
      ensures open <==> First(s.ring[s.get].status) == first && !Last(s.ring[s.get].status)
    {
      var w;
      w, more := Peek(s, prior, v, env, start);
      used, open := start + 1, First(w) == first;
      if open {
        w, more := Peek(s, prior, more, env, used);
        used, open := used + 1, !Last(w);
      }
    }

    /** The iteration on a segment that closes no frame. */
    method ScanOpen(first: bool)
      requires Ok() && !Owned(table[get].status) && !Last(table[get].status)
      requires first == First(table[get].status)
      modifies this`fs, this`segCount, this`get
      ensures Ok() && (View(), 0) == ScanPoll(old(View()))
    {
      if first {
        fs, segCount := Some(get), 1;
        get := table[get].next;
      } else {
        segCount := Inc32(segCount);
        get := table[get].next;
      }
    }

    /** The iteration on the segment that closes a frame: the record. */
    method ScanRecord()
      requires Ok() && !Owned(table[get].status) && Last(table[get].status)
      modifies this`fs, this`ls, this`segCount
      ensures Ok() && (View(), 1) == ScanPoll(old(View()))
    {
      ls := Some(get);
      segCount := Inc32(segCount);
      if segCount == 1 {
        fs := Some(get);
      }
    }

    /** The same iteration after the record: the frame, its length from a status word
        read once more. */
    method ScanRead(w: bv32) returns (frame: Frame)
      requires Ok() && w == table[get].status && (segCount == 1 ==> fs == Some(get))
      modifies this`get
      ensures Ok() && View() == Read(old(View())).0
      ensures SameFrame(frame, Read(old(View())).1, segCount)
    {
      frame := Frame(PayloadLength(w),
                     if segCount > 1 then BufferOf(table[..count], fs) else table[get].buffer,
                     fs);
      get := table[get].next;
    }

    /** The whole iteration on a segment that closes a frame. */
    method ScanClose(ghost s: RxState, ghost prior: seq<bv32>, ghost v: seq<bv32>, env: seq<seq<bv32>>, k: nat)
      returns (frame: Frame, ghost more: seq<bv32>)
      requires Ok() && Valid(s) && k < |env| && View() == DmaRun(s, v) && Flatten(env[..k]) == prior + v
      requires !Owned(s.ring[s.get].status) && Last(s.ring[s.get].status)
      modifies this, table
      ensures Ok() && View() == DmaRun(Read(ScanPoll(s).0).0, more) && Flatten(env[..k + 1]) == prior + more
      ensures SameFrame(frame, Read(ScanPoll(s).0).1, segCount)
    {
      DmaRunFrame(s, v, s.get);
      ScanRecord();
      ScanCommutes(s, v);
      var w;
      w, more := Peek(ScanPoll(s).0, prior, v, env, k);
      frame := ScanRead(w);
      ReadCommutes(ScanPoll(s).0, more);
    }

    /** One iteration of the loop, begun in state s after the DMA writes `prior` and
        `start` reads: the atomic decision on s and, if it closes a frame, the read,
        followed by the DMA writes v made meanwhile. */
    method ScanSegment(ghost s: RxState, ghost prior: seq<bv32>, env: seq<seq<bv32>>, start: nat)
      returns (closed: bool, frame: Frame, used: nat, ghost v: seq<bv32>)
      requires Ok() && Valid(s) && View() == s && !Owned(s.ring[s.get].status)
      requires start + 4 <= |env| && Flatten(env[..start]) == prior
      modifies this, table
      ensures Ok() && start < used <= start + (if closed then 4 else 3) && Flatten(env[..used]) == prior + v
      ensures ScanPoll(s).1 == if closed then 1 else 0
      ensures View() == DmaRun(if closed then Read(ScanPoll(s).0).0 else ScanPoll(s).0, v)
      ensures closed ==> SameFrame(frame, Read(ScanPoll(s).0).1, segCount)
      ensures !closed ==> frame == NO_FRAME
    {
      frame, closed := NO_FRAME, false;
      var opens, continues;
      opens, used, v := TestSegment(s, prior, [], env, start, true);
      if opens {
        DmaRunFrame(s, v, s.get);
        ScanOpen(true);
        ScanCommutes(s, v);
        return;
      }
      continues, used, v := TestSegment(s, prior, v, env, used, false);
      if continues {
        DmaRunFrame(s, v, s.get);
        ScanOpen(false);
        ScanCommutes(s, v);
        return;
      }
      frame, v := ScanClose(s, prior, v, env, used);
      used, closed := used + 1, true;
    }

    /** One iteration within the scan, up to the next loop test if there is one. */
    method ScanNext(ghost start: RxState, ghost passed: seq<seq<bv32>>, ghost g: RxState, ghost pending: seq<bv32>,
                    env: seq<seq<bv32>>, begun: nat)
      returns (closed: bool, frame: Frame, used: nat, w: bv32,
               ghost batches: seq<seq<bv32>>, ghost h: RxState, ghost rest: seq<bv32>)
      requires Ok() && begun + 4 <= |env| && !Owned(table[get].status)
      requires Scanning(start, passed, g, pending, View(), Flatten(env[..begun]))
      modifies this, table
      ensures Ok() && used <= begun + 4
      ensures !closed ==>
        && |batches| == |passed| + 1 && frame == NO_FRAME && w == table[get].status
        && Scanning(start, batches, h, rest, View(), Flatten(env[..used]))
      ensures closed ==>
        && |batches| == |passed| + 2 && Flatten(batches) + rest == Flatten(env[..used])
        && IsScan(start, batches, rest, View(), frame)
    {
      ghost var s, prior := View(), Flatten(env[..begun]);
      w, h := 0, g;
      closed, frame, used, rest := ScanSegment(s, prior, env, begun);
      if closed {
        batches := ScanEnds(start, passed, g, pending, s, prior, rest, View(), frame);
      } else {
        batches, h := passed + [pending], ScanPoll(s).0;
        w, rest := Peek(h, prior, rest, env, used);
        used := used + 1;
        ScanContinues(start, passed, g, pending, s, prior, rest, View());
      }
    }

    /** ETH_ReadReceivedFrameInterrupt with the j-th status read preceded by the DMA
        writes env[j]. Whatever the DMA does between the `used` reads, the call is a
        scan with one atomic decision after each of `batches`, and so returns the frame
        and leaves the state that polling would. */
    method ReadReceivedFrameInterrupt(env: seq<seq<bv32>>)
      returns (frame: Frame, used: nat, ghost batches: seq<seq<bv32>>, ghost tail: seq<bv32>)
      requires Ok() && |env| == 4 * RXBUFNB + 1
      modifies this, table
      ensures Ok() && used <= |env| && 1 <= |batches| <= 6
      ensures Flatten(batches) + tail == Flatten(env[..used])
      ensures IsScan(old(View()), batches, tail, View(), frame)
      ensures SameAsPolling(old(View()), batches, tail, View(), frame)
    {
      ghost var start, g := View(), View();
      var w, k, closed := 0, 0, false;
      frame, used, batches := NO_FRAME, 0, [];
      w, tail := Peek(g, [], [], env, used);
      used := used + 1;
      while !Owned(w) && k < RXBUFNB
        invariant k <= RXBUFNB && |batches| == k && used <= 4 * k + 1 && frame == NO_FRAME
        invariant Ok() && w == table[get].status
        invariant Scanning(start, batches, g, tail, View(), Flatten(env[..used]))
        decreases RXBUFNB - k
      {
        k := k + 1;
        closed, frame, used, w, batches, g, tail := ScanNext(start, batches, g, tail, env, used);
        if closed {
          ScanIsPolling(start, batches, tail, View(), frame);
          return;
        }
      }
      batches := ScanStops(start, batches, g, tail, View(), Flatten(env[..used]));
      tail := [];
      ScanIsPolling(start, batches, tail, View(), frame);
    }
  }
}
