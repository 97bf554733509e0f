/** How a transmit frame is cut into buffer-sized segments, and how the segments
    seen on the wire give the frames back. */
module EthSegments {
  import opened EthDescriptors

  /** One descriptor's worth of a frame: the FS and LS bits and the byte count. */
  datatype Segment = Segment(first: bool, last: bool, size: nat)

  /** The number of descriptors ETH_Transmit_Descriptors uses. */
  function SegmentCount(length: nat): (count: nat)
    ensures count >= 1
  {
    if length > BUF_SIZE then length / BUF_SIZE + (if length % BUF_SIZE != 0 then 1 else 0) else 1
  }

  /** The i-th segment as written, sizes masked to 13 bits. */
  function SegmentAt(length: nat, i: nat): Segment
    requires i < SegmentCount(length)
  {
    var count := SegmentCount(length);
    if count == 1 then Segment(true, true, length % SIZE_MODULUS)
    else if i == count - 1 then Segment(false, true, (length - (count - 1) * BUF_SIZE) % SIZE_MODULUS)
    else Segment(i == 0, false, BUF_SIZE % SIZE_MODULUS)
  }

  function Segments(length: nat): seq<Segment>
  {
    seq(SegmentCount(length), i requires 0 <= i < SegmentCount(length) => SegmentAt(length, i))
  }

  function Bytes(segments: seq<Segment>): nat
  {
    if segments == [] then 0
    else Bytes(segments[..|segments| - 1]) + segments[|segments| - 1].size
  }

  /** The count is the ceiling of length / 1524, and 1 for an empty frame. */
  lemma SegmentCountIsCeiling(length: nat)
    ensures (SegmentCount(length) - 1) * BUF_SIZE <= length <= SegmentCount(length) * BUF_SIZE
    ensures length > 0 ==> (SegmentCount(length) - 1) * BUF_SIZE < length
  {
  }

  lemma {:induction false} FullSegmentsBytes(length: nat, k: nat)
    requires k < SegmentCount(length)
    ensures Bytes(Segments(length)[..k]) == k * BUF_SIZE
  {
    if k > 0 {
      FullSegmentsBytes(length, k - 1);
      assert Segments(length)[..k][..k - 1] == Segments(length)[..k - 1];
    }
  }

  /** Segmentation conserves the frame: the sizes add up to the length, all but
      the last are full, FS marks only the first and LS only the last. */
  lemma SegmentationConserves(length: nat)
    ensures var segments := Segments(length);
      && Bytes(segments) == length
      && forall i :: 0 <= i < |segments| ==>
           && (segments[i].first <==> i == 0)
           && (segments[i].last <==> i == |segments| - 1)
           && (i < |segments| - 1 ==> segments[i].size == BUF_SIZE)
           && segments[i].size <= BUF_SIZE
           && (length > 0 ==> segments[i].size > 0)
  {
    SegmentCountIsCeiling(length);
    var segments := Segments(length);
    FullSegmentsBytes(length, |segments| - 1);
  }

  /** The segments of a list of frames, in order. */
  function Flat(frames: seq<nat>): seq<Segment>
  {
    if frames == [] then [] else Flat(frames[..|frames| - 1]) + Segments(frames[|frames| - 1])
  }

  /** What a receiver of segments knows: the frames closed so far and the bytes
      of the frame still open. */
  datatype Wire = Wire(lengths: seq<nat>, open: nat)

  function Reassemble(segments: seq<Segment>): Wire
  {
    if segments == [] then Wire([], 0)
    else Receive(Reassemble(segments[..|segments| - 1]), segments[|segments| - 1])
  }

  function Receive(wire: Wire, s: Segment): Wire
  {
    var bytes := (if s.first then 0 else wire.open) + s.size;
    if s.last then Wire(wire.lengths + [bytes], 0) else Wire(wire.lengths, bytes)
  }

  lemma {:induction false} ReassemblePrefix(segments: seq<Segment>, k: nat)
    requires k <= |segments|
    ensures Reassemble(segments[..k]).lengths <= Reassemble(segments).lengths
    decreases |segments|
  {
    if k == |segments| {
      assert segments[..k] == segments;
    } else {
      ReassemblePrefix(segments[..|segments| - 1], k);
      assert segments[..|segments| - 1][..k] == segments[..k];
    }
  }

  /** A prefix of one frame's segments leaves exactly its bytes open. */
  lemma {:induction false} ReassemblePart(before: seq<Segment>, length: nat, k: nat)
    requires k < SegmentCount(length)
    ensures Reassemble(before + Segments(length)[..k]).lengths == Reassemble(before).lengths
    ensures k > 0 ==> Reassemble(before + Segments(length)[..k]).open == k * BUF_SIZE
  {
    var part := Segments(length)[..k];
    if k == 0 {
      assert before + part == before;
    } else {
      ReassemblePart(before, length, k - 1);
      assert (before + part)[..|before + part| - 1] == before + Segments(length)[..k - 1];
    }
  }

  lemma LastSegment(length: nat)
    ensures var k := SegmentCount(length) - 1;
      SegmentAt(length, k) == Segment(k == 0, true, length - k * BUF_SIZE)
  {
    SegmentCountIsCeiling(length);
  }

  lemma ReassembleFrame(before: seq<Segment>, length: nat)
    ensures Reassemble(before + Segments(length)).lengths == Reassemble(before).lengths + [length]
  {
    SegmentCountIsCeiling(length);
    var k := SegmentCount(length) - 1;
    ReassemblePart(before, length, k);
    LastSegment(length);
    var all := before + Segments(length);
    assert all[..|all| - 1] == before + Segments(length)[..k];
    assert all[|all| - 1] == SegmentAt(length, k);
  }

  /** Round trip: the segments of a list of frames reassemble to that list. */
  lemma {:induction false} ReassembleFlat(frames: seq<nat>)
    ensures Reassemble(Flat(frames)).lengths == frames
  {
    if frames != [] {
      var rest := frames[..|frames| - 1];
      ReassembleFlat(rest);
      ReassembleFrame(Flat(rest), frames[|frames| - 1]);
      assert frames == rest + [frames[|frames| - 1]];
    }
  }
}
