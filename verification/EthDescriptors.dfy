/** The DMA descriptors of the Ethernet driver and the circular chains built from them. */
module EthDescriptors {
  import opened Words
  import opened Ring

  // Descriptor status bits (RXDES0 and TXDES0).
  const OWN: bv32 := 0x8000_0000
  const RX_FDES: bv32 := 0x0000_0200
  const RX_LDES: bv32 := 0x0000_0100
  const RX_FL: bv32 := 0x3FFF_0000
  const TX_LS: bv32 := 0x2000_0000
  const TX_FS: bv32 := 0x1000_0000
  const TX_FS_LS: bv32 := 0x3000_0000
  const TX_TXCH: bv32 := 0x0010_0000

  // Control word (RXDES1 and TXDES1): chained-address bit and the 13-bit sizes.
  const RX_RXCH: nat := 0x4000
  const SIZE_MODULUS: nat := 0x2000
  const BUFFER2_SHIFT: nat := 0x1_0000

  const BUF_SIZE: nat := 1524

  /** One descriptor. `next` is the table index held in Buffer2NextDescAddr. */
  datatype Descriptor = Descriptor(status: bv32, control: nat, buffer: nat, next: nat)

  predicate Owned(w: bv32) { w & OWN != 0 }

  predicate First(w: bv32) { w & RX_FDES != 0 }

  predicate Last(w: bv32) { w & RX_LDES != 0 }

  /** The frame-length field of a receive status word. */
  function FrameLengthField(w: bv32): nat { LengthBits(w) as nat }

  function LengthBits(w: bv32): bv32 { (w & RX_FL) >> 16 }

  lemma LengthBitsReadBack(flags: bv32, length: bv32)
    requires flags & 0x3FFF_0000 == 0 && length < 0x4000
    ensures LengthBits(flags | (length << 16)) == length
  {
  }

  /** The length is in bits 16 to 29: put there, it reads back whatever the flags are. */
  lemma LengthReadsBack(flags: bv32, length: bv32)
    requires flags & 0x3FFF_0000 == 0 && length < 0x4000
    ensures FrameLengthField(flags | (length << 16)) == length as nat
  {
    LengthBitsReadBack(flags, length);
  }

  /** The status word of a released frame in a single segment, with a length field of 64. */
  lemma SingleSegmentWord()
    ensures var w: bv32 := 0x0040_0300; !Owned(w) && First(w) && Last(w) && FrameLengthField(w) == 64
    ensures Owned(0x8000_0000) && First(0x0200) && !Last(0x0200) && Last(0x0100) && !First(0x0100)
  {
    assert LengthBits(0x0040_0300) == 64;
  }

  /** The ring with the status word of descriptor i replaced. */
  function WithStatus(ring: seq<Descriptor>, i: nat, w: bv32): (r: seq<Descriptor>)
    requires i < |ring|
    ensures |r| == |ring|
  {
    ring[i := ring[i].(status := w)]
  }

  /** The ring's links form the chain 0 -> 1 -> ... -> n-1 -> 0. */
  ghost predicate Chained(ring: seq<Descriptor>)
  {
    forall i :: 0 <= i < |ring| ==> ring[i].next == Next(i, |ring|)
  }

  /** The index reached from i by following `next` k times. */
  ghost function Walk(ring: seq<Descriptor>, i: nat, k: nat): (r: nat)
    requires Chained(ring) && i < |ring|
    ensures r < |ring|
    decreases k
  {
    if k == 0 then i else Walk(ring, ring[i].next, k - 1)
  }

  /** Walking k links from the slot of p reaches the slot of p + k. */
  lemma {:induction false} WalkIsSlot(ring: seq<Descriptor>, p: nat, k: nat)
    requires Chained(ring) && |ring| > 0
    ensures Walk(ring, Slot(p, |ring|), k) == Slot(p + k, |ring|)
    decreases k
  {
    if k > 0 {
      assert Slot(p + 1, |ring|) == ring[Slot(p, |ring|)].next;
      WalkIsSlot(ring, p + 1, k - 1);
      assert p + 1 + (k - 1) == p + k;
    }
  }

  /** Descriptor j lies fewer than n links after descriptor i. */
  ghost predicate Reaches(ring: seq<Descriptor>, i: nat, j: nat)
    requires Chained(ring) && i < |ring|
  {
    exists k :: 0 <= k < |ring| && Walk(ring, i, k) == j
  }

  /** The chain is one cycle: from any descriptor, n links return to it, and
      every descriptor is reached after exactly one number of links below n. */
  lemma ChainIsSingleCycle(ring: seq<Descriptor>, i: nat)
    requires Chained(ring) && i < |ring|
    ensures Walk(ring, i, |ring|) == i
    ensures forall j :: 0 <= j < |ring| ==> Reaches(ring, i, j)
    ensures forall k, l :: 0 <= k < l < |ring| ==> Walk(ring, i, k) != Walk(ring, i, l)
  {
    var n := |ring|;
    var p := SlotCovers(0, i, n);
    WalkIsSlot(ring, p, n);
    SlotPeriodic(p, n);
    forall j | 0 <= j < n
      ensures Reaches(ring, i, j)
    {
      var q := SlotCovers(p, j, n);
      WalkIsSlot(ring, p, q - p);
      assert Walk(ring, i, q - p) == j;
    }
    forall k, l | 0 <= k < l < n
      ensures Walk(ring, i, k) != Walk(ring, i, l)
    {
      WalkIsSlot(ring, p, k);
      WalkIsSlot(ring, p, l);
      if Slot(p + k, n) == Slot(p + l, n) {
        SlotInjective(p + k, p + l, n);
      }
    }
  }

  /** A change at the slot of q leaves the rest of a one-turn window alone. */
  lemma WindowElsewhere(ring: seq<Descriptor>, d: Descriptor, from: nat, q: nat, p: nat)
    requires |ring| > 0 && from <= q < from + |ring| && from <= p < from + |ring| && p != q
    ensures ring[Slot(q, |ring|) := d][Slot(p, |ring|)] == ring[Slot(p, |ring|)]
  {
    if Slot(p, |ring|) == Slot(q, |ring|) {
      if p < q {
        SlotInjective(p, q, |ring|);
      } else {
        SlotInjective(q, p, |ring|);
      }
    }
  }

  /** Descriptor i's buffer is the i-th BUF_SIZE block of the area at `base`. */
  ghost predicate BuffersTile(ring: seq<Descriptor>, base: nat)
  {
    forall i :: 0 <= i < |ring| ==> ring[i].buffer == base + i * BUF_SIZE
  }

  /** The buffers of a tiled ring lie inside the area and do not overlap. */
  lemma BuffersDisjoint(ring: seq<Descriptor>, base: nat, i: nat, j: nat)
    requires BuffersTile(ring, base)
    requires i < |ring| && j < |ring| && i != j
    ensures base <= ring[i].buffer && ring[i].buffer + BUF_SIZE <= base + |ring| * BUF_SIZE
    ensures ring[i].buffer + BUF_SIZE <= ring[j].buffer || ring[j].buffer + BUF_SIZE <= ring[i].buffer
  {
  }

  datatype RxBuffer = Buffer1 | Buffer2

  /** ETH_ReadDMARxDescBufferSize: the 13-bit size of one buffer. */
  function RxBufferSize(d: Descriptor, which: RxBuffer): (size: nat)
    ensures size < SIZE_MODULUS
  {
    match which
    case Buffer1 => d.control % SIZE_MODULUS
    case Buffer2 => d.control / BUFFER2_SHIFT % SIZE_MODULUS
  }

  lemma SplitAt13(low: nat, high: nat)
    requires low < 0x2000
    ensures (low + 0x2000 * high) % 0x2000 == low
  {
  }

  lemma SplitAt16(low: nat, high: nat)
    requires low < 0x1_0000
    ensures (low + 0x1_0000 * high) / 0x1_0000 == high
  {
  }

  /** Both sizes read back from any control word they are packed into, whatever the
      three bits between them and those above them hold. */
  lemma RxSizesReadBack(d: Descriptor, size1: nat, between: nat, size2: nat, above: nat)
    requires size1 < 0x2000 && between < 8 && size2 < 0x2000
    requires d.control == size1 + 0x2000 * between + 0x1_0000 * size2 + 0x2000_0000 * above
    ensures RxBufferSize(d, Buffer1) == size1 && RxBufferSize(d, Buffer2) == size2
  {
    SplitAt13(size1, between + 8 * size2 + 0x1_0000 * above);
    SplitAt16(size1 + 0x2000 * between, size2 + 0x2000 * above);
    SplitAt13(size2, above);
  }

  /** The second-address-chained bit of a control word. */
  predicate IsRxChained(d: Descriptor) { d.control / RX_RXCH % 2 == 1 }

  /** ETH_ConfigDMARxDescChain. Every descriptor is handed to the DMA; DMARxDescToGet
      (`toGet`) and the descriptor-list address (`listHead`) are the first one. */
  method ConfigRxChain(table: array<Descriptor>, rxBuff: nat, count: nat)
    returns (toGet: nat, listHead: nat)
    requires count <= table.Length
    requires rxBuff + count * BUF_SIZE <= TWO32
    modifies table
    ensures Chained(table[..count]) && BuffersTile(table[..count], rxBuff)
    ensures forall i :: 0 <= i < count ==> table[i].status == OWN
    ensures forall i :: 0 <= i < count ==>
      && IsRxChained(table[i]) && table[i].control == 0x4000 + 1524
      && RxBufferSize(table[i], Buffer1) == BUF_SIZE && RxBufferSize(table[i], Buffer2) == 0
    ensures table[count..] == old(table[count..])
    ensures toGet == 0 && listHead == 0
  {
    toGet := 0;
    var i := 0;
    while i < count
      invariant i <= count
      invariant forall k :: 0 <= k < i ==>
        table[k] == Descriptor(OWN, RX_RXCH + BUF_SIZE, rxBuff + k * BUF_SIZE, Next(k, count))
      invariant table[count..] == old(table[count..])
    {
      table[i] := table[i].(status := OWN,
                            control := RX_RXCH + BUF_SIZE, // disjoint bits
                            buffer := rxBuff + i * BUF_SIZE);
      if i < count - 1 {
        table[i] := table[i].(next := i + 1);
      } else {
        table[i] := table[i].(next := 0);
      }
      i := i + 1;
    }
    listHead := 0;
  }

  /** ETH_ConfigDMATxDescChain. Every descriptor is free; the control word is left alone.
      DMATxDescToSet (`toSet`) and the descriptor-list address (`listHead`) are the
      first descriptor. */
  method ConfigTxChain(table: array<Descriptor>, txBuff: nat, count: nat)
    returns (toSet: nat, listHead: nat)
    requires count <= table.Length
    requires txBuff + count * BUF_SIZE <= TWO32
    modifies table
    ensures Chained(table[..count]) && BuffersTile(table[..count], txBuff)
    ensures forall i :: 0 <= i < count ==> table[i].status == TX_TXCH
    ensures forall i :: 0 <= i < count ==> table[i].control == old(table[i]).control
    ensures table[count..] == old(table[count..])
    ensures toSet == 0 && listHead == 0
  {
    toSet := 0;
    var i := 0;
    while i < count
      invariant i <= count
      invariant forall k :: 0 <= k < i ==>
        table[k] == Descriptor(TX_TXCH, old(table[k]).control, txBuff + k * BUF_SIZE, Next(k, count))
      invariant forall k :: i <= k < count ==> table[k] == old(table[k])
      invariant table[count..] == old(table[count..])
    {
      table[i] := table[i].(status := TX_TXCH, buffer := txBuff + i * BUF_SIZE);
      if i < count - 1 {
        table[i] := table[i].(next := i + 1);
      } else {
        table[i] := table[i].(next := 0);
      }
      i := i + 1;
    }
    listHead := 0;
  }
}
