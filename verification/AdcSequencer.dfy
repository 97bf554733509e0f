/** The ADC's packed sequence and sample-time registers as maps. */
module AdcSequencer {
  import opened BitFields

  /** The regular sequence registers REGSEQ1 to REGSEQ3. */
  datatype Sequence = Sequence(seq1: bv32, seq2: bv32, seq3: bv32)

  /** The sample-time registers SMPTIM1 and SMPTIM2. */
  datatype Times = Times(tim1: bv32, tim2: bv32)

  datatype Regs = Regs(regular: Sequence, times: Times, injSeq: bv32)

  predicate IsRank(rank: bv32) { 1 <= rank <= 16 }

  predicate IsChannel(channel: bv32) { channel <= 17 }

  // ----- Decoding -----

  /** The channel converted at a rank of the regular group. */
  function Regular(q: Sequence, rank: bv32): bv32
    requires IsRank(rank)
  {
    if rank < 7 then Get(q.seq3, 5 * (rank - 1), MASK5)
    else if rank < 13 then Get(q.seq2, 5 * (rank - 7), MASK5)
    else Get(q.seq1, 5 * (rank - 13), MASK5)
  }

  /** The sample time of a channel. */
  function SampleTime(t: Times, channel: bv32): bv32
    requires IsChannel(channel)
  {
    if channel > 9 then Get(t.tim1, 3 * (channel - 10), MASK3) else Get(t.tim2, 3 * channel, MASK3)
  }

  /** INJSEQ in groups of five bits, the last one two bits short. Slots 0 to 3 hold the
      channels of the injected group. The length field is the low end of group 4; the
      bits above it are reserved. */
  function Injected(inj: bv32, slot: bv32): bv32
    requires slot <= 6
  {
    if slot == 6 then Get(inj, 30, MASK2) else Get(inj, 5 * slot, MASK5)
  }

  function RegularLength(q: Sequence): bv32 { Get(q.seq1, 20, MASK4) + 1 }

  function InjectedLength(inj: bv32): bv32 { Get(inj, 20, MASK2) + 1 }

  // ----- The calls -----

  /** The sample-time part of both channel calls. */
  function SetTime(t: Times, channel: bv32, time: bv32): Times
    requires IsChannel(channel)
  {
    if channel > 9 then t.(tim1 := Put(t.tim1, 3 * (channel - 10), MASK3, time))
    else t.(tim2 := Put(t.tim2, 3 * channel, MASK3, time))
  }

  function SetRank(q: Sequence, rank: bv32, channel: bv32): Sequence
    requires IsRank(rank)
  {
    if rank < 7 then q.(seq3 := Put(q.seq3, 5 * (rank - 1), MASK5, channel))
    else if rank < 13 then q.(seq2 := Put(q.seq2, 5 * (rank - 7), MASK5, channel))
    else q.(seq1 := Put(q.seq1, 5 * (rank - 13), MASK5, channel))
  }

  /** The slot of injected rank `rank` when the group has `length` ranks. */
  function SlotOf(length: bv32, rank: bv32): bv32 { (rank + 3) - length }

  lemma InjectedLengthRange(inj: bv32)
    ensures 1 <= InjectedLength(inj) <= 4
  {
  }

  /** Ranks within the length use the last `length` of the four channel slots, and only
      those do. */
  lemma SlotRange(length: bv32, rank: bv32)
    requires 1 <= rank <= 4 && 1 <= length <= 4
    ensures SlotOf(length, rank) <= 6
    ensures rank <= length <==> SlotOf(length, rank) <= 3
  {
  }

  /** Consecutive ranks use consecutive slots, and the last rank of a group slot 3. */
  lemma SlotOrder(length: bv32, rank: bv32)
    requires 1 <= rank <= 4 && 1 <= length <= 4
    ensures SlotOf(length, length) == 3
    ensures SlotOf(length, rank) == rank + 3 - length
    ensures rank < 4 ==> SlotOf(length, rank + 1) == SlotOf(length, rank) + 1
  {
  }

  function SetSlot(inj: bv32, slot: bv32, channel: bv32): bv32
    requires slot <= 6
  {
    Put(inj, 5 * slot, MASK5, channel)
  }

  function SetInjected(inj: bv32, rank: bv32, channel: bv32): bv32
    requires 1 <= rank <= 4
  {
    InjectedLengthRange(inj);
    SlotRange(InjectedLength(inj), rank);
    SetSlot(inj, SlotOf(InjectedLength(inj), rank), channel)
  }

  function SetInjectedLength(inj: bv32, length: bv32): bv32 { Put(inj, 20, MASK2, length - 1) }

  function SetRegularLength(q: Sequence, length: bv32): Sequence
  {
    q.(seq1 := Put(q.seq1, 20, MASK4, length - 1))
  }

  datatype Call =
    | ConfigRegularChannel(channel: bv32, rank: bv32, time: bv32)
    | ConfigInjectedChannel(channel: bv32, rank: bv32, time: bv32)
    | ConfigInjectedSequencerLength(length: bv32)
    | ConfigLength(length: bv32)

  /** The documented parameter ranges. */
  predicate InRange(c: Call)
  {
    match c
    case ConfigRegularChannel(channel, rank, time) => IsChannel(channel) && IsRank(rank) && time <= MASK3
    case ConfigInjectedChannel(channel, rank, time) => IsChannel(channel) && 1 <= rank <= 4 && time <= MASK3
    case ConfigInjectedSequencerLength(length) => 1 <= length <= 4
    case ConfigLength(length) => 1 <= length <= 16
  }

  function Apply(a: Regs, c: Call): Regs
    requires InRange(c)
  {
    match c
    case ConfigRegularChannel(channel, rank, time) =>
      a.(times := SetTime(a.times, channel, time), regular := SetRank(a.regular, rank, channel))
    case ConfigInjectedChannel(channel, rank, time) =>
      a.(times := SetTime(a.times, channel, time), injSeq := SetInjected(a.injSeq, rank, channel))
    case ConfigInjectedSequencerLength(length) => a.(injSeq := SetInjectedLength(a.injSeq, length))
    case ConfigLength(length) => a.(regular := SetRegularLength(a.regular, length))
  }

  // ----- One field at a time -----

  lemma SetTimeExact(t: Times, channel: bv32, time: bv32, other: bv32)
    requires IsChannel(channel) && IsChannel(other) && time <= MASK3
    ensures SampleTime(SetTime(t, channel, time), other) == if other == channel then time else SampleTime(t, other)
  {
    if channel > 9 {
      PutGet(t.tim1, 3 * (channel - 10), MASK3, time);
      if other > 9 && other != channel {
        PutElsewhere(t.tim1, 3 * (channel - 10), MASK3, time, 3 * (other - 10), MASK3);
      }
    } else {
      PutGet(t.tim2, 3 * channel, MASK3, time);
      if other <= 9 && other != channel {
        PutElsewhere(t.tim2, 3 * channel, MASK3, time, 3 * other, MASK3);
      }
    }
  }

  lemma SetRankExact(q: Sequence, rank: bv32, channel: bv32, other: bv32)
    requires IsRank(rank) && IsRank(other) && IsChannel(channel)
    ensures Regular(SetRank(q, rank, channel), other) == if other == rank then channel else Regular(q, other)
  {
    if rank < 7 {
      PutGet(q.seq3, 5 * (rank - 1), MASK5, channel);
      if other < 7 && other != rank {
        PutElsewhere(q.seq3, 5 * (rank - 1), MASK5, channel, 5 * (other - 1), MASK5);
      }
    } else if rank < 13 {
      PutGet(q.seq2, 5 * (rank - 7), MASK5, channel);
      if 7 <= other < 13 && other != rank {
        PutElsewhere(q.seq2, 5 * (rank - 7), MASK5, channel, 5 * (other - 7), MASK5);
      }
    } else {
      PutGet(q.seq1, 5 * (rank - 13), MASK5, channel);
      if other >= 13 && other != rank {
        PutElsewhere(q.seq1, 5 * (rank - 13), MASK5, channel, 5 * (other - 13), MASK5);
      }
    }
  }

  lemma SetRankKeepsLength(q: Sequence, rank: bv32, channel: bv32)
    requires IsRank(rank) && IsChannel(channel)
    ensures RegularLength(SetRank(q, rank, channel)) == RegularLength(q)
  {
    if rank >= 13 {
      PutElsewhere(q.seq1, 5 * (rank - 13), MASK5, channel, 20, MASK4);
    }
  }

  /** What of a channel reaches its slot: the last one holds two bits only. */
  function Reaching(slot: bv32, channel: bv32): bv32
  {
    if slot == 6 then channel & 3 else channel
  }

  /** The mask of a slot. */
  function SlotMask(slot: bv32): bv32 { if slot == 6 then MASK2 else MASK5 }

  lemma LastSlot(inj: bv32, channel: bv32)
    ensures Put(inj, 30, MASK5, channel) == Put(inj, 30, MASK2, channel & 3)
    ensures channel & 3 <= MASK2
  {
  }

  /** The slots are fields that do not overlap. */
  lemma SlotsApart(at: bv32, slot: bv32)
    requires at <= 6 && slot <= 6 && at != slot
    ensures IsField(5 * at, SlotMask(at)) && IsField(5 * slot, SlotMask(slot))
    ensures Apart(5 * at, SlotMask(at), 5 * slot, SlotMask(slot))
  {
  }

  lemma SetSlotExact(inj: bv32, at: bv32, channel: bv32, slot: bv32)
    requires at <= 6 && slot <= 6 && IsChannel(channel)
    ensures Injected(SetSlot(inj, at, channel), slot) == if slot == at then Reaching(at, channel) else Injected(inj, slot)
  {
    LastSlot(inj, channel);
    if slot == at {
      PutGet(inj, 5 * at, SlotMask(at), Reaching(at, channel));
    } else {
      SlotsApart(at, slot);
      PutElsewhere(inj, 5 * at, SlotMask(at), Reaching(at, channel), 5 * slot, SlotMask(slot));
    }
  }

  /** The length after a write to a slot: slot 4 holds it. */
  function LengthAfter(slot: bv32, channel: bv32, length: bv32): bv32
  {
    if slot == 4 then (channel & 3) + 1 else length
  }

  /** Slot 4 with its length part replaced. */
  function WithLength(group: bv32, length: bv32): bv32 { (group & 0x1C) | (length - 1) }

  /** A write reaches the length field through slot 4 only. */
  lemma SetSlotLength(inj: bv32, at: bv32, channel: bv32)
    requires at <= 6 && IsChannel(channel)
    ensures InjectedLength(SetSlot(inj, at, channel)) == LengthAfter(at, channel, InjectedLength(inj))
  {
    if at == 4 {
      LengthFromSlot(inj, channel);
    } else {
      LastSlot(inj, channel);
      PutElsewhere(inj, 5 * at, SlotMask(at), Reaching(at, channel), 20, MASK2);
    }
  }

  lemma LengthFromSlot(inj: bv32, channel: bv32)
    ensures Get(Put(inj, 20, MASK5, channel), 20, MASK2) == channel & 3
  {
  }

  lemma SetLengthRead(inj: bv32, length: bv32)
    requires 1 <= length <= 4
    ensures InjectedLength(SetInjectedLength(inj, length)) == length
  {
    PutGet(inj, 20, MASK2, length - 1);
  }

  /** Setting the length touches its own part of slot 4 only. */
  lemma SetLengthSlot(inj: bv32, length: bv32, slot: bv32)
    requires 1 <= length <= 4 && slot <= 6
    ensures Injected(SetInjectedLength(inj, length), slot) ==
            if slot == 4 then WithLength(Injected(inj, slot), length) else Injected(inj, slot)
  {
    if slot == 4 {
      LengthPart(inj, length - 1);
    } else {
      PutElsewhere(inj, 20, MASK2, length - 1, 5 * slot, SlotMask(slot));
    }
  }

  lemma LengthPart(inj: bv32, code: bv32)
    requires code <= MASK2
    ensures Get(Put(inj, 20, MASK2, code), 20, MASK5) == (Get(inj, 20, MASK5) & 0x1C) | code
  {
  }

  // ----- Maps -----

  /** The maps the registers stand for. */
  datatype Maps = Maps(
    regular: bv32 -> bv32,
    time: bv32 -> bv32,
    injected: bv32 -> bv32,
    regularLength: bv32,
    injectedLength: bv32)

  function Update(f: bv32 -> bv32, k: bv32, v: bv32): bv32 -> bv32
  {
    (x: bv32) => if x == k then v else f(x)
  }

  /** What each call means: it changes its own keys only. An injected rank beyond the
      length is written outside the channel slots. */
  function Meaning(m: Maps, c: Call): Maps
  {
    match c
    case ConfigRegularChannel(channel, rank, time) =>
      m.(regular := Update(m.regular, rank, channel), time := Update(m.time, channel, time))
    case ConfigInjectedChannel(channel, rank, time) =>
      var slot := SlotOf(m.injectedLength, rank);
      m.(injected := Update(m.injected, slot, Reaching(slot, channel)),
         injectedLength := LengthAfter(slot, channel, m.injectedLength),
         time := Update(m.time, channel, time))
    case ConfigInjectedSequencerLength(length) =>
      m.(injected := Update(m.injected, 4, WithLength(m.injected(4), length)), injectedLength := length)
    case ConfigLength(length) => m.(regularLength := length)
  }

  ghost predicate RegularIs(q: Sequence, f: bv32 -> bv32, length: bv32)
  {
    RegularLength(q) == length && forall rank :: IsRank(rank) ==> Regular(q, rank) == f(rank)
  }

  ghost predicate TimesAre(t: Times, f: bv32 -> bv32)
  {
    forall channel :: IsChannel(channel) ==> SampleTime(t, channel) == f(channel)
  }

  ghost predicate InjectedIs(inj: bv32, f: bv32 -> bv32, length: bv32)
  {
    InjectedLength(inj) == length && forall slot :: slot <= 6 ==> Injected(inj, slot) == f(slot)
  }

  /** The registers decode to the maps. */
  ghost predicate Represents(a: Regs, m: Maps)
  {
    && RegularIs(a.regular, m.regular, m.regularLength)
    && TimesAre(a.times, m.time)
    && InjectedIs(a.injSeq, m.injected, m.injectedLength)
  }

  lemma TimeStep(t: Times, f: bv32 -> bv32, channel: bv32, time: bv32)
    requires TimesAre(t, f) && IsChannel(channel) && time <= MASK3
    ensures TimesAre(SetTime(t, channel, time), Update(f, channel, time))
  {
    forall other | IsChannel(other)
      ensures SampleTime(SetTime(t, channel, time), other) == Update(f, channel, time)(other)
    {
      SetTimeExact(t, channel, time, other);
    }
  }

  lemma RankStep(q: Sequence, f: bv32 -> bv32, length: bv32, rank: bv32, channel: bv32)
    requires RegularIs(q, f, length) && IsRank(rank) && IsChannel(channel)
    ensures RegularIs(SetRank(q, rank, channel), Update(f, rank, channel), length)
  {
    SetRankKeepsLength(q, rank, channel);
    forall other | IsRank(other)
      ensures Regular(SetRank(q, rank, channel), other) == Update(f, rank, channel)(other)
    {
      SetRankExact(q, rank, channel, other);
    }
  }

  /** Injected rank r of a group of length L lands in slot r + 3 - L, also when that is
      beyond the four channel slots. */
  lemma InjectedStep(inj: bv32, f: bv32 -> bv32, length: bv32, rank: bv32, channel: bv32)
    requires InjectedIs(inj, f, length) && 1 <= rank <= 4 && IsChannel(channel)
    ensures var at := SlotOf(length, rank);
      InjectedIs(SetInjected(inj, rank, channel), Update(f, at, Reaching(at, channel)),
                 LengthAfter(at, channel, length))
  {
    InjectedLengthRange(inj);
    SlotRange(length, rank);
    var at := SlotOf(length, rank);
    SetSlotLength(inj, at, channel);
    forall slot: bv32 | slot <= 6
      ensures Injected(SetSlot(inj, at, channel), slot) == Update(f, at, Reaching(at, channel))(slot)
    {
      SetSlotExact(inj, at, channel, slot);
    }
  }

  lemma InjectedLengthStep(inj: bv32, f: bv32 -> bv32, length: bv32, newLength: bv32)
    requires InjectedIs(inj, f, length) && 1 <= newLength <= 4
    ensures InjectedIs(SetInjectedLength(inj, newLength), Update(f, 4, WithLength(f(4), newLength)), newLength)
  {
    SetLengthRead(inj, newLength);
    forall slot: bv32 | slot <= 6
      ensures Injected(SetInjectedLength(inj, newLength), slot) == Update(f, 4, WithLength(f(4), newLength))(slot)
    {
      SetLengthSlot(inj, newLength, slot);
    }
  }

  lemma RegularLengthRead(q: Sequence, length: bv32)
    requires 1 <= length <= 16
    ensures RegularLength(SetRegularLength(q, length)) == length
  {
    PutGet(q.seq1, 20, MASK4, length - 1);
  }

  lemma RegularLengthKeepsRank(q: Sequence, length: bv32, rank: bv32)
    requires 1 <= length <= 16 && IsRank(rank)
    ensures Regular(SetRegularLength(q, length), rank) == Regular(q, rank)
  {
    if rank >= 13 {
      PutElsewhere(q.seq1, 20, MASK4, length - 1, 5 * (rank - 13), MASK5);
    }
  }

  lemma LengthStep(q: Sequence, f: bv32 -> bv32, length: bv32, newLength: bv32)
    requires RegularIs(q, f, length) && 1 <= newLength <= 16
    ensures RegularIs(SetRegularLength(q, newLength), f, newLength)
  {
    RegularLengthRead(q, newLength);
    forall rank | IsRank(rank)
      ensures Regular(SetRegularLength(q, newLength), rank) == f(rank)
    {
      RegularLengthKeepsRank(q, newLength, rank);
    }
  }

  /** One call on the registers is one update of the maps. */
  lemma CallRefinesMaps(a: Regs, m: Maps, c: Call)
    requires Represents(a, m) && InRange(c)
    ensures Represents(Apply(a, c), Meaning(m, c))
  {
    match c
    case ConfigRegularChannel(channel, rank, time) =>
      TimeStep(a.times, m.time, channel, time);
      RankStep(a.regular, m.regular, m.regularLength, rank, channel);
    case ConfigInjectedChannel(channel, rank, time) =>
      TimeStep(a.times, m.time, channel, time);
      InjectedStep(a.injSeq, m.injected, m.injectedLength, rank, channel);
    case ConfigInjectedSequencerLength(length) =>
      InjectedLengthStep(a.injSeq, m.injected, m.injectedLength, length);
    case ConfigLength(length) =>
      LengthStep(a.regular, m.regular, m.regularLength, length);
  }

  // ----- Runs -----

  ghost predicate AllInRange(calls: seq<Call>)
  {
    forall i :: 0 <= i < |calls| ==> InRange(calls[i])
  }

  ghost function RunRegs(a: Regs, calls: seq<Call>): Regs
    requires AllInRange(calls)
    decreases |calls|
  {
    if calls == [] then a else RunRegs(Apply(a, calls[0]), calls[1..])
  }

  ghost function RunMaps(m: Maps, calls: seq<Call>): Maps
    decreases |calls|
  {
    if calls == [] then m else RunMaps(Meaning(m, calls[0]), calls[1..])
  }

  /** Over every run of in-range calls the registers decode to the maps. */
  lemma {:induction false} RunsRefineMaps(a: Regs, m: Maps, calls: seq<Call>)
    requires Represents(a, m) && AllInRange(calls)
    ensures Represents(RunRegs(a, calls), RunMaps(m, calls))
    decreases |calls|
  {
    if calls != [] {
      CallRefinesMaps(a, m, calls[0]);
      RunsRefineMaps(Apply(a, calls[0]), Meaning(m, calls[0]), calls[1..]);
    }
  }

  /** What an injected rank within the length promises, and exactly when: within the
      length, the channel is in its slot; beyond it, no channel slot changes; and the
      length survives if and only if the rank is not the next one beyond it or the
      channel happens to carry the same length. */
  lemma RankWithinLength(a: Regs, m: Maps, channel: bv32, rank: bv32, time: bv32)
    requires Represents(a, m) && InRange(ConfigInjectedChannel(channel, rank, time))
    ensures var b := Apply(a, ConfigInjectedChannel(channel, rank, time));
      var length := InjectedLength(a.injSeq);
      && (rank <= length ==> rank + 3 - length <= 3 && Injected(b.injSeq, rank + 3 - length) == channel)
      && (rank > length ==> forall slot: bv32 :: slot <= 3 ==> Injected(b.injSeq, slot) == Injected(a.injSeq, slot))
      && (InjectedLength(b.injSeq) == length <==> rank != length + 1 || (channel & 3) + 1 == length)
  {
    InjectedLengthRange(a.injSeq);
    SlotRange(InjectedLength(a.injSeq), rank);
    InjectedStep(a.injSeq, m.injected, m.injectedLength, rank, channel);
  }

  /** A rank beyond the length does harm: with a length of 1, configuring rank 2 for
      channel 1 makes the length 2 and leaves the four channel slots as they were. */
  lemma LengthOverwritten(a: Regs, m: Maps, time: bv32)
    requires Represents(a, m) && InjectedLength(a.injSeq) == 1 && time <= MASK3
    ensures var b := Apply(a, ConfigInjectedChannel(1, 2, time));
      && InjectedLength(b.injSeq) == 2
      && forall slot: bv32 :: slot <= 3 ==> Injected(b.injSeq, slot) == Injected(a.injSeq, slot)
  {
    RankWithinLength(a, m, 1, 2, time);
    InjectedStep(a.injSeq, m.injected, m.injectedLength, 2, 1);
  }

  const CLEAR: Regs := Regs(Sequence(0, 0, 0), Times(0, 0), 0)

  /** Where the fields are, on cleared registers: ranks 1, 8 and 16, sample times of channels
      3 and 17, the regular length, and the only rank of an injected group. */
  lemma RegisterExamples()
    ensures Apply(CLEAR, ConfigRegularChannel(3, 1, 5)) == Regs(Sequence(0, 0, 3), Times(0, 0xA00), 0)
    ensures Apply(CLEAR, ConfigRegularChannel(17, 8, 5)) == Regs(Sequence(0, 0x220, 0), Times(0xA0_0000, 0), 0)
    ensures Apply(CLEAR, ConfigRegularChannel(3, 16, 0)) == Regs(Sequence(0x1_8000, 0, 0), Times(0, 0), 0)
    ensures Apply(CLEAR, ConfigLength(16)) == Regs(Sequence(0xF0_0000, 0, 0), Times(0, 0), 0)
    ensures Apply(CLEAR, ConfigInjectedSequencerLength(4)) == Regs(Sequence(0, 0, 0), Times(0, 0), 0x30_0000)
    ensures Apply(CLEAR, ConfigInjectedChannel(3, 1, 0)) == Regs(Sequence(0, 0, 0), Times(0, 0), 0x1_8000)
  {
  }

  // ----- The driver -----

  class Adc {
    var regs: Regs

    constructor (initial: Regs)
      ensures regs == initial
    {
      regs := initial;
    }

    /** The read-modify-write all the calls share: clear the field, or the value in. */
    static method Replace(reg: bv32, shift: bv32, mask: bv32, value: bv32) returns (temp1: bv32)
      requires shift <= 31
      ensures temp1 == Put(reg, shift, mask, value)
    {
      temp1 := reg;
      var temp2 := mask << shift;
      temp1 := temp1 & !temp2;
      temp2 := value << shift;
      temp1 := temp1 | temp2;
    }

    /** The sample-time part of both channel calls. */
    method WriteTime(channel: bv32, time: bv32)
      requires IsChannel(channel)
      modifies this
      ensures regs == old(regs).(times := SetTime(old(regs).times, channel, time))
    {
      if channel > 9 {
        var temp := Replace(regs.times.tim1, 3 * (channel - 10), MASK3, time);
        regs := regs.(times := regs.times.(tim1 := temp));
      } else {
        var temp := Replace(regs.times.tim2, 3 * channel, MASK3, time);
        regs := regs.(times := regs.times.(tim2 := temp));
      }
    }

    /** ADC_ConfigRegularChannel. */
    method RegularChannel(channel: bv32, rank: bv32, time: bv32)
      requires InRange(ConfigRegularChannel(channel, rank, time))
      modifies this
      ensures regs == Apply(old(regs), ConfigRegularChannel(channel, rank, time))
    {
      WriteTime(channel, time);
      if rank < 7 {
        var temp := Replace(regs.regular.seq3, 5 * (rank - 1), MASK5, channel);
        regs := regs.(regular := regs.regular.(seq3 := temp));
      } else if rank < 13 {
        var temp := Replace(regs.regular.seq2, 5 * (rank - 7), MASK5, channel);
        regs := regs.(regular := regs.regular.(seq2 := temp));
      } else {
        var temp := Replace(regs.regular.seq1, 5 * (rank - 13), MASK5, channel);
        regs := regs.(regular := regs.regular.(seq1 := temp));
      }
    }

    /** ADC_ConfigInjectedChannel. */
    method InjectedChannel(channel: bv32, rank: bv32, time: bv32)
      requires InRange(ConfigInjectedChannel(channel, rank, time))
      modifies this
      ensures regs == Apply(old(regs), ConfigInjectedChannel(channel, rank, time))
    {
      WriteTime(channel, time);
      InjectedLengthRange(regs.injSeq);
      SlotRange(InjectedLength(regs.injSeq), rank);
      var temp3 := Get(regs.injSeq, 20, MASK2);
      var temp := Replace(regs.injSeq, 5 * ((rank + 3) - (temp3 + 1)), MASK5, channel);
      regs := regs.(injSeq := temp);
    }

    /** ADC_ConfigInjectedSequencerLength. */
    method InjectedSequencerLength(length: bv32)
      requires 1 <= length <= 4
      modifies this
      ensures regs == Apply(old(regs), ConfigInjectedSequencerLength(length))
    {
      var temp := Replace(regs.injSeq, 20, MASK2, length - 1);
      regs := regs.(injSeq := temp);
    }

    /** The sequence-length part of ADC_Config. */
    method SequenceLength(length: bv32)
      requires 1 <= length <= 16
      modifies this
      ensures regs == Apply(old(regs), ConfigLength(length))
    {
      var temp := Replace(regs.regular.seq1, 20, MASK4, length - 1);
      regs := regs.(regular := regs.regular.(seq1 := temp));
    }
  }
}
