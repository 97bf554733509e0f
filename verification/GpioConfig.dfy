/** GPIO_Config: the per-pin configuration nibbles and the pull-up and pull-down latch writes. */
module GpioConfig {
  import opened BitFields

  const MODE_IN_PD: bv32 := 0x28
  const MODE_IN_PU: bv32 := 0x48

  /** CFGLOW, CFGHIG and the output latch, as the set of pins driven high: a write
      of one pin to BC removes it, to BSC adds it. */
  datatype Port = Port(low: bv32, high: bv32, latch: set<bv32>)

  datatype Settings = Settings(pin: bv32, mode: bv32, speed: bv32)

  /** The four configuration bits: the mode, with the speed for an output. */
  function ModeBits(c: Settings): bv32
  {
    if c.mode & 0x80 != 0 then (c.mode & 0x0F) | c.speed else c.mode & 0x0F
  }

  lemma ModeFits(c: Settings)
    requires c.speed <= 3
    ensures ModeBits(c) <= MASK4
  {
  }

  /** What the nibble of a pin is: for an output mode the speed in its low two bits and the
      kind of output in its high two, for an input mode the low four bits of the mode. */
  lemma ModeNibble(c: Settings)
    requires c.speed <= 3
    ensures c.mode & 0x80 != 0 && c.mode & 3 == 0 ==>
      ModeBits(c) & 3 == c.speed && ModeBits(c) & 0xC == c.mode & 0xC
    ensures c.mode & 0x80 == 0 ==> ModeBits(c) == c.mode & 0xF
    ensures ModeBits(c) <= 0xF
  {
  }

  /** Push-pull output at 50 MHz, floating input and pulled input, as nibbles. */
  lemma ModeExamples()
    ensures ModeBits(Settings(1, 0x80, 3)) == 3 && ModeBits(Settings(1, 0x04, 3)) == 4
    ensures ModeBits(Settings(1, MODE_IN_PD, 0)) == 8 && ModeBits(Settings(1, MODE_IN_PU, 0)) == 8
  {
  }

  /** Configuration nibble j of a register. */
  function Nibble(r: bv32, j: bv32): bv32
    requires j <= 7
  {
    Get(r, 4 * j, MASK4)
  }

  predicate Selected(pin: bv32, j: bv32)
    requires j <= 15
  {
    pin & (1 << j) != 0
  }

  /** A mask with one pin selects that pin. */
  lemma SelectsOne(i: bv32, j: bv32)
    requires i <= 15 && j <= 15
    ensures Selected(1 << i, j) <==> i == j
  {
  }

  // ----- One register -----

  /** What nibble j is to become: the mode if its pin is selected, else as in r0. */
  function Wanted(r0: bv32, pin: bv32, base: bv32, mode: bv32, j: bv32): bv32
    requires base <= 8 && j <= 7
  {
    if Selected(pin, base + j) then mode else Nibble(r0, j)
  }

  /** The first `count` nibbles of r are as wanted, the others as in r0. */
  ghost predicate HalfDone(r0: bv32, r: bv32, pin: bv32, base: bv32, mode: bv32, count: bv32)
    requires base <= 8
  {
    forall j :: j <= 7 ==> Nibble(r, j) == if j < count then Wanted(r0, pin, base, mode, j) else Nibble(r0, j)
  }

  /** Writing the mode into nibble i, if its pin is selected, extends the done part by one. */
  lemma HalfStep(r0: bv32, r: bv32, pin: bv32, base: bv32, mode: bv32, i: bv32)
    requires base <= 8 && i <= 7 && mode <= MASK4 && HalfDone(r0, r, pin, base, mode, i)
    ensures HalfDone(r0, HalfNext(r, pin, base, mode, i), pin, base, mode, i + 1)
  {
    forall j | j <= 7
      ensures Nibble(HalfNext(r, pin, base, mode, i), j) ==
              if j < i + 1 then Wanted(r0, pin, base, mode, j) else Nibble(r0, j)
    {
      HalfNextNibble(r0, r, pin, base, mode, i, j);
    }
  }

  function HalfNext(r: bv32, pin: bv32, base: bv32, mode: bv32, i: bv32): bv32
    requires base <= 8 && i <= 7
  {
    if Selected(pin, base + i) then Put(r, 4 * i, MASK4, mode) else r
  }

  lemma HalfNextNibble(r0: bv32, r: bv32, pin: bv32, base: bv32, mode: bv32, i: bv32, j: bv32)
    requires base <= 8 && i <= 7 && j <= 7 && mode <= MASK4
    requires Nibble(r, j) == if j < i then Wanted(r0, pin, base, mode, j) else Nibble(r0, j)
    ensures Nibble(HalfNext(r, pin, base, mode, i), j) ==
            if j < i + 1 then Wanted(r0, pin, base, mode, j) else Nibble(r0, j)
  {
    HalfNextChanges(r, pin, base, mode, i, j);
    if i == j {
      assert Wanted(r0, pin, base, mode, j) == Wanted(r, pin, base, mode, j);
    }
  }

  /** One iteration changes its own nibble only. */
  lemma HalfNextChanges(r: bv32, pin: bv32, base: bv32, mode: bv32, i: bv32, j: bv32)
    requires base <= 8 && i <= 7 && j <= 7 && mode <= MASK4
    ensures Nibble(HalfNext(r, pin, base, mode, i), j) ==
            if j == i then Wanted(r, pin, base, mode, j) else Nibble(r, j)
  {
    if Selected(pin, base + i) {
      NibbleWrite(r, mode, i, j);
    }
  }

  lemma NibbleWrite(r: bv32, mode: bv32, i: bv32, j: bv32)
    requires i <= 7 && j <= 7 && mode <= MASK4
    ensures Nibble(Put(r, 4 * i, MASK4, mode), j) == if j == i then mode else Nibble(r, j)
  {
    if j == i {
      PutGet(r, 4 * i, MASK4, mode);
    } else {
      PutElsewhere(r, 4 * i, MASK4, mode, 4 * j, MASK4);
    }
  }

  // ----- The pull writes -----

  /** The pull write for pin j, by mode. */
  function PullPin(latch: set<bv32>, mode: bv32, j: bv32): set<bv32>
  {
    if mode == MODE_IN_PD then latch - {j} else if mode == MODE_IN_PU then latch + {j} else latch
  }

  /** Whether pin j ends up high if it is pulled, and as it was otherwise. */
  predicate High(before: bool, mode: bv32, pulled: bool)
  {
    if pulled && mode == MODE_IN_PD then false
    else if pulled && mode == MODE_IN_PU then true
    else before
  }

  /** Exactly the selected pins among from..to were pulled. */
  ghost predicate PullsDone(before: set<bv32>, after: set<bv32>, mode: bv32, pin: bv32, from: bv32, to: bv32)
    requires to <= 16
  {
    forall j: bv32 :: j in after <==> High(j in before, mode, from <= j < to && Selected(pin, j))
  }

  lemma PullStep(before: set<bv32>, after: set<bv32>, mode: bv32, pin: bv32, from: bv32, i: bv32)
    requires from <= i <= 15 && PullsDone(before, after, mode, pin, from, i)
    ensures PullsDone(before, if Selected(pin, i) then PullPin(after, mode, i) else after, mode, pin, from, i + 1)
  {
  }

  lemma PullBoth(p: set<bv32>, q: set<bv32>, r: set<bv32>, mode: bv32, pin: bv32)
    requires PullsDone(p, q, mode, pin, 0, 8) && PullsDone(q, r, mode, pin, 8, 16)
    ensures PullsDone(p, r, mode, pin, 0, 16)
  {
  }

  // ----- The whole call -----

  /** The state GPIO_Config leads to: in each register exactly the selected nibbles
      hold the mode, and exactly the selected pins were pulled. */
  ghost predicate Configured(p: Port, q: Port, c: Settings)
  {
    && HalfDone(p.low, q.low, c.pin, 0, ModeBits(c), 8)
    && HalfDone(p.high, q.high, c.pin, 8, ModeBits(c), 8)
    && PullsDone(p.latch, q.latch, c.mode, c.pin, 0, 16)
  }

  /** What that means for the pull-down and pull-up inputs, and for all other modes. */
  lemma PullsMean(p: Port, q: Port, c: Settings, j: bv32)
    requires Configured(p, q, c) && j <= 15
    ensures Selected(c.pin, j) && c.mode == 0x28 ==> j !in q.latch
    ensures Selected(c.pin, j) && c.mode == 0x48 ==> j in q.latch
    ensures !Selected(c.pin, j) || (c.mode != 0x28 && c.mode != 0x48) ==> (j in q.latch <==> j in p.latch)
  {
    assert j in q.latch <==> High(j in p.latch, c.mode, 0 <= j < 16 && Selected(c.pin, j));
  }

  /** Pin 1 as a push-pull output at 50 MHz, on a cleared port. */
  lemma OutputExample(q: Port)
    requires Configured(Port(0, 0, {}), q, Settings(0x0002, 0x80, 3))
    ensures q == Port(0x30, 0, {})
  {
    assert ModeBits(Settings(0x0002, 0x80, 3)) == 3;
    WantedOne(1, 0x0002, 0, 3, 1);
    WantedOne(1, 0x0002, 8, 3, 8);
    OnePin(0, q.low, 0x0002, 0, 3, 1, 0x30);
    OnePin(0, q.high, 0x0002, 8, 3, 8, 0);
    assert forall j :: j !in q.latch;
  }

  /** Pin 15 as a pulled-up input, on a cleared port. */
  lemma InputExample(q: Port)
    requires Configured(Port(0, 0, {}), q, Settings(0x8000, 0x48, 0))
    ensures q == Port(0, 0x8000_0000, {15})
  {
    assert ModeBits(Settings(0x8000, 0x48, 0)) == 8;
    WantedOne(15, 0x8000, 0, 8, 8);
    WantedOne(15, 0x8000, 8, 8, 7);
    OnePin(0, q.low, 0x8000, 0, 8, 8, 0);
    OnePin(0, q.high, 0x8000, 8, 8, 7, 0x8000_0000);
    forall j: bv32
      ensures j in q.latch <==> j == 15
    {
      if j <= 15 {
        SelectsOne(15, j);
      }
    }
  }

  lemma WantedOne(k: bv32, pin: bv32, base: bv32, mode: bv32, i: bv32)
    requires k <= 15 && pin == 1 << k && (base == 0 || base == 8) && mode <= MASK4
    requires i == if base <= k < base + 8 then k - base else 8
    ensures forall j: bv32 :: j <= 7 ==> Wanted(0, pin, base, mode, j) == (if j == i then mode else 0)
  {
    forall j: bv32 | j <= 7
      ensures Wanted(0, pin, base, mode, j) == if j == i then mode else 0
    {
      SelectsOne(k, base + j);
      NibbleOf(mode, 8, j);
    }
  }

  /** A cleared register after its pin i, or none if i is 8, was given a mode. */
  lemma OnePin(r0: bv32, r: bv32, pin: bv32, base: bv32, mode: bv32, i: bv32, want: bv32)
    requires r0 == 0 && (base == 0 || base == 8) && i <= 8 && mode <= MASK4
    requires HalfDone(r0, r, pin, base, mode, 8)
    requires forall j: bv32 :: j <= 7 ==> Wanted(0, pin, base, mode, j) == (if j == i then mode else 0)
    requires want == if i == 8 then 0 else mode << (4 * i)
    ensures r == want
  {
    forall j: bv32 | j <= 7
      ensures Nibble(r, j) == Nibble(want, j)
    {
      NibbleOf(mode, i, j);
    }
    NibblesDetermine(r, want);
  }

  lemma NibbleOf(mode: bv32, i: bv32, j: bv32)
    requires i <= 8 && j <= 7 && mode <= MASK4
    ensures Nibble(0, j) == 0
    ensures i < 8 ==> Nibble(mode << (4 * i), j) == if i == j then mode else 0
  {
    if i < 8 {
      NibbleWrite(0, mode, i, j);
      assert Put(0, 4 * i, MASK4, mode) == mode << (4 * i);
    }
  }

  class Gpio {
    var port: Port

    constructor (initial: Port)
      ensures port == initial
    {
      port := initial;
    }

    /** The loop body of GPIO_Config for pin base + i, if it is selected. */
    method ConfigPin(c: Settings, mode: bv32, base: bv32, i: bv32, cr0: bv32) returns (cr: bv32)
      requires base <= 8 && i <= 7
      modifies this
      ensures cr == HalfNext(cr0, c.pin, base, mode, i)
      ensures port == old(port).(latch := if Selected(c.pin, base + i)
        then PullPin(old(port).latch, c.mode, base + i) else old(port).latch)
    {
      cr := cr0;
      if Selected(c.pin, base + i) {
        cr := Put(cr, 4 * i, MASK4, mode);
        if c.mode == MODE_IN_PD {
          port := port.(latch := port.latch - {base + i});
        } else if c.mode == MODE_IN_PU {
          port := port.(latch := port.latch + {base + i});
        }
      }
    }

    /** One of the two loops of GPIO_Config, over the pins base..base+7. */
    method ConfigHalf(c: Settings, mode: bv32, base: bv32, cr0: bv32) returns (cr: bv32)
      requires (base == 0 || base == 8) && mode <= MASK4
      modifies this
      ensures HalfDone(cr0, cr, c.pin, base, mode, 8)
      ensures port == old(port).(latch := port.latch)
      ensures PullsDone(old(port).latch, port.latch, c.mode, c.pin, base, base + 8)
    {
      cr := cr0;
      var i: bv32 := 0;
      while i < 8
        invariant i <= 8
        invariant HalfDone(cr0, cr, c.pin, base, mode, i)
        invariant port == old(port).(latch := port.latch)
        invariant PullsDone(old(port).latch, port.latch, c.mode, c.pin, base, base + i)
        decreases 8 - i
      {
        HalfStep(cr0, cr, c.pin, base, mode, i);
        PullStep(old(port).latch, port.latch, c.mode, c.pin, base, base + i);
        cr := ConfigPin(c, mode, base, i, cr);
        i := i + 1;
      }
    }

    /** GPIO_Config. */
    method Config(c: Settings)
      requires c.speed <= 3
      modifies this
      ensures Configured(old(port), port, c)
    {
      ModeFits(c);
      var mode := ModeBits(c);
      ghost var start := port;
      if c.pin & 0xFF != 0 {
        var cr := ConfigHalf(c, mode, 0, port.low);
        port := port.(low := cr);
      } else {
        SkippedLoop(port.low, port.latch, c, 0, mode);
      }
      ghost var middle := port;
      assert HalfDone(start.low, middle.low, c.pin, 0, mode, 8);
      assert PullsDone(start.latch, middle.latch, c.mode, c.pin, 0, 8);
      if c.pin & 0xFF00 != 0 {
        var cr := ConfigHalf(c, mode, 8, port.high);
        port := port.(high := cr);
      } else {
        SkippedLoop(port.high, port.latch, c, 8, mode);
      }
      assert HalfDone(middle.high, port.high, c.pin, 8, mode, 8);
      PullBoth(start.latch, middle.latch, port.latch, c.mode, c.pin);
    }
  }

  /** Skipping a loop because none of its pins is selected. */
  lemma SkippedLoop(r: bv32, latch: set<bv32>, c: Settings, base: bv32, mode: bv32)
    requires (base == 0 || base == 8) && c.pin & (0xFF << base) == 0
    ensures HalfDone(r, r, c.pin, base, mode, 8)
    ensures PullsDone(latch, latch, c.mode, c.pin, base, base + 8)
  {
    forall j: bv32 | j <= 7
      ensures Wanted(r, c.pin, base, mode, j) == Nibble(r, j)
    {
      NotSelected(c.pin, base, j);
    }
    forall j: bv32 | base <= j < base + 8
      ensures !Selected(c.pin, j)
    {
      NotSelected(c.pin, base, j - base);
    }
  }

  lemma NotSelected(pin: bv32, base: bv32, j: bv32)
    requires (base == 0 || base == 8) && j <= 7 && pin & (0xFF << base) == 0
    ensures !Selected(pin, base + j)
  {
  }

  // ----- Uniqueness and commutation -----

  /** A register is determined by its nibbles. */
  lemma NibblesDetermine(x: bv32, y: bv32)
    requires forall j: bv32 :: j <= 7 ==> Nibble(x, j) == Nibble(y, j)
    ensures x == y
  {
    assert Nibble(x, 0) == Nibble(y, 0) && Nibble(x, 1) == Nibble(y, 1);
    assert Nibble(x, 2) == Nibble(y, 2) && Nibble(x, 3) == Nibble(y, 3);
    assert Nibble(x, 4) == Nibble(y, 4) && Nibble(x, 5) == Nibble(y, 5);
    assert Nibble(x, 6) == Nibble(y, 6) && Nibble(x, 7) == Nibble(y, 7);
  }

  lemma SingleBit(pin: bv32, j: bv32)
    requires j <= 15
    ensures pin & (1 << j) == 0 || pin & (1 << j) == 1 << j
  {
  }

  lemma NotBoth(c: bv32, d: bv32, bit: bv32)
    requires c & d == 0 && (c & bit == 0 || c & bit == bit) && (d & bit == 0 || d & bit == bit)
    ensures c & bit == 0 || d & bit == 0
  {
  }

  /** No pin is selected by both masks. */
  ghost predicate NoneShared(c: bv32, d: bv32)
  {
    forall j: bv32 :: j <= 15 ==> !Selected(c, j) || !Selected(d, j)
  }

  lemma DisjointMasks(c: bv32, d: bv32)
    requires c & d == 0
    ensures NoneShared(c, d)
  {
    forall j: bv32 | j <= 15
      ensures !Selected(c, j) || !Selected(d, j)
    {
      SingleBit(c, j);
      SingleBit(d, j);
      NotBoth(c, d, 1 << j);
    }
  }

  /** Two configurations of disjoint pin sets commute. */
  lemma DisjointConfigsCommute(p: Port, a: Port, ab: Port, b: Port, ba: Port, c: Settings, d: Settings)
    requires c.pin & d.pin == 0
    requires Configured(p, a, c) && Configured(a, ab, d)
    requires Configured(p, b, d) && Configured(b, ba, c)
    ensures ab == ba
  {
    DisjointMasks(c.pin, d.pin);
    HalvesCommute(p.low, a.low, ab.low, b.low, ba.low, c.pin, d.pin, 0, ModeBits(c), ModeBits(d));
    HalvesCommute(p.high, a.high, ab.high, b.high, ba.high, c.pin, d.pin, 8, ModeBits(c), ModeBits(d));
    PullsCommute(p.latch, a.latch, ab.latch, b.latch, ba.latch, c, d);
  }

  lemma DoneAt(r0: bv32, r: bv32, pin: bv32, base: bv32, mode: bv32, j: bv32)
    requires base <= 8 && j <= 7 && HalfDone(r0, r, pin, base, mode, 8)
    ensures Nibble(r, j) == Wanted(r0, pin, base, mode, j)
  {
  }

  lemma HalvesCommute(r: bv32, a: bv32, ab: bv32, b: bv32, ba: bv32,
    c: bv32, d: bv32, base: bv32, m: bv32, n: bv32)
    requires base <= 8
    requires NoneShared(c, d)
    requires HalfDone(r, a, c, base, m, 8) && HalfDone(a, ab, d, base, n, 8)
    requires HalfDone(r, b, d, base, n, 8) && HalfDone(b, ba, c, base, m, 8)
    ensures ab == ba
  {
    forall j: bv32 | j <= 7
      ensures Nibble(ab, j) == Nibble(ba, j)
    {
      DoneAt(r, a, c, base, m, j);
      DoneAt(a, ab, d, base, n, j);
      DoneAt(r, b, d, base, n, j);
      DoneAt(b, ba, c, base, m, j);
      assert !Selected(c, base + j) || !Selected(d, base + j);
    }
    NibblesDetermine(ab, ba);
  }

  lemma PullsCommute(p: set<bv32>, a: set<bv32>, ab: set<bv32>, b: set<bv32>, ba: set<bv32>,
    c: Settings, d: Settings)
    requires NoneShared(c.pin, d.pin)
    requires PullsDone(p, a, c.mode, c.pin, 0, 16) && PullsDone(a, ab, d.mode, d.pin, 0, 16)
    requires PullsDone(p, b, d.mode, d.pin, 0, 16) && PullsDone(b, ba, c.mode, c.pin, 0, 16)
    ensures ab == ba
  {
    forall j: bv32
      ensures j in ab <==> j in ba
    {
      if j <= 15 {
        assert !Selected(c.pin, j) || !Selected(d.pin, j);
      }
      assert j in a <==> High(j in p, c.mode, 0 <= j < 16 && Selected(c.pin, j));
      assert j in b <==> High(j in p, d.mode, 0 <= j < 16 && Selected(d.pin, j));
    }
  }
}
