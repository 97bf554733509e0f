/** The clock tree: how the configuration register fields give the bus clocks. */
module ClockTree {
  import opened Words

  const HSI_VALUE: nat := 8_000_000

  /** The two device families: connectivity line and the others. */
  datatype Family = Standard | ConnectivityLine

  /** The external oscillator of a family, in Hz. */
  function HseValue(family: Family): nat
  {
    if family.Standard? then 8_000_000 else 25_000_000
  }

  /** The clock configuration fields, each as wide as its bit field. */
  datatype Rcm = Rcm(
    sclkSel: nat,
    pll1Src: nat,
    pllHsePsc: nat,
    pll1Mul: nat,
    pllPsc1: nat,
    pllPsc1Src: nat,
    pll2Mul: nat,
    pllPsc2: nat,
    ahbPsc: nat,
    apb1Psc: nat,
    apb2Psc: nat,
    adcPsc: nat)
  {
    predicate InRange()
    {
      && sclkSel < 4 && pll1Src < 2 && pllHsePsc < 2 && pll1Mul < 16
      && pllPsc1 < 16 && pllPsc1Src < 2 && pll2Mul < 16 && pllPsc2 < 16
      && ahbPsc < 16 && apb1Psc < 8 && apb2Psc < 8 && adcPsc < 4
    }
  }

  type Registers = r: Rcm | r.InRange() witness Rcm(0, 0, 0, 0, 0, 0, 0, 0, 0, 0, 0, 0)

  /** The input clock of the PLL on a connectivity-line device. */
  function PllInput(r: Registers): nat
  {
    if r.pll1Src != 0 then
      if r.pllPsc1Src != 0 then
        var pll2Mul := if r.pll2Mul != 15 then r.pll2Mul + 2 else 20;
        HseValue(ConnectivityLine) / (r.pllPsc2 + 1) * pll2Mul % TWO32 / (r.pllPsc1 + 1)
      else HseValue(ConnectivityLine) / (r.pllPsc1 + 1)
    else HSI_VALUE / 2
  }

  /** RCM_ReadSYSCLKFreq, in 32-bit arithmetic. */
  function SysClk(family: Family, r: Registers): nat
  {
    if r.sclkSel == 1 then HseValue(family)
    else if r.sclkSel != 2 then HSI_VALUE
    else if family.ConnectivityLine? then
      if r.pll1Mul == 13 then PllInput(r) * r.pll1Mul % TWO32 / 2
      else PllInput(r) * (r.pll1Mul + 2) % TWO32
    else if r.pll1Src == 1 then
      var clock := HseValue(family) * (r.pll1Mul + 2) % TWO32;
      if r.pllHsePsc == 1 then clock / 2 else clock
    else HSI_VALUE / 2 * (r.pll1Mul + 2) % TWO32
  }

  const AHB_SHIFT: seq<nat> := [0, 0, 0, 0, 0, 0, 0, 0, 1, 2, 3, 4, 6, 7, 8, 9]
  const APB_SHIFT: seq<nat> := [0, 0, 0, 0, 1, 2, 3, 4]
  const ADC_DIVIDER: seq<nat> := [2, 4, 6, 8]

  function Pow2(k: nat): (p: nat)
    ensures p >= 1
  {
    if k == 0 then 1 else 2 * Pow2(k - 1)
  }

  /** Right shift of an unsigned word. */
  function Shr(x: nat, k: nat): nat
    decreases k
  {
    if k == 0 then x else Shr(x / 2, k - 1)
  }

  /** RCM_ReadHCLKFreq. */
  function HClk(family: Family, r: Registers): nat
  {
    Shr(SysClk(family, r), AHB_SHIFT[r.ahbPsc])
  }

  /** RCM_ReadPCLKFreq. */
  function PClk1(family: Family, r: Registers): nat { Shr(HClk(family, r), APB_SHIFT[r.apb1Psc]) }

  function PClk2(family: Family, r: Registers): nat { Shr(HClk(family, r), APB_SHIFT[r.apb2Psc]) }

  /** RCM_ReadADCCLKFreq. */
  function AdcClk(family: Family, r: Registers): nat { PClk2(family, r) / ADC_DIVIDER[r.adcPsc] }

  function DividedBy(x: nat, d: nat): nat
    requires d > 0
  {
    x / d
  }

  /** The combined divider of two stages. */
  function Times(d: nat, e: nat): nat { d * e }

  /** q is x divided by d, rounded down. */
  ghost predicate IsFloor(q: nat, x: nat, d: nat)
  {
    d * q <= x < d * (q + 1)
  }

  lemma MulMonotone(d: nat, a: nat, b: nat)
    requires a <= b
    ensures d * a <= d * b
  {
  }

  lemma CancelLess(d: nat, a: nat, b: nat)
    requires d * a < d * b
    ensures a < b
  {
  }

  lemma FloorUnique(p: nat, q: nat, x: nat, d: nat)
    requires IsFloor(p, x, d) && IsFloor(q, x, d)
    ensures p == q
  {
    CancelLess(d, p, q + 1);
    CancelLess(d, q, p + 1);
  }

  /** Rounding down twice is rounding down once by the product. */
  lemma FloorCompose(x: nat, d: nat, q: nat, e: nat, p: nat)
    requires IsFloor(q, x, d) && IsFloor(p, q, e)
    ensures IsFloor(p, x, Times(d, e))
  {
    MulMonotone(d, e * p, q);
    MulMonotone(d, q + 1, e * (p + 1));
    Associate(d, e, p);
    Associate(d, e, p + 1);
  }

  lemma Associate(a: nat, b: nat, c: nat)
    ensures (a * b) * c == a * (b * c)
  {
  }

  lemma {:induction false} ShrIsFloor(x: nat, k: nat)
    ensures IsFloor(Shr(x, k), x, Pow2(k))
    decreases k
  {
    if k > 0 {
      ShrIsFloor(x / 2, k - 1);
      FloorCompose(x, 2, x / 2, Pow2(k - 1), Shr(x / 2, k - 1));
    }
  }

  /** A divider chain floors only once: each bus clock is the system clock divided by
      the product of the dividers on the way, rounded down. */
  lemma BusClocksFloorOnce(family: Family, r: Registers)
    ensures var ahb := Pow2(AHB_SHIFT[r.ahbPsc]);
      && IsFloor(HClk(family, r), SysClk(family, r), ahb)
      && IsFloor(PClk1(family, r), SysClk(family, r), Times(ahb, Pow2(APB_SHIFT[r.apb1Psc])))
      && IsFloor(PClk2(family, r), SysClk(family, r), Times(ahb, Pow2(APB_SHIFT[r.apb2Psc])))
      && IsFloor(AdcClk(family, r), SysClk(family, r),
                 Times(Times(ahb, Pow2(APB_SHIFT[r.apb2Psc])), ADC_DIVIDER[r.adcPsc]))
  {
    var clock, h := SysClk(family, r), HClk(family, r);
    var a, b1, b2 := Pow2(AHB_SHIFT[r.ahbPsc]), Pow2(APB_SHIFT[r.apb1Psc]), Pow2(APB_SHIFT[r.apb2Psc]);
    ShrIsFloor(clock, AHB_SHIFT[r.ahbPsc]);
    ShrIsFloor(h, APB_SHIFT[r.apb1Psc]);
    ShrIsFloor(h, APB_SHIFT[r.apb2Psc]);
    FloorCompose(clock, a, h, b1, PClk1(family, r));
    FloorCompose(clock, a, h, b2, PClk2(family, r));
    assert IsFloor(AdcClk(family, r), PClk2(family, r), ADC_DIVIDER[r.adcPsc]);
    FloorCompose(clock, Times(a, b2), PClk2(family, r), ADC_DIVIDER[r.adcPsc], AdcClk(family, r));
  }

  /** Without the PLL the system clock is an oscillator: the external one, or the internal
      one for the codes 0 and 3. */
  lemma OscillatorClocks(r: Registers)
    ensures r.sclkSel == 1 ==> SysClk(Standard, r) == 8_000_000 && SysClk(ConnectivityLine, r) == 25_000_000
    ensures r.sclkSel == 0 || r.sclkSel == 3 ==> forall family :: SysClk(family, r) == 8_000_000
  {
  }

  /** The bus codes below 8 and below 4 do not divide. */
  lemma UndividedBuses(family: Family, r: Registers)
    ensures r.ahbPsc < 8 ==> HClk(family, r) == SysClk(family, r)
    ensures r.apb1Psc < 4 ==> PClk1(family, r) == HClk(family, r)
    ensures r.apb2Psc < 4 ==> PClk2(family, r) == HClk(family, r)
  {
    assert r.ahbPsc < 8 ==> AHB_SHIFT[r.ahbPsc] == 0;
    assert r.apb1Psc < 4 ==> APB_SHIFT[r.apb1Psc] == 0;
    assert r.apb2Psc < 4 ==> APB_SHIFT[r.apb2Psc] == 0;
  }

  /** The ADC clock is PCLK2 divided by 2, 4, 6 or 8. */
  lemma AdcDivides(family: Family, r: Registers)
    ensures IsFloor(AdcClk(family, r), PClk2(family, r), 2 * r.adcPsc + 2)
  {
    assert ADC_DIVIDER[r.adcPsc] == 2 * r.adcPsc + 2;
    DivisionIsFloor(PClk2(family, r), ADC_DIVIDER[r.adcPsc]);
  }

  /** The PLL input of a connectivity-line device without the second PLL: half of HSI, or
      HSE divided by the first prescaler. */
  lemma PllInputExact(r: Registers)
    ensures r.pll1Src == 0 ==> PllInput(r) == 4_000_000
    ensures r.pll1Src == 1 && r.pllPsc1Src == 0 ==> IsFloor(PllInput(r), 25_000_000, r.pllPsc1 + 1)
  {
    DivisionIsFloor(25_000_000, r.pllPsc1 + 1);
  }

  /** With the second PLL: q, which is HSE divided by the second prescaler, multiplied by 2
      to 16 or 20, and divided by the first prescaler. The divisions round down, the
      multiplication is exact. */
  lemma SecondPllExact(r: Registers, q: nat)
    requires r.pll1Src == 1 && r.pllPsc1Src == 1 && IsFloor(q, 25_000_000, r.pllPsc2 + 1)
    ensures IsFloor(PllInput(r), Times(q, if r.pll2Mul == 15 then 20 else r.pll2Mul + 2), r.pllPsc1 + 1)
  {
    var mul := if r.pll2Mul == 15 then 20 else r.pll2Mul + 2;
    var hse := HseValue(ConnectivityLine) / (r.pllPsc2 + 1);
    DivisionIsFloor(25_000_000, r.pllPsc2 + 1);
    FloorUnique(q, hse, 25_000_000, r.pllPsc2 + 1);
    assert q <= 25_000_000;
    NoWrap(q, mul);
    DivisionIsFloor(Times(q, mul), r.pllPsc1 + 1);
    assert PllInput(r) == hse * mul % TWO32 / (r.pllPsc1 + 1);
  }

  lemma NoWrap(q: nat, mul: nat)
    requires q <= 25_000_000 && mul <= 20
    ensures q * mul % TWO32 == Times(q, mul)
  {
    MulMonotone(q, mul, 20);
  }

  lemma DivisionIsFloor(x: nat, d: nat)
    requires d > 0
    ensures IsFloor(x / d, x, d)
  {
    assert x == d * (x / d) + x % d;
  }

  /** The other multiplier codes of a connectivity-line device are exact as long as the
      32-bit product does not overflow. */
  lemma PllMultipliesInput(r: Registers)
    requires r.sclkSel == 2 && r.pll1Mul != 13
    ensures SysClk(ConnectivityLine, r) == PllInput(r) * (r.pll1Mul + 2) <==> PllInput(r) * (r.pll1Mul + 2) < TWO32
  {
    WrapLoses(PllInput(r) * (r.pll1Mul + 2));
  }

  /** The usual connectivity-line setting: 25 MHz / 5 * 8 / 5 * 9 is 72 MHz. */
  lemma ConnectivityAt72MHz()
    ensures var r := Rcm(2, 1, 0, 7, 4, 1, 6, 4, 0, 4, 0, 0);
      && r.InRange() && SysClk(ConnectivityLine, r) == 72_000_000
      && PClk1(ConnectivityLine, r) == 36_000_000 && PClk2(ConnectivityLine, r) == 72_000_000
  {
  }

  /** The PLL of a standard device multiplies HSE, half of HSE or half of HSI by 2 to
      17, exactly: multiplying before halving loses nothing. */
  lemma PllMultiplies(r: Registers)
    requires r.sclkSel == 2
    ensures var source := if r.pll1Src == 0 then HSI_VALUE / 2
        else if r.pllHsePsc == 1 then HseValue(Standard) / 2 else HseValue(Standard);
      SysClk(Standard, r) == source * (r.pll1Mul + 2)
  {
  }

  /** 6.5 times the PLL input, to half a hertz. */
  predicate SixAndAHalf(clock: nat, input: nat)
  {
    2 * clock <= 13 * input <= 2 * clock + 1
  }

  /** On a connectivity-line device the multiplier code 13 means 6.5; the system clock
      is that exactly when the 32-bit product does not overflow. */
  lemma PllSixAndAHalf(r: Registers)
    requires r.sclkSel == 2 && r.pll1Mul == 13
    ensures SixAndAHalf(SysClk(ConnectivityLine, r), PllInput(r)) <==> 13 * PllInput(r) < TWO32
  {
    WrapLoses(13 * PllInput(r));
  }

  /** A value that wraps around loses at least 2^32. */
  lemma WrapLoses(x: nat)
    ensures if x < TWO32 then x % TWO32 == x else x % TWO32 + TWO32 <= x
  {
  }

  /** The overflow is within reach of the registers: 500 MHz times 6.5 reads as
      1102.5 MHz. */
  lemma PllOverflows()
    ensures var r := Rcm(2, 1, 0, 13, 0, 1, 15, 0, 7, 3, 3, 0);
      r.InRange() && PllInput(r) == 500_000_000 && SysClk(ConnectivityLine, r) == 1_102_516_352
  {
  }

  /** On a standard device no setting of the clock tree exceeds 136 MHz. */
  lemma StandardClockBound(r: Registers)
    ensures SysClk(Standard, r) <= 136_000_000
  {
  }

  lemma {:induction false} ShrAtMost(x: nat, k: nat)
    ensures Shr(x, k) <= x
    decreases k
  {
    if k > 0 {
      ShrAtMost(x / 2, k - 1);
    }
  }

  lemma PClkBound(r: Registers)
    ensures PClk1(Standard, r) <= 136_000_000 && PClk2(Standard, r) <= 136_000_000
  {
    StandardClockBound(r);
    ShrAtMost(SysClk(Standard, r), AHB_SHIFT[r.ahbPsc]);
    ShrAtMost(HClk(Standard, r), APB_SHIFT[r.apb1Psc]);
    ShrAtMost(HClk(Standard, r), APB_SHIFT[r.apb2Psc]);
  }

  // ----- The prescaler setters -----

  /** The dividers a caller can ask for, as documented for the setters. */
  const AHB_DIVIDERS: seq<nat> := [1, 2, 4, 8, 16, 64, 128, 256, 512]
  const APB_DIVIDERS: seq<nat> := [1, 2, 4, 8, 16]

  class RcmUnit {
    var regs: Registers

    constructor (initial: Registers)
      ensures regs == initial
    {
      regs := initial;
    }

    /** RCM_ConfigAHB with the k-th divider of the enumeration, whose code is 7 + k. */
    method ConfigAHB(k: nat)
      requires k < |AHB_DIVIDERS|
      modifies this
      ensures regs == old(regs).(ahbPsc := 7 + k)
      ensures forall family :: IsFloor(HClk(family, regs), SysClk(family, old(regs)), AHB_DIVIDERS[k])
    {
      regs := regs.(ahbPsc := 7 + k);
      AhbCode(k);
      forall family
        ensures IsFloor(HClk(family, regs), SysClk(family, old(regs)), AHB_DIVIDERS[k])
      {
        ShrIsFloor(SysClk(family, regs), AHB_SHIFT[7 + k]);
      }
    }

    /** RCM_ConfigAPB1 with the k-th divider of the enumeration, whose code is 3 + k. */
    method ConfigAPB1(k: nat)
      requires k < |APB_DIVIDERS|
      modifies this
      ensures regs == old(regs).(apb1Psc := 3 + k)
      ensures forall family :: IsFloor(PClk1(family, regs), HClk(family, old(regs)), APB_DIVIDERS[k])
    {
      regs := regs.(apb1Psc := 3 + k);
      ApbCode(k);
      forall family
        ensures IsFloor(PClk1(family, regs), HClk(family, old(regs)), APB_DIVIDERS[k])
      {
        ShrIsFloor(HClk(family, regs), APB_SHIFT[3 + k]);
      }
    }

    /** RCM_ConfigAPB2. */
    method ConfigAPB2(k: nat)
      requires k < |APB_DIVIDERS|
      modifies this
      ensures regs == old(regs).(apb2Psc := 3 + k)
      ensures forall family :: IsFloor(PClk2(family, regs), HClk(family, old(regs)), APB_DIVIDERS[k])
    {
      regs := regs.(apb2Psc := 3 + k);
      ApbCode(k);
      forall family
        ensures IsFloor(PClk2(family, regs), HClk(family, old(regs)), APB_DIVIDERS[k])
      {
        ShrIsFloor(HClk(family, regs), APB_SHIFT[3 + k]);
      }
    }
  }

  /** Each enumeration code selects the shift of its documented divider. */
  lemma AhbCode(k: nat)
    requires k < |AHB_DIVIDERS|
    ensures Pow2(AHB_SHIFT[7 + k]) == AHB_DIVIDERS[k]
  {
    assert Pow2(9) == 2 * Pow2(8) && Pow2(8) == 2 * Pow2(7) && Pow2(7) == 2 * Pow2(6);
    assert Pow2(6) == 4 * Pow2(4) && Pow2(4) == 4 * Pow2(2);
  }

  lemma ApbCode(k: nat)
    requires k < |APB_DIVIDERS|
    ensures Pow2(APB_SHIFT[3 + k]) == APB_DIVIDERS[k]
  {
    assert Pow2(4) == 4 * Pow2(2);
  }
}
