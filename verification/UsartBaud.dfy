/** USART_Config: the baud-rate divider, from the clock tree to the BR register. */
module UsartBaud {
  import opened Words
  import opened ClockTree

  /** The 32-bit baud rates for which 4 * baud, which wraps, is not 0. */
  predicate IsBaud(baud: nat) { 0 < baud < TWO32 && Wrapped(4 * baud) > 0 }

  function Wrapped(x: nat): nat { x % TWO32 }

  /** intDiv: 100 times the oversampling divider, in 32-bit arithmetic. */
  function IntDiv(fclk: nat, baud: nat): nat
    requires IsBaud(baud)
  {
    DividedBy(Wrapped(25 * fclk), Wrapped(4 * baud))
  }

  /** The value written to BR: the integer part in steps of 16, the rounded
      sixteenths masked to four bits. */
  function Divider(intDiv: nat): nat
  {
    16 * (intDiv / 100) + (16 * (intDiv % 100) + 50) / 100 % 16
  }

  /** BR is intDiv * 16 / 100 rounded to nearest, except that for a remainder of 97
      to 99 the carry out of the four fraction bits is lost and BR is 16 too small. */
  lemma DividerRounds(intDiv: nat)
    ensures Divider(intDiv) == (16 * intDiv + 50) / 100 <==> intDiv % 100 <= 96
    ensures intDiv % 100 > 96 ==> Divider(intDiv) == (16 * intDiv + 50) / 100 - 16
  {
    var q, r := intDiv / 100, intDiv % 100;
    assert 16 * intDiv + 50 == 100 * (16 * q) + (16 * r + 50);
    assert (16 * intDiv + 50) / 100 == 16 * q + (16 * r + 50) / 100;
    assert 16 * r + 50 < 1700;
    assert r <= 96 ==> (16 * r + 50) / 100 <= 15;
    assert r > 96 ==> (16 * r + 50) / 100 == 16;
  }

  /** The error of br against fclk / baud, scaled by 100 * baud: above -0.66 and at most 0.5. */
  lemma BaudError(fclk: nat, baud: nat, d: nat, br: nat)
    requires baud > 0 && d == 25 * fclk / (4 * baud) && br == (16 * d + 50) / 100
    ensures -66 * baud < 100 * (br * baud) - 100 * fclk <= 50 * baud
  {
    ScaledRounding(d, br, baud);
    Quotient(25 * fclk, baud, d);
    Combine(fclk, baud, d * baud, br * baud);
  }

  /** 100 br lies within 50 of 16 d, scaled by the baud rate. */
  lemma ScaledRounding(d: nat, br: nat, baud: nat)
    requires br == (16 * d + 50) / 100 && baud > 0
    ensures 16 * (d * baud) - 50 * baud < 100 * (br * baud) <= 16 * (d * baud) + 50 * baud
  {
    ScaledBetween(16 * d - 50, 100 * br, 16 * d + 50, baud);
    assert (16 * d - 50) * baud == 16 * (d * baud) - 50 * baud;
    assert (16 * d + 50) * baud == 16 * (d * baud) + 50 * baud;
    assert (100 * br) * baud == 100 * (br * baud);
  }

  lemma Quotient(x: nat, baud: nat, d: nat)
    requires baud > 0 && d == x / (4 * baud)
    ensures 4 * (d * baud) <= x < 4 * (d * baud) + 4 * baud
  {
    assert x == (4 * baud) * d + x % (4 * baud);
    assert (4 * baud) * d == 4 * (d * baud);
  }

  lemma Combine(fclk: nat, baud: nat, db: nat, bb: nat)
    requires 4 * db <= 25 * fclk < 4 * db + 4 * baud
    requires 16 * db - 50 * baud < 100 * bb <= 16 * db + 50 * baud
    ensures -66 * baud < 100 * bb - 100 * fclk <= 50 * baud
  {
  }

  lemma ScaledBetween(lo: int, x: int, hi: int, k: nat)
    requires lo < x <= hi && k > 0
    ensures lo * k < x * k <= hi * k
  {
  }

  /** Which clock a peripheral runs from: USART1 hangs off APB2, the others off APB1. */
  function PeripheralClock(family: Family, r: Registers, isUsart1: bool): nat
  {
    if isUsart1 then PClk2(family, r) else PClk1(family, r)
  }

  datatype UsartSettings = UsartSettings(
    mode: bv32, parity: bv32, wordLength: bv32, stopBits: bv32, hardwareFlow: bv32, baudRate: nat)
  {
    /** Every setting lies in the bits its enumeration uses. */
    predicate InFields()
    {
      && mode & MODE == mode && parity & PARITY == parity && wordLength & WORD_LENGTH == wordLength
      && stopBits & STOP_BITS == stopBits && hardwareFlow & FLOW == hardwareFlow
    }
  }

  const MODE: bv32 := 0x000C
  const PARITY: bv32 := 0x0600
  const WORD_LENGTH: bv32 := 0x1000
  const STOP_BITS: bv32 := 0x3000
  const FLOW: bv32 := 0x0300

  /** The register keeps the bits of `mask`; `value` is or-ed in. */
  function Replaced(reg: bv32, mask: bv32, value: bv32): bv32 { (reg & mask) | value }

  /** In CTRL1 the mode, parity and word length read back, and every other bit of the low
      half survives; the upper half is cleared. */
  ghost predicate FormatSet(before: bv32, after: bv32, c: UsartSettings)
  {
    && after & MODE == c.mode && after & PARITY == c.parity && after & WORD_LENGTH == c.wordLength
    && after & 0xE9F3 == before & 0xE9F3 && after <= 0xFFFF
  }

  lemma FormatReadsBack(before: bv32, c: UsartSettings)
    requires c.InFields()
    ensures FormatSet(before, Replaced(before, 0xE9F3, c.mode | c.parity | c.wordLength), c)
  {
  }

  /** The same for a register with one field: `field` is set to v, the other bits of the
      low half survive. */
  ghost predicate FieldSet(before: bv32, after: bv32, field: bv32, v: bv32)
  {
    after & field == v && after & (0xFFFF & !field) == before & (0xFFFF & !field) && after <= 0xFFFF
  }

  lemma StopBitsReadBack(before: bv32, v: bv32)
    requires v & STOP_BITS == v
    ensures FieldSet(before, Replaced(before, 0xCFFF, v), STOP_BITS, v)
  {
  }

  lemma FlowReadsBack(before: bv32, v: bv32)
    requires v & FLOW == v
    ensures FieldSet(before, Replaced(before, 0xFCFF, v), FLOW, v)
  {
  }

  class Usart {
    const isUsart1: bool
    var ctrl1: bv32
    var ctrl2: bv32
    var ctrl3: bv32
    var br: nat

    constructor (first: bool)
      ensures isUsart1 == first
    {
      isUsart1 := first;
    }

    /** USART_Config. */
    method Config(family: Family, r: Registers, c: UsartSettings)
      requires IsBaud(c.baudRate)
      modifies this
      ensures br == Divider(IntDiv(PeripheralClock(family, r, isUsart1), c.baudRate))
      ensures isUsart1 ==>
        forall f: nat :: IsFloor(f, SysClk(family, r), Times(Pow2(AHB_SHIFT[r.ahbPsc]), Pow2(APB_SHIFT[r.apb2Psc]))) ==>
          RightFor(br, f, c.baudRate)
      ensures !isUsart1 ==>
        forall f: nat :: IsFloor(f, SysClk(family, r), Times(Pow2(AHB_SHIFT[r.ahbPsc]), Pow2(APB_SHIFT[r.apb1Psc]))) ==>
          RightFor(br, f, c.baudRate)
      ensures c.InFields() ==>
        && FormatSet(old(ctrl1), ctrl1, c)
        && FieldSet(old(ctrl2), ctrl2, STOP_BITS, c.stopBits)
        && FieldSet(old(ctrl3), ctrl3, FLOW, c.hardwareFlow)
      ensures ctrl1 == Replaced(old(ctrl1), 0xE9F3, c.mode | c.parity | c.wordLength)
      ensures ctrl2 == Replaced(old(ctrl2), 0xCFFF, c.stopBits)
      ensures ctrl3 == Replaced(old(ctrl3), 0xFCFF, c.hardwareFlow)
    {
      Frame(c);
      if c.InFields() {
        FormatReadsBack(old(ctrl1), c);
        StopBitsReadBack(old(ctrl2), c.stopBits);
        FlowReadsBack(old(ctrl3), c.hardwareFlow);
      }
      var fclk := if isUsart1 then PClk2(family, r) else PClk1(family, r);
      br := BaudDivider(fclk, c.baudRate);
      RightForBus(family, r, isUsart1, c.baudRate);
    }

    /** The first part of USART_Config: frame format and flow control. */
    method Frame(c: UsartSettings)
      modifies this`ctrl1, this`ctrl2, this`ctrl3
      ensures ctrl1 == Replaced(old(ctrl1), 0xE9F3, c.mode | c.parity | c.wordLength)
      ensures ctrl2 == Replaced(old(ctrl2), 0xCFFF, c.stopBits)
      ensures ctrl3 == Replaced(old(ctrl3), 0xFCFF, c.hardwareFlow)
    {
      ctrl1 := Replace(ctrl1, 0xE9F3, c.mode | c.parity | c.wordLength);
      ctrl2 := Replace(ctrl2, 0xCFFF, c.stopBits);
      ctrl3 := Replace(ctrl3, 0xFCFF, c.hardwareFlow);
    }

    /** The read, mask and write the three registers share. */
    static method Replace(reg: bv32, mask: bv32, value: bv32) returns (temp: bv32)
      ensures temp == Replaced(reg, mask, value)
    {
      temp := reg;
      temp := temp & mask;
      temp := temp | value;
    }

    /** The last part of USART_Config. */
    static method BaudDivider(fclk: nat, baud: nat) returns (value: nat)
      requires IsBaud(baud)
      ensures value == Divider(IntDiv(fclk, baud))
    {
      var product, divisor := Wrapped(25 * fclk), Wrapped(4 * baud);
      var intDiv := DividedBy(product, divisor);
      value := SplitDivider(intDiv);
    }

    static method SplitDivider(intDiv: nat) returns (value: nat)
      ensures value == Divider(intDiv)
    {
      value := 16 * (intDiv / 100);
      var fractionalDiv := intDiv - 100 * (value / 16);
      // The low four bits of value are clear, so or-ing the fraction adds it.
      value := value + (fractionalDiv * 16 + 50) / 100 % 16;
    }
  }

  /** br is within -0.66 and 0.5 of fclk / baud. */
  predicate Close(br: nat, fclk: nat, baud: nat)
  {
    -66 * baud < 100 * (br * baud) - 100 * fclk <= 50 * baud
  }

  /** The BR that USART_Config writes is. */
  predicate WithinBound(fclk: nat, baud: nat)
    requires IsBaud(baud)
  {
    Close(Divider(IntDiv(fclk, baud)), fclk, baud)
  }

  /** BR less 16 is far from what BR is close to. */
  lemma FarBelow(br: nat, fclk: nat, baud: nat)
    requires br >= 16 && baud > 0 && Close(br, fclk, baud)
    ensures !Close(br - 16, fclk, baud)
  {
    assert (br - 16) * baud == br * baud - 16 * baud;
  }

  /** When the 32-bit quotient is the true one, BR is within the bound exactly when no
      carry is lost. */
  lemma TrueQuotient(fclk: nat, baud: nat)
    requires IsBaud(baud) && IntDiv(fclk, baud) == 25 * fclk / (4 * baud)
    ensures WithinBound(fclk, baud) <==> 25 * fclk / (4 * baud) % 100 <= 96
  {
    var d := IntDiv(fclk, baud);
    DividerRounds(d);
    BaudError(fclk, baud, d, (16 * d + 50) / 100);
    if d % 100 > 96 {
      FarBelow((16 * d + 50) / 100, fclk, baud);
    }
  }

  /** For a clock whose product does not overflow and a baud rate below 2^30, BR is within
      the bound exactly when no carry is lost. */
  lemma BaudWithoutOverflow(fclk: nat, baud: nat)
    requires 0 < baud < 0x4000_0000 && 25 * fclk < TWO32
    ensures WithinBound(fclk, baud) <==> 25 * fclk / (4 * baud) % 100 <= 96
  {
    WrapLoses(25 * fclk);
    TrueQuotient(fclk, baud);
  }

  /** br is the BR for a clock of f Hz: the divider of 25 f / (4 baud), and, where nothing
      wraps, within the bound exactly when no carry is lost. */
  ghost predicate RightFor(br: nat, f: nat, baud: nat)
    requires IsBaud(baud)
  {
    && br == Divider(IntDiv(f, baud))
    && (baud < 0x4000_0000 && 25 * f < TWO32 ==> (Close(br, f, baud) <==> 25 * f / (4 * baud) % 100 <= 96))
  }

  lemma RightForClock(f: nat, baud: nat)
    requires IsBaud(baud)
    ensures RightFor(Divider(IntDiv(f, baud)), f, baud)
  {
    if baud < 0x4000_0000 && 25 * f < TWO32 {
      BaudWithoutOverflow(f, baud);
    }
  }

  /** The clock of each USART, in terms of its bus: SYSCLK divided by the AHB and the APB2
      or APB1 divider, rounded down. */
  lemma RightForBus(family: Family, r: Registers, isUsart1: bool, baud: nat)
    requires IsBaud(baud)
    ensures forall f: nat ::
      IsFloor(f, SysClk(family, r),
              Times(Pow2(AHB_SHIFT[r.ahbPsc]), Pow2(APB_SHIFT[if isUsart1 then r.apb2Psc else r.apb1Psc]))) ==>
        RightFor(Divider(IntDiv(PeripheralClock(family, r, isUsart1), baud)), f, baud)
  {
    var fclk := PeripheralClock(family, r, isUsart1);
    var d := Times(Pow2(AHB_SHIFT[r.ahbPsc]), Pow2(APB_SHIFT[if isUsart1 then r.apb2Psc else r.apb1Psc]));
    BusClocksFloorOnce(family, r);
    RightForClock(fclk, baud);
    forall f: nat | IsFloor(f, SysClk(family, r), d)
      ensures f == fclk
    {
      FloorUnique(f, fclk, SysClk(family, r), d);
    }
  }

  /** A setting in which the two buses differ: with 72 MHz on APB2 and 36 MHz on APB1,
      115200 baud needs 625 on USART1 and 312 on the others. */
  lemma BusesDiffer()
    ensures var r := Rcm(2, 1, 0, 7, 0, 0, 0, 0, 0, 4, 0, 0);
      && r.InRange() && IsBaud(115_200)
      && PeripheralClock(Standard, r, true) == 72_000_000 && PeripheralClock(Standard, r, false) == 36_000_000
      && Divider(IntDiv(72_000_000, 115_200)) == 625 && Divider(IntDiv(36_000_000, 115_200)) == 312
  {
    assert Wrapped(25 * 72_000_000) == 1_800_000_000 && Wrapped(25 * 36_000_000) == 900_000_000;
    assert Wrapped(4 * 115_200) == 460_800;
    assert 1_800_000_000 / 460_800 == 3906 && 900_000_000 / 460_800 == 1953;
  }

  /** The largest baud rate for which 116 * baud is below 4 * 2^32: the bound is then
      narrower than what an overflow loses. */
  const WIDEST_BAUD: nat := 148_102_320

  /** BR times the baud rate is at most four hundredths of the dividend plus a half. */
  lemma BaudAtMost(x: nat, baud: nat, d: nat)
    requires baud > 0 && d == x / (4 * baud)
    ensures 100 * (Divider(d) * baud) <= 4 * x + 50 * baud
  {
    var rounded := (16 * d + 50) / 100;
    DividerRounds(d);
    ScaledRounding(d, rounded, baud);
    Quotient(x, baud, d);
    MulMonotone(baud, Divider(d), rounded);
  }

  lemma BaudWithOverflow(fclk: nat, baud: nat)
    requires 0 < baud <= WIDEST_BAUD && 25 * fclk >= TWO32
    ensures !WithinBound(fclk, baud)
  {
    WrapLoses(25 * fclk);
    BaudAtMost(Wrapped(25 * fclk), baud, IntDiv(fclk, baud));
  }

  /** For every baud rate up to WIDEST_BAUD: BR is within the bound if and only if 25 * fclk
      does not overflow and no carry is lost. */
  lemma BaudIsExact(fclk: nat, baud: nat)
    requires 0 < baud <= WIDEST_BAUD
    ensures WithinBound(fclk, baud) <==> 25 * fclk < TWO32 && 25 * fclk / (4 * baud) % 100 <= 96
  {
    if 25 * fclk < TWO32 {
      BaudWithoutOverflow(fclk, baud);
    } else {
      BaudWithOverflow(fclk, baud);
    }
  }

  lemma DividerZero(d: nat)
    ensures Divider(d) == 0 <==> d <= 3 || 97 <= d <= 99
  {
  }

  lemma QuotientBelow(x: nat, w: nat, k: nat)
    requires w > 0
    ensures x / w < k <==> x < k * w
  {
    assert x == w * (x / w) + x % w;
    if x / w < k {
      MulMonotone(w, x / w + 1, k);
    } else {
      MulMonotone(w, k, x / w);
    }
  }

  lemma DividerSmall(d: nat)
    requires d < 8
    ensures Divider(d) == if d < 4 then 0 else 1
  {
  }

  /** For the baud rates between WIDEST_BAUD and 2^30 BR is 0 or 1, by the wrapped
      dividend; whether that is within the bound depends on the clock itself. */
  lemma LargeBaudIsExact(fclk: nat, baud: nat)
    requires WIDEST_BAUD < baud < 0x4000_0000
    ensures WithinBound(fclk, baud) <==>
            if Wrapped(25 * fclk) < 16 * baud then 100 * fclk < 66 * baud
            else 50 * baud <= 100 * fclk < 166 * baud
  {
    var d := IntDiv(fclk, baud);
    assert Wrapped(4 * baud) == 4 * baud;
    QuotientBelow(Wrapped(25 * fclk), 4 * baud, 4);
    QuotientBelow(Wrapped(25 * fclk), 4 * baud, 8);
    DividerSmall(d);
  }

  /** For a baud rate of 2^30 or more only a BR of 0 is within the bound. */
  lemma OnlyZeroIsClose(br: nat, fclk: nat, baud: nat)
    requires baud >= 0x4000_0000 && 25 * fclk < TWO32
    ensures Close(br, fclk, baud) <==> br == 0
  {
    if br > 0 {
      MulMonotone(baud, 1, br);
    }
  }

  /** For a baud rate of 2^30 or more the divisor wraps too, to w: BR is within the bound
      if and only if the dividend is below 4 w, or from 97 w to below 100 w, where the
      lost carry makes up for it. */
  lemma HugeBaudIsExact(fclk: nat, baud: nat)
    requires IsBaud(baud) && baud >= 0x4000_0000 && 25 * fclk < TWO32
    ensures var w := Wrapped(4 * baud);
      WithinBound(fclk, baud) <==> 25 * fclk < 4 * w || 97 * w <= 25 * fclk < 100 * w
  {
    var w := Wrapped(4 * baud);
    WrapLoses(25 * fclk);
    OnlyZeroIsClose(Divider(IntDiv(fclk, baud)), fclk, baud);
    DividerZero(IntDiv(fclk, baud));
    QuotientBelow(25 * fclk, w, 4);
    QuotientBelow(25 * fclk, w, 97);
    QuotientBelow(25 * fclk, w, 100);
  }

  /** The smallest quotient for which BR is 0, 1, 2, 3, 4 and 5. */
  const STEPS: seq<nat> := [0, 4, 10, 16, 22, 29]

  /** A dividend x and divisor w for which BR is n. */
  predicate Gives(x: nat, w: nat, n: nat)
    requires n <= 4
  {
    STEPS[n] * w <= x < STEPS[n + 1] * w || (n == 0 && 97 * w <= x < 100 * w)
  }

  lemma DividerSteps(d: nat, n: nat)
    requires n <= 4
    ensures Divider(d) == n <==> STEPS[n] <= d < STEPS[n + 1] || (n == 0 && 97 <= d < 100)
  {
  }

  lemma GivesDivider(x: nat, w: nat, n: nat)
    requires w > 0 && n <= 4
    ensures Gives(x, w, n) <==> Divider(x / w) == n
  {
    DividerSteps(x / w, n);
    QuotientBelow(x, w, STEPS[n]);
    QuotientBelow(x, w, STEPS[n + 1]);
    QuotientBelow(x, w, 97);
    QuotientBelow(x, w, 100);
  }

  /** A 32-bit clock is at most four times such a baud rate. */
  lemma CloseIsSmall(br: nat, fclk: nat, baud: nat)
    requires baud >= 0x4000_0000 && fclk < TWO32 && Close(br, fclk, baud)
    ensures br <= 4
  {
    if br > 4 {
      MulMonotone(baud, 5, br);
    }
  }

  /** For a baud rate of 2^30 or more and any 32-bit clock, with both products wrapping: BR
      is within the bound if and only if the wrapped dividend and divisor give one of the
      values 0 to 4 that are close to fclk / baud. */
  lemma WrappedBaudIsExact(fclk: nat, baud: nat)
    requires IsBaud(baud) && baud >= 0x4000_0000 && fclk < TWO32
    ensures WithinBound(fclk, baud) <==>
            exists n :: 0 <= n <= 4 && Gives(Wrapped(25 * fclk), Wrapped(4 * baud), n) && Close(n, fclk, baud)
  {
    var br := Divider(IntDiv(fclk, baud));
    if WithinBound(fclk, baud) {
      CloseIsSmall(br, fclk, baud);
      GivesDivider(Wrapped(25 * fclk), Wrapped(4 * baud), br);
    }
    forall n | 0 <= n <= 4
      ensures Gives(Wrapped(25 * fclk), Wrapped(4 * baud), n) <==> br == n
    {
      GivesDivider(Wrapped(25 * fclk), Wrapped(4 * baud), n);
    }
  }

  /** From the clock-tree registers to the baud rate, on a standard device: the
      32-bit product never overflows, whatever the registers hold, so BR is within the
      bound for every baud rate below 2^30 exactly when no carry is lost, and above
      it exactly in the cases above. */
  lemma StandardBaudExact(r: Registers, isUsart1: bool, baud: nat)
    requires IsBaud(baud)
    ensures var fclk := PeripheralClock(Standard, r, isUsart1);
      var w := Wrapped(4 * baud);
      WithinBound(fclk, baud) <==>
        if baud < 0x4000_0000 then 25 * fclk / (4 * baud) % 100 <= 96
        else 25 * fclk < 4 * w || 97 * w <= 25 * fclk < 100 * w
  {
    PClkBound(r);
    var fclk := PeripheralClock(Standard, r, isUsart1);
    if baud < 0x4000_0000 {
      BaudWithoutOverflow(fclk, baud);
    } else {
      HugeBaudIsExact(fclk, baud);
    }
  }

  /** Connectivity-line registers that reach the overflow: PCLK2 is 400 MHz. */
  const FAST: Registers := Rcm(2, 1, 0, 0, 0, 1, 6, 0, 7, 3, 3, 0)

  lemma FastClock()
    ensures PeripheralClock(ConnectivityLine, FAST, true) == 400_000_000
  {
    assert HClk(ConnectivityLine, FAST) == SysClk(ConnectivityLine, FAST) == 400_000_000;
  }

  /** BR is then outside the bound for every baud rate up to WIDEST_BAUD. */
  lemma OverflowReached(baud: nat)
    requires 0 < baud <= WIDEST_BAUD
    ensures !WithinBound(PeripheralClock(ConnectivityLine, FAST, true), baud)
  {
    FastClock();
    BaudWithOverflow(400_000_000, baud);
  }

  /** For larger baud rates an overflow can go unnoticed: at 2^30 - 1 baud BR is 0, which
      is within the bound although the product overflows. */
  lemma OverflowHidden()
    ensures var fclk := PeripheralClock(ConnectivityLine, FAST, true);
      25 * fclk >= TWO32 && IsBaud(0x3FFF_FFFF) && WithinBound(fclk, 0x3FFF_FFFF)
  {
    FastClock();
    assert Wrapped(25 * 400_000_000) == 1_410_065_408;
    assert Wrapped(4 * 0x3FFF_FFFF) == 0xFFFF_FFFC;
    assert 1_410_065_408 / 0xFFFF_FFFC == 0;
  }

  /** The lost carry is real: at 8 MHz and 515463 baud the divider written is 0. */
  lemma CarryLost()
    ensures IntDiv(8_000_000, 515_463) == 97 && Divider(97) == 0
  {
    assert Wrapped(25 * 8_000_000) == 200_000_000;
    assert Wrapped(4 * 515_463) == 2_061_852;
    assert 200_000_000 / 2_061_852 == 97;
  }
}
