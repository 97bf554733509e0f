/** I2S_Config: the audio clock divider. */
module I2sClock {
  import opened Words
  import opened ClockTree

  const AUDIO_DIV_DEFAULT: nat := 2

  /** The audio rates of I2S_AUDIO_DIV_T other than the default. */
  const AUDIO_RATES: seq<nat> := [192000, 96000, 48000, 44100, 32000, 22050, 16000, 11025, 8000]

  /** The configured divider: twice `div` plus the odd bit. */
  datatype Divider = Divider(div: nat, odd: nat)

  const FALLBACK: Divider := Divider(2, 0)

  /** The clock the divider works on: a frame is 256 master clocks, or 32 bit
      clocks per 16-bit slot pair. */
  function Base(sysClock: nat, mclkOutput: bool, packetSize: nat): nat
    requires packetSize > 0
  {
    DividedBy(sysClock, if mclkOutput then 256 else 32 * packetSize)
  }

  /** Ten times the ideal divider plus 5, before truncation to 16 bits. */
  function Scaled(base: nat, fs: nat): nat
    requires fs > 0
  {
    base * 10 / fs + 5
  }

  /** The divider for ratio n, or the fallback if n is out of range. */
  function ForRatio(n: nat): Divider
  {
    if 4 <= n <= 511 then Divider(n / 2, n % 2) else FALLBACK
  }

  /** The divider for a tenfold, rounded value. */
  function Chosen(scaled: nat): Divider { ForRatio(scaled / 10) }

  /** The nearest integer to base / fs: no integer is closer. */
  ghost predicate Nearest(n: nat, base: nat, fs: nat)
  {
    2 * (n * fs - base) <= fs && 2 * (base - n * fs) <= fs
  }

  lemma RoundsToNearest(base: nat, fs: nat)
    requires fs > 0
    ensures Nearest(Scaled(base, fs) / 10, base, fs)
  {
    var q := base * 10 / fs;
    DivisionRest(base * 10, fs);
    RoundedNearest(base, fs, q, (q + 5) / 10);
  }

  lemma DivisionRest(x: nat, d: nat)
    requires d > 0
    ensures (x / d) * d <= x < (x / d) * d + d
  {
    assert x == d * (x / d) + x % d;
  }

  /** Rounding ten times the quotient to a multiple of ten. */
  lemma RoundedNearest(base: nat, fs: nat, q: nat, n: nat)
    requires q * fs <= base * 10 < q * fs + fs && n == (q + 5) / 10
    ensures Nearest(n, base, fs)
  {
    ScaleUp(q - 4, 10 * n, q + 5, fs);
    assert (q - 4) * fs == q * fs - 4 * fs;
    assert (q + 5) * fs == q * fs + 5 * fs;
    assert (10 * n) * fs == 10 * (n * fs);
  }

  lemma ScaleUp(lo: int, x: int, hi: int, k: nat)
    requires lo <= x <= hi
    ensures lo * k <= x * k <= hi * k
  {
  }

  /** The registers hold ratio n: twice the divider plus the odd bit, or the fallback of 4 if
      n is not in 4 to 511. */
  predicate HoldsRatio(d: Divider, n: nat)
  {
    if 4 <= n <= 511 then 2 * d.div + d.odd == n && d.odd <= 1 else d.div == 2 && d.odd == 0
  }

  lemma ForRatioHolds(d: Divider, n: nat)
    ensures d == ForRatio(n) <==> HoldsRatio(d, n)
  {
  }

  /** What the divider should be: that of a nearest ratio. */
  ghost predicate Tuned(d: Divider, base: nat, fs: nat)
  {
    exists n: nat :: Nearest(n, base, fs) && HoldsRatio(d, n)
  }

  /** Nearest integers are at most 1 apart. */
  lemma NearestClose(n: nat, m: nat, base: nat, fs: nat)
    requires fs > 0 && Nearest(n, base, fs) && Nearest(m, base, fs)
    ensures n <= m + 1
  {
    assert n * fs - m * fs <= fs;
    assert n * fs - m * fs == (n - m) * fs;
    if n > m + 1 {
      ScaleUp(2, n - m, n - m, fs);
    }
  }

  /** The divider is tuned exactly when the scaled value fits its 16 bits or the
      truncated value also selects the fallback; it is always a valid divider. */
  lemma DividerIsNearest(base: nat, fs: nat)
    requires fs > 0
    ensures var scaled := Scaled(base, fs);
      Tuned(Chosen(scaled % TWO16), base, fs) <==> scaled < TWO16 || !(5 <= scaled % TWO16 / 10 <= 511)
    ensures Tuned(Chosen(Scaled(base, fs)), base, fs)
    ensures 2 <= Chosen(Scaled(base, fs) % TWO16).div <= 255 && Chosen(Scaled(base, fs) % TWO16).odd <= 1
  {
    var scaled := Scaled(base, fs);
    WhenFallback(scaled % TWO16 / 10);
    if scaled < TWO16 {
      assert scaled % TWO16 == scaled;
    } else {
      FarIsFallback(Chosen(scaled % TWO16), base, fs);
    }
    IdealIsTuned(base, fs);
  }

  lemma WhenFallback(n: nat)
    ensures ForRatio(n) == FALLBACK <==> !(5 <= n <= 511)
    ensures 2 <= ForRatio(n).div <= 255 && ForRatio(n).odd <= 1
  {
  }

  lemma IdealIsTuned(base: nat, fs: nat)
    requires fs > 0
    ensures Tuned(Chosen(Scaled(base, fs)), base, fs)
  {
    RoundsToNearest(base, fs);
    ForRatioHolds(Chosen(Scaled(base, fs)), Scaled(base, fs) / 10);
  }

  /** A ratio far out of range is tuned by the fallback only. */
  lemma FarIsFallback(d: Divider, base: nat, fs: nat)
    requires fs > 0
    ensures Scaled(base, fs) / 10 > 512 ==> (Tuned(d, base, fs) <==> d == FALLBACK)
  {
    var n := Scaled(base, fs) / 10;
    RoundsToNearest(base, fs);
    if n > 512 && Tuned(d, base, fs) {
      var m: nat :| Nearest(m, base, fs) && HoldsRatio(d, m);
      NearestClose(n, m, base, fs);
    }
    assert n > 512 ==> HoldsRatio(FALLBACK, n);
  }

  /** On a standard device every register contents and every audio rate the driver
      offers keep the scaled value within 16 bits. */
  lemma OfferedRatesFit(r: Registers, mclkOutput: bool, packetSize: nat, fs: nat)
    requires fs in AUDIO_RATES && packetSize > 0
    ensures Scaled(Base(SysClk(Standard, r), mclkOutput, packetSize), fs) < TWO16
  {
    var sysClock := SysClk(Standard, r);
    var base := Base(sysClock, mclkOutput, packetSize);
    StandardClockBound(r);
    assert base <= 4_250_000 by {
      if !mclkOutput {
        DivMonotone(sysClock, 32, 32 * packetSize);
      }
    }
    DivMonotone(base * 10, 8000, fs);
  }

  /** A larger divisor gives no larger quotient. */
  lemma DivMonotone(x: nat, d: nat, e: nat)
    requires 0 < d <= e
    ensures x / e <= x / d
  {
    var p, q := x / e, x / d;
    assert x == e * p + x % e && x == d * q + x % d;
    MulMonotone(p, d, e);
    CancelLess(d, p, q + 1);
  }

  // ----- The driver -----

  datatype Settings = Settings(
    mode: bv32, standard: bv32, length: bv32, mclkOutput: bool, audioDiv: nat, polarity: bv32)

  const DATA_LENGTH_16B: bv32 := 0
  const MODESEL: bv32 := 0x0800

  /** The I2SPSC register: the divider and the master-clock output bit. */
  datatype Prescaler = Prescaler(divider: Divider, mclk: bool)

  /** The clock the divider is computed from, for a setting of the clock tree. */
  function ClockBase(family: Family, r: Registers, c: Settings): nat
  {
    Base(SysClk(family, r), c.mclkOutput, if c.length == DATA_LENGTH_16B then 1 else 2)
  }

  /** The divider I2S_Config selects. */
  function Configured(family: Family, r: Registers, c: Settings): Divider
    requires c.audioDiv > 0
  {
    if c.audioDiv == AUDIO_DIV_DEFAULT then FALLBACK
    else Chosen(Scaled(ClockBase(family, r, c), c.audioDiv) % TWO16)
  }

  /** From the clock-tree registers to the divider, on a standard device: for every
      register contents and every audio rate the driver offers, the divider is that
      of the nearest ratio, or the fallback when the nearest is out of range. */
  lemma StandardDividerTuned(r: Registers, c: Settings)
    requires c.audioDiv in AUDIO_RATES
    ensures Tuned(Configured(Standard, r, c), ClockBase(Standard, r, c), c.audioDiv)
  {
    OfferedRatesFit(r, c.mclkOutput, if c.length == DATA_LENGTH_16B then 1 else 2, c.audioDiv);
    DividerIsNearest(ClockBase(Standard, r, c), c.audioDiv);
  }

  /** The audio rate the registers give is right: for a frame of `cycles` system clocks per
      unit of the ratio, n * fs * cycles is SYSCLK, to half of fs * cycles and what the
      first division drops. */
  ghost predicate RightRate(d: Divider, clock: nat, cycles: nat, fs: nat)
  {
    exists n: nat :: NearRate(n, clock, cycles, fs) && HoldsRatio(d, n)
  }

  ghost predicate NearRate(n: nat, clock: nat, cycles: nat, fs: nat)
  {
    2 * (n * fs * cycles - clock) <= fs * cycles && 2 * (clock - n * fs * cycles) <= fs * cycles + 2 * (cycles - 1)
  }

  lemma NearestIsNearRate(n: nat, clock: nat, cycles: nat, fs: nat)
    requires cycles > 0 && Nearest(n, clock / cycles, fs)
    ensures NearRate(n, clock, cycles, fs)
  {
    var base := clock / cycles;
    DivisionRest(clock, cycles);
    ScaleUp(2 * (n * fs - base), fs, fs, cycles);
    ScaleUp(2 * (base - n * fs), fs, fs, cycles);
    assert (2 * (n * fs - base)) * cycles == 2 * (n * fs * cycles - base * cycles);
    assert (2 * (base - n * fs)) * cycles == 2 * (base * cycles - n * fs * cycles);
  }

  lemma TunedIsRight(d: Divider, clock: nat, cycles: nat, fs: nat)
    requires cycles > 0 && Tuned(d, clock / cycles, fs)
    ensures RightRate(d, clock, cycles, fs)
  {
    var n: nat :| Nearest(n, clock / cycles, fs) && HoldsRatio(d, n);
    NearestIsNearRate(n, clock, cycles, fs);
  }

  /** The system clocks per unit of the ratio: 256 with a master clock, otherwise 32 for
      16-bit data and 64 for longer data. */
  lemma StandardRateRight(r: Registers, c: Settings)
    requires c.audioDiv in AUDIO_RATES
    ensures RightRate(Configured(Standard, r, c), SysClk(Standard, r),
                      if c.mclkOutput then 256 else if c.length == 0 then 32 else 64, c.audioDiv)
  {
    StandardDividerTuned(r, c);
    TunedIsRight(Configured(Standard, r, c), SysClk(Standard, r),
                 if c.mclkOutput then 256 else if c.length == 0 then 32 else 64, c.audioDiv);
  }

  /** On a connectivity-line device truncation does harm: with a system clock of
      1750 MHz, 8 kHz in 16 bits needs a ratio of 6836, which is out of range, and
      282 is written instead of the fallback. */
  lemma TruncationMisleads()
    ensures var r := Rcm(2, 1, 0, 3, 0, 1, 12, 0, 7, 3, 3, 0);
      var c := Settings(0, 0, DATA_LENGTH_16B, false, 8000, 0);
      && r.InRange() && SysClk(ConnectivityLine, r) == 1_750_000_000
      && Scaled(ClockBase(ConnectivityLine, r, c), 8000) / 10 == 6836
      && Configured(ConnectivityLine, r, c) == Divider(141, 0)
      && !Tuned(Configured(ConnectivityLine, r, c), ClockBase(ConnectivityLine, r, c), 8000)
  {
    var r: Registers := Rcm(2, 1, 0, 3, 0, 1, 12, 0, 7, 3, 3, 0);
    var c := Settings(0, 0, DATA_LENGTH_16B, false, 8000, 0);
    assert SysClk(ConnectivityLine, r) == 1_750_000_000;
    assert ClockBase(ConnectivityLine, r, c) == 54_687_500;
    assert Scaled(54_687_500, 8000) == 68_364;
    DividerIsNearest(54_687_500, 8000);
  }

  class I2s {
    var psc: Prescaler
    var cfg: bv32

    constructor ()
      ensures psc == Prescaler(FALLBACK, false) && cfg == 0
    {
      psc, cfg := Prescaler(FALLBACK, false), 0;
    }

    /** I2S_Config. */
    method Config(family: Family, r: Registers, c: Settings)
      requires c.audioDiv > 0
      modifies this
      ensures psc == Prescaler(Configured(family, r, c), c.mclkOutput)
      ensures cfg == (c.mode | c.standard | c.length | c.polarity) | 0x0800
      ensures family == Standard && c.audioDiv in AUDIO_RATES ==>
        RightRate(psc.divider, SysClk(family, r),
                  if c.mclkOutput then 256 else if c.length == 0 then 32 else 64, c.audioDiv)
      ensures c.audioDiv == 2 ==> psc.divider.div == 2 && psc.divider.odd == 0
    {
      cfg := cfg & 0xF040;
      psc := Prescaler(Divider(2, 0), false);
      var d := ConfigDivider(family, r, c);
      psc := psc.(divider := psc.divider.(div := d.div));
      psc := psc.(divider := psc.divider.(odd := d.odd));
      psc := psc.(mclk := psc.mclk || c.mclkOutput);
      SelectMode(c);
      if family == Standard && c.audioDiv in AUDIO_RATES {
        StandardRateRight(r, c);
      }
    }

    /** The last part of I2S_Config. */
    method SelectMode(c: Settings)
      modifies this`cfg
      ensures cfg == (c.mode | c.standard | c.length | c.polarity) | 0x0800
    {
      cfg := c.mode | c.standard | c.length | c.polarity;
      cfg := cfg | MODESEL;
    }

    /** The divider part of I2S_Config. */
    static method ConfigDivider(family: Family, r: Registers, c: Settings) returns (d: Divider)
      requires c.audioDiv > 0
      ensures d == Configured(family, r, c)
    {
      var i2sDiv, i2sOdd, packetSize := 2, 0, 1;
      if c.audioDiv != AUDIO_DIV_DEFAULT {
        if c.length == DATA_LENGTH_16B {
          packetSize := 1;
        } else {
          packetSize := 2;
        }
        var sysClock := SysClk(family, r);
        var tmp;
        if c.mclkOutput {
          tmp := (sysClock / 256 * 10 / c.audioDiv + 5) % TWO16;
        } else {
          tmp := (sysClock / (32 * packetSize) * 10 / c.audioDiv + 5) % TWO16;
        }
        i2sDiv, i2sOdd := SplitRatio(tmp / 10);
      }
      d := Divider(i2sDiv, i2sOdd);
    }

    /** The divider and odd bit of a ratio, within the range of the register. */
    static method SplitRatio(tmp: nat) returns (i2sDiv: nat, i2sOdd: nat)
      ensures Divider(i2sDiv, i2sOdd) == ForRatio(tmp)
    {
      i2sOdd := tmp % 2;
      i2sDiv := (tmp - i2sOdd) / 2;
      if i2sDiv < 2 || i2sDiv > 0xFF {
        i2sDiv := 2;
        i2sOdd := 0;
      }
    }
  }
}
