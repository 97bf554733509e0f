/** __RBIT: bit reversal by a loop that stops at the highest set bit. */
module BitReverse {

  /** A 32-bit word as its bits, least significant first. */
  type Word = w: seq<bool> | |w| == 32 witness seq(32, _ => false)

  function Zeros(n: nat): (z: seq<bool>)
    ensures |z| == n && forall i :: 0 <= i < n ==> !z[i]
  {
    seq(n, _ => false)
  }

  /** w >> 1. */
  function ShiftRight(w: Word): Word { w[1..] + [false] }

  /** w << k, with the high bits lost. */
  function ShiftLeft(w: Word, k: nat): Word
    requires k <= 32
  {
    Zeros(k) + w[..32 - k]
  }

  /** w | (value & 1) for a word whose low bit is clear or equal. */
  function OrLowBit(w: Word, value: Word): Word { w[0 := w[0] || value[0]] }

  /** The mirror image: bit i of the result is bit 31 - i of w. */
  function Mirror(w: Word): (r: Word)
    ensures forall i :: 0 <= i < 32 ==> r[i] == w[31 - i]
  {
    seq(32, i requires 0 <= i < 32 => w[31 - i])
  }

  /** What is left of w after k right shifts. */
  function Rest(w: Word, k: nat): Word
    requires k <= 32
  {
    w[k..] + Zeros(k)
  }

  lemma RestStep(w: Word, k: nat)
    requires k < 32
    ensures ShiftRight(Rest(w, k)) == Rest(w, k + 1)
    ensures Rest(w, k)[0] == w[k]
  {
  }

  lemma RestEnds(w: Word)
    ensures Rest(w, 0) == w && Rest(w, 32) == Zeros(32)
  {
  }

  /** The loop form of __RBIT. The accumulator starts as the unreversed argument; the
      bits above those already reversed are pushed out by the final shift, and the
      early exit is right because the bits not yet seen are all zero. */
  method ReverseBits(v: Word) returns (result: Word)
    ensures result == Mirror(v)
  {
    var value := v;
    var s := 31;
    result := value;
    RestEnds(v);
    RestStep(v, 0);
    value := ShiftRight(value);
    while value != Zeros(32)
      invariant 0 <= s <= 31 && value == Rest(v, 32 - s)
      invariant forall j :: 0 <= j <= 31 - s ==> result[j] == v[31 - s - j]
      decreases s
    {
      assert s > 0;
      RestStep(v, 32 - s);
      result := ShiftLeft(result, 1);
      result := OrLowBit(result, value);
      s := s - 1;
      value := ShiftRight(value);
    }
    forall i | 32 - s <= i < 32
      ensures !v[i]
    {
      assert Rest(v, 32 - s)[i - (32 - s)] == v[i];
    }
    result := ShiftLeft(result, s);
  }

  /** Reversing twice is the identity. */
  lemma MirrorTwice(w: Word)
    ensures Mirror(Mirror(w)) == w
  {
  }
}
