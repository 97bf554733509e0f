/** Packed fields of 32-bit registers: clearing a field and or-ing a value into it. */
module BitFields {

  const MASK5: bv32 := 0x1F
  const MASK4: bv32 := 0x0F
  const MASK3: bv32 := 0x07
  const MASK2: bv32 := 0x03

  /** The number of bits of a mask. */
  function Width(m: bv32): bv32
  {
    if m == MASK5 then 5 else if m == MASK4 then 4 else if m == MASK3 then 3 else 2
  }

  predicate IsMask(m: bv32) { m == MASK5 || m == MASK4 || m == MASK3 || m == MASK2 }

  /** A field of the register: a mask and the position of its lowest bit. */
  predicate IsField(s: bv32, m: bv32) { IsMask(m) && s <= 32 - Width(m) }

  /** Two fields do not overlap. */
  predicate Apart(s: bv32, m: bv32, u: bv32, n: bv32) { s + Width(m) <= u || u + Width(n) <= s }

  function Down(x: bv32, s: bv32): bv32
    requires s <= 31
  {
    x >> s
  }

  /** The field of r under mask m at bit s. */
  function Get(r: bv32, s: bv32, m: bv32): bv32
    requires s <= 31
  {
    Down(r & (m << s), s)
  }

  /** r with that field cleared and v or-ed in. */
  function Put(r: bv32, s: bv32, m: bv32, v: bv32): bv32
    requires s <= 31
  {
    (r & !(m << s)) | (v << s)
  }

  /** Bits outside the cleared mask survive, those inside are the value's. */
  lemma Outside(r: bv32, m: bv32, x: bv32, n: bv32)
    requires x & m == x && m & n == 0
    ensures ((r & !m) | x) & n == r & n
  {
  }

  lemma Inside(r: bv32, m: bv32, x: bv32)
    requires x & m == x
    ensures ((r & !m) | x) & m == x
  {
  }

  lemma Disjoint(s: bv32, m: bv32, u: bv32, n: bv32)
    requires IsField(s, m) && IsField(u, n) && Apart(s, m, u, n)
    ensures (m << s) & (n << u) == 0
  {
  }

  lemma Fits(v: bv32, s: bv32, m: bv32)
    requires IsField(s, m) && v <= m
    ensures (v << s) & (m << s) == v << s
  {
  }

  lemma ShiftBack(v: bv32, s: bv32, m: bv32)
    requires IsField(s, m) && v <= m
    ensures Down(v << s, s) == v
  {
  }

  lemma Holds(r: bv32, s: bv32, m: bv32, v: bv32)
    requires IsField(s, m) && v <= m
    ensures Put(r, s, m, v) & (m << s) == v << s
  {
    var mask, value := m << s, v << s;
    assert value & mask == value by {
      Fits(v, s, m);
    }
    Inside(r, mask, value);
  }

  lemma FieldIs(q: bv32, s: bv32, m: bv32, x: bv32, v: bv32)
    requires s <= 31 && q & (m << s) == x && Down(x, s) == v
    ensures Get(q, s, m) == v
  {
  }

  /** The written value is read back. */
  lemma PutGet(r: bv32, s: bv32, m: bv32, v: bv32)
    requires IsField(s, m) && v <= m
    ensures Get(Put(r, s, m, v), s, m) == v
  {
    Holds(r, s, m, v);
    ShiftBack(v, s, m);
    FieldIs(Put(r, s, m, v), s, m, v << s, v);
  }

  lemma Keeps(r: bv32, s: bv32, m: bv32, v: bv32, u: bv32, n: bv32)
    requires IsField(s, m) && IsField(u, n) && v <= m && Apart(s, m, u, n)
    ensures Put(r, s, m, v) & (n << u) == r & (n << u)
  {
    Disjoint(s, m, u, n);
    Fits(v, s, m);
    Outside(r, m << s, v << s, n << u);
  }

  lemma SameField(q: bv32, r: bv32, u: bv32, n: bv32)
    requires u <= 31 && q & (n << u) == r & (n << u)
    ensures Get(q, u, n) == Get(r, u, n)
  {
  }

  /** A write to one field leaves every non-overlapping field alone. */
  lemma PutElsewhere(r: bv32, s: bv32, m: bv32, v: bv32, u: bv32, n: bv32)
    requires IsField(s, m) && IsField(u, n) && v <= m && Apart(s, m, u, n)
    ensures Get(Put(r, s, m, v), u, n) == Get(r, u, n)
  {
    var q := Put(r, s, m, v);
    assert q & (n << u) == r & (n << u) by {
      Keeps(r, s, m, v, u, n);
    }
    SameField(q, r, u, n);
  }
}
