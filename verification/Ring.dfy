/** Positions on a circular chain of n descriptors.

    A position p counts the links followed from the head of the table since
    start-up, so positions only grow; Slot(p, n) is the table index reached.
 */
module Ring {

  /** The successor of table index i in a chain of n descriptors. */
  function Next(i: nat, n: nat): (r: nat)
    requires i < n
    ensures r < n
  {
    if i + 1 < n then i + 1 else 0
  }

  /** The table index reached from index 0 by following p links. */
  function Slot(p: nat, n: nat): (r: nat)
    requires n > 0
    ensures r < n
  {
    if p == 0 then 0 else Next(Slot(p - 1, n), n)
  }

  /** Following k < n further links either advances by k or wraps exactly once. */
  lemma {:induction false} SlotAdvance(p: nat, k: nat, n: nat)
    requires k < n
    ensures Slot(p + k, n) ==
            if Slot(p, n) + k < n then Slot(p, n) + k else Slot(p, n) + k - n
  {
    if k > 0 {
      SlotAdvance(p, k - 1, n);
      assert p + k - 1 == p + (k - 1);
    }
  }

  /** Two positions less than a full turn apart share a slot only when equal. */
  lemma SlotInjective(p: nat, q: nat, n: nat)
    requires n > 0
    requires p <= q < p + n
    requires Slot(p, n) == Slot(q, n)
    ensures p == q
  {
    SlotAdvance(p, q - p, n);
    assert p + (q - p) == q;
  }

  /** A full turn returns to the same slot. */
  lemma SlotPeriodic(p: nat, n: nat)
    requires n > 0
    ensures Slot(p + n, n) == Slot(p, n)
  {
    SlotAdvance(p, n - 1, n);
    assert p + n - 1 == p + (n - 1);
  }

  /** Every window of n consecutive positions covers every slot. */
  lemma SlotCovers(p: nat, i: nat, n: nat) returns (q: nat)
    requires i < n
    ensures p <= q < p + n && Slot(q, n) == i
  {
    var at := Slot(p, n);
    var k := if at <= i then i - at else i + n - at;
    SlotAdvance(p, k, n);
    q := p + k;
  }
}
