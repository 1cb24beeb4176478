/** Positions on a circle of `cap` slots, in the linear forms the proofs compute with. */
module Circular {

  /** The slot `k` steps after `tail`. */
  function SlotOf(tail: nat, k: nat, cap: nat): (i: nat)
    requires tail < cap && k <= cap
    ensures i < cap
  {
    if tail + k < cap then tail + k else tail + k - cap
  }

  /** How many steps after `tail` slot `i` lies. */
  function Dist(tail: nat, i: nat, cap: nat): (d: nat)
    requires tail < cap && i < cap
    ensures d < cap
    ensures SlotOf(tail, d, cap) == i
  {
    if tail <= i then i - tail else i + cap - tail
  }

  lemma SmallMultiple(k: int, cap: int)
    requires 0 < cap && -cap < k * cap < cap
    ensures k == 0
  {
    if k >= 1 {
      MulMonotone(1, k, cap);
    } else if k <= -1 {
      MulMonotone(k, -1, cap);
    }
  }

  lemma MulMonotone(a: int, b: int, c: int)
    requires a <= b && 0 <= c
    ensures a * c <= b * c
  {
    assert (b - a) * c >= 0;
    assert (b - a) * c == b * c - a * c;
  }

  lemma ModUnique(x: int, cap: int, r: int, q: int)
    requires 0 < cap && 0 <= r < cap && x == q * cap + r
    ensures x % cap == r
  {
    var d, m := x / cap, x % cap;
    assert x == d * cap + m;
    assert (d - q) * cap == d * cap - q * cap;
    SmallMultiple(d - q, cap);
  }

  /** Both forms agree with the remainder operator the C code uses. */
  lemma SlotOfIsMod(tail: nat, k: nat, cap: nat)
    requires tail < cap && k <= cap
    ensures SlotOf(tail, k, cap) == (tail + k) % cap
  {
    ModUnique(tail + k, cap, SlotOf(tail, k, cap), if tail + k < cap then 0 else 1);
  }

  lemma DistIsMod(tail: nat, i: nat, cap: nat)
    requires tail < cap && i < cap
    ensures Dist(tail, i, cap) == (i - tail) % cap
  {
    ModUnique(i - tail, cap, Dist(tail, i, cap), if tail <= i then 0 else -1);
  }

  lemma NextIsSlotOf(i: nat, cap: nat)
    requires i < cap
    ensures (i + 1) % cap == SlotOf(i, 1, cap)
  {
    SlotOfIsMod(i, 1, cap);
  }

  /** Where `total` single steps from slot 0 lead. */
  function After(total: nat, cap: nat): (i: nat)
    requires 0 < cap
    ensures i < cap
  {
    if total == 0 then 0 else SlotOf(After(total - 1, cap), 1, cap)
  }

  lemma {:induction false} AfterMore(total: nat, k: nat, cap: nat)
    requires 0 < cap && k <= cap
    ensures After(total + k, cap) == SlotOf(After(total, cap), k, cap)
  {
    if k > 0 {
      AfterMore(total, k - 1, cap);
    }
  }

  lemma {:induction false} AfterIsMod(total: nat, cap: nat)
    requires 0 < cap
    ensures After(total, cap) == total % cap
  {
    if total > 0 {
      AfterIsMod(total - 1, cap);
      ModAddOne(total - 1, cap);
    }
  }

  lemma ModAddOne(total: nat, cap: nat)
    requires 0 < cap
    ensures SlotOf(total % cap, 1, cap) == (total + 1) % cap
  {
    var q, r := total / cap, total % cap;
    assert total == q * cap + r;
    assert (q + 1) * cap == q * cap + cap;
    ModUnique(total + 1, cap, SlotOf(r, 1, cap), if r + 1 < cap then q else q + 1);
  }

  /**
   The byte at which slot `i` of `size` bytes begins. It is the product of the two, written as a sum
   because the solver is quick with sums.
   */
  function Offset(i: nat, size: nat): nat {
    if i == 0 then 0 else Offset(i - 1, size) + size
  }

  lemma {:induction false} OffsetIsProduct(i: nat, size: nat)
    ensures Offset(i, size) == i * size
  {
    if i > 0 {
      OffsetIsProduct(i - 1, size);
      assert (i - 1) * size + size == i * size;
    }
  }

  /** Slot `i` of size `size` lies inside the flat buffer. */
  lemma {:induction false} SlotInBuffer(i: nat, cap: nat, size: nat)
    requires i < cap
    ensures Offset(i, size) + size <= Offset(cap, size)
  {
    if i + 1 < cap {
      SlotInBuffer(i, cap - 1, size);
    }
  }

  /** Different slots do not share bytes. */
  lemma SlotsDisjoint(i: nat, j: nat, size: nat)
    requires i != j
    ensures Offset(i, size) + size <= Offset(j, size) || Offset(j, size) + size <= Offset(i, size)
  {
    if i < j {
      SlotInBuffer(i, j, size);
    } else {
      SlotInBuffer(j, i, size);
    }
  }
}
