/** Ring arithmetic: power-of-two capacities, wrapping 32-bit cursors and the slots they select. */
module Slots {
  import opened Wire

  function Pow2(k: nat): (p: nat)
    ensures p > 0
  {
    if k == 0 then 1 else 2 * Pow2(k - 1)
  }

  /** What `InputRing::new` asserts of its capacity. */
  ghost predicate IsCapacity(n: nat) {
    exists k: nat :: k < 32 && n == Pow2(k)
  }

  lemma {:induction false} Pow2Sum(i: nat, j: nat)
    ensures Pow2(i) * Pow2(j) == Pow2(i + j)
  {
    if i > 0 {
      Pow2Sum(i - 1, j);
    }
  }

  lemma Pow2Is32()
    ensures Pow2(32) == TWO32
  {
    Pow2Sum(16, 16);
    Pow2Sum(8, 8);
    assert Pow2(8) == 256;
  }

  /** A capacity divides the range of the cursors. */
  lemma CapacityDivides(n: nat) returns (m: nat)
    requires IsCapacity(n)
    ensures m >= 2 && n * m == TWO32 && 0 < n < TWO32
  {
    var k: nat :| k < 32 && n == Pow2(k);
    Pow2Sum(k, 32 - k);
    Pow2Is32();
    m := Pow2(32 - k);
    assert m == 2 * Pow2(31 - k);
    Monotone(2, m, n);
  }

  lemma Monotone(a: nat, b: nat, c: nat)
    requires a <= b
    ensures a * c <= b * c && c * a <= c * b
  {
  }

  /** The slot of an absolute position. */
  function Slot(position: nat, n: nat): (i: nat)
    requires n > 0
    ensures i < n
  {
    position % n
  }

  lemma SlotPeriodic(position: nat, n: nat, turns: nat)
    requires n > 0
    ensures Slot(position + n * turns, n) == Slot(position, n)
  {
    var q := position / n;
    assert position == n * q + position % n;
    DivUnique(position + n * turns, n, q + turns, position % n);
  }

  /** The only multiple of `n` strictly between `-n` and `n` is zero. */
  lemma SmallMultiple(n: int, d: int)
    requires n > 0
    ensures -n < n * d < n ==> d == 0
  {
    if d >= 1 {
      assert n * d == n + n * (d - 1);
    } else if d <= -1 {
      assert n * d == -n + n * (d + 1);
    }
  }

  /** Quotient and remainder are unique. */
  lemma DivUnique(a: int, n: int, q: int, r: int)
    requires n > 0 && 0 <= r < n && a == n * q + r
    ensures a / n == q && a % n == r
  {
    var q', r' := a / n, a % n;
    assert a == n * q' + r';
    Distribute(n, q', q);
    SmallMultiple(n, q' - q);
  }

  lemma Distribute(n: int, x: int, y: int)
    ensures n * (x - y) == n * x - n * y
  {
  }

  /** A wrapped cursor selects the slot of the position it stands for. */
  lemma CursorSlot(position: nat, offset: nat, n: nat)
    requires IsCapacity(n)
    ensures n > 0 && Slot(position % TWO32 + offset, n) == Slot(position + offset, n)
  {
    var m := CapacityDivides(n);
    var turns := m * (position / TWO32);
    assert position == TWO32 * (position / TWO32) + position % TWO32;
    assert n * turns == TWO32 * (position / TWO32) by {
      MulAssociative(n, m, position / TWO32);
    }
    SlotPeriodic(position % TWO32 + offset, n, turns);
  }

  lemma MulAssociative(a: int, b: int, c: int)
    ensures a * (b * c) == (a * b) * c
  {
  }

  /** Positions closer than the capacity use different slots. */
  lemma SlotsDiffer(a: nat, b: nat, n: nat)
    requires n > 0 && a < b < a + n
    ensures Slot(a, n) != Slot(b, n)
  {
    if Slot(a, n) == Slot(b, n) {
      Distribute(n, b / n, a / n);
      SmallMultiple(n, b / n - a / n);
    }
  }

  /** The difference of two wrapped cursors is the distance of their positions, if that fits in 32 bits. */
  lemma CursorDistance(later: nat, earlier: nat)
    requires earlier <= later < earlier + TWO32
    ensures WrappingSub(later % TWO32, earlier % TWO32) == later - earlier
  {
  }

  lemma CursorsEqual(later: nat, earlier: nat)
    requires earlier <= later < earlier + TWO32
    ensures later % TWO32 == earlier % TWO32 <==> later == earlier
  {
  }
}
