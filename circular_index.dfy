/** The circular index mapping of the ring buffer: logical offset `offset`
    from the oldest element lives at physical slot `(start + offset) % capacity`.
    Every element access of the container goes through `Physical`. */
module CircularIndex {

  /** Physical slot of logical offset `offset` for a store of `capacity`
      slots whose oldest element sits at `start`. */
  function Physical(start: nat, capacity: nat, offset: nat): (p: nat)
    requires capacity > 0
    ensures p < capacity
    ensures start + offset < 2 * capacity ==>
              p == if start + offset < capacity then start + offset else start + offset - capacity
  {
    (start + offset) % capacity
  }

  /** The logical offset, relative to `start`, of physical slot `p`:
      the inverse of `Physical` on `[0, capacity)`. */
  function OffsetOf(start: nat, capacity: nat, p: nat): (i: nat)
    requires start < capacity && p < capacity
    ensures i < capacity && Physical(start, capacity, i) == p
  {
    if start <= p then p - start else p + capacity - start
  }

  /** Distinct logical offsets within one lap map to distinct physical slots. */
  lemma PhysicalInjective(start: nat, capacity: nat, i: nat, j: nat)
    requires start < capacity && i < capacity && j < capacity
    ensures Physical(start, capacity, i) == Physical(start, capacity, j) <==> i == j
  {
  }

  /** Advancing `start` by one slot shifts every logical offset by one. */
  lemma PhysicalAdvance(start: nat, capacity: nat, i: nat)
    requires start < capacity && i < capacity
    ensures Physical(Physical(start, capacity, 1), capacity, i) == Physical(start, capacity, i + 1)
  {
    var s1 := Physical(start, capacity, 1);
    if start + 1 < capacity {
      assert s1 == start + 1;
    } else {
      assert s1 == 0;
    }
  }
}
