/** Construction and comparison of the ring buffer's random-access iterator
    `iteratorImp`. The store pointer `m_rbData` is an abstract buffer
    identity whose `<` is the integer order; `current` is the logical,
    unwrapped cursor (0 is the oldest element). */
module RingBufferIterators {

  /** Identity of a backing store; `NullBuffer` stands for `nullptr`. */
  type BufferId = int
  const NullBuffer: BufferId := 0

  /** The four fields `m_rbData`, `m_rbStart`, `m_rbCapacity`, `m_current`;
      the four-argument constructor stores its arguments unchanged. */
  datatype Iterator = Iterator(data: BufferId, start: nat, capacity: nat, current: nat)

  /** The default constructor: a null store, start 0, capacity 1, cursor 0. */
  function Default(): (it: Iterator)
    ensures it.data == NullBuffer && it.current == 0
    ensures it.start == 0 && it.capacity == 1
  {
    Iterator(NullBuffer, 0, 1, 0)
  }

  /** What every comparison asserts: iterators over the same store were
      taken with the same start. */
  predicate Comparable(a: Iterator, b: Iterator)
  {
    a.data == b.data ==> a.start == b.start
  }

  /** `operator==`: false across stores, otherwise the cursors decide. */
  predicate Equal(a: Iterator, b: Iterator)
    requires Comparable(a, b)
    ensures Equal(a, b) ==> a.data == b.data
  {
    if a.data != b.data then false else a.current == b.current
  }

  /** `operator!=`. */
  predicate NotEqual(a: Iterator, b: Iterator)
    requires Comparable(a, b)
    ensures NotEqual(a, b) <==> a.data != b.data || a.current != b.current
  {
    !Equal(a, b)
  }

  /** `operator<`: the store identity first, then the cursor. */
  predicate Less(a: Iterator, b: Iterator)
    requires Comparable(a, b)
    ensures Less(a, b) ==> a.data <= b.data
  {
    if a.data != b.data then a.data < b.data else a.current < b.current
  }

  /** `operator>`. */
  predicate Greater(a: Iterator, b: Iterator)
    requires Comparable(a, b)
    ensures Greater(a, b) ==> b.data <= a.data
  {
    Less(b, a)
  }

  /** `operator<=`. */
  predicate LessOrEqual(a: Iterator, b: Iterator)
    requires Comparable(a, b)
    ensures LessOrEqual(a, b) ==> a.data <= b.data
  {
    !Greater(a, b)
  }

  /** `operator>=`. */
  predicate GreaterOrEqual(a: Iterator, b: Iterator)
    requires Comparable(a, b)
    ensures GreaterOrEqual(a, b) ==> b.data <= a.data
  {
    !Less(a, b)
  }

  /** Two default iterators compare equal, and neither is less than the other. */
  lemma DefaultIteratorsEqual()
    ensures Comparable(Default(), Default())
    ensures Equal(Default(), Default()) && !NotEqual(Default(), Default())
    ensures !Less(Default(), Default())
  {
  }

  /** `==` is exactly incomparability under `<`, and `!=` holds exactly
      when one iterator is ordered before the other. */
  lemma EqualIsIncomparable(a: Iterator, b: Iterator)
    requires Comparable(a, b)
    ensures Equal(a, b) <==> !Less(a, b) && !Less(b, a)
    ensures NotEqual(a, b) <==> Less(a, b) || Greater(a, b)
  {
  }

  /** Within one store the cursor decides: moving an iterator forward by
      `k` positions makes it greater exactly when `k > 0`, and leaves it
      equal exactly when `k == 0`. */
  lemma AdvanceOrders(it: Iterator, k: nat)
    ensures Comparable(it, it.(current := it.current + k))
    ensures Less(it, it.(current := it.current + k)) <==> k > 0
    ensures Equal(it, it.(current := it.current + k)) <==> k == 0
  {
  }

  /** `==` is an equivalence on comparable iterators. */
  lemma EqualIsEquivalence(a: Iterator, b: Iterator, c: Iterator)
    requires Comparable(a, b) && Comparable(b, c) && Comparable(a, c)
    ensures Equal(a, a)
    ensures Equal(a, b) ==> Equal(b, a)
    ensures Equal(a, b) && Equal(b, c) ==> Equal(a, c)
  {
  }

  /** `<` is a strict order: irreflexive, asymmetric and transitive. */
  lemma LessIsStrictOrder(a: Iterator, b: Iterator, c: Iterator)
    requires Comparable(a, b) && Comparable(b, c) && Comparable(a, c)
    ensures !Less(a, a)
    ensures Less(a, b) ==> !Less(b, a)
    ensures Less(a, b) && Less(b, c) ==> Less(a, c)
  {
  }

  /** Trichotomy: exactly one of `a < b`, `a == b`, `a > b`. */
  lemma Trichotomy(a: Iterator, b: Iterator)
    requires Comparable(a, b)
    ensures Less(a, b) || Equal(a, b) || Greater(a, b)
    ensures !(Less(a, b) && Equal(a, b))
    ensures !(Less(a, b) && Greater(a, b))
    ensures !(Equal(a, b) && Greater(a, b))
  {
  }

  /** The derived operators: `>` is the converse of `<`, `<=` is `<` or `==`,
      `>=` is `>` or `==`. */
  lemma DerivedOperators(a: Iterator, b: Iterator)
    requires Comparable(a, b)
    ensures Greater(a, b) <==> Less(b, a)
    ensures LessOrEqual(a, b) <==> Less(a, b) || Equal(a, b)
    ensures GreaterOrEqual(a, b) <==> Greater(a, b) || Equal(a, b)
  {
  }
}
