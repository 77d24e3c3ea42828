/** The backing store of a ring buffer as a sequence of slots, each either
    unconstructed (`None`) or holding a live element (`Some`), and the
    logical sequence those slots hold. The lemmas here are the per-step
    facts the container's operations rely on. */
module Slots {
  import opened CircularIndex

  datatype Option<T> = None | Some(value: T)

  /** The slots at logical offsets `lo <= i < hi` (relative to `start`) are
      exactly the constructed ones; every other slot is unconstructed. */
  ghost predicate LiveRange<T>(slots: seq<Option<T>>, start: nat, lo: nat, hi: nat)
  {
    forall i :: 0 <= i < |slots| ==> (slots[Physical(start, |slots|, i)].Some? <==> lo <= i < hi)
  }

  /** The container invariant over a store of `|slots|` slots:
      `size <= capacity`, `start` is a slot index (0 for an empty store),
      and the live slots are exactly the first `size` logical offsets. */
  ghost predicate WellFormed<T>(slots: seq<Option<T>>, start: nat, size: nat)
  {
    size <= |slots| &&
    (if |slots| == 0 then start == 0 else start < |slots|) &&
    LiveRange(slots, start, 0, size)
  }

  /** The logical sequence, oldest first. */
  ghost function Live<T>(slots: seq<Option<T>>, start: nat, size: nat): seq<T>
    requires WellFormed(slots, start, size)
  {
    seq(size, i requires 0 <= i < size => slots[Physical(start, |slots|, i)].value)
  }

  /** A freshly allocated store: nothing constructed, nothing live. */
  lemma Unconstructed<T>(slots: seq<Option<T>>)
    requires forall p :: 0 <= p < |slots| ==> slots[p] == None
    ensures WellFormed(slots, 0, 0) && Live(slots, 0, 0) == []
  {
  }

  /** With no live offset, every slot is unconstructed. */
  lemma EmptyRangeUnconstructed<T>(slots: seq<Option<T>>, start: nat, k: nat)
    requires start < |slots| && LiveRange(slots, start, k, k)
    ensures forall p :: 0 <= p < |slots| ==> slots[p] == None
  {
    forall p | 0 <= p < |slots|
      ensures slots[p] == None
    {
      var i := OffsetOf(start, |slots|, p);
      assert slots[Physical(start, |slots|, i)].None?;
    }
  }

  /** Destroying the first live slot of a range leaves the rest of the range
      live; that slot was constructed before (no double destroy). */
  lemma DestroyFirstLive<T>(slots: seq<Option<T>>, start: nat, lo: nat, hi: nat)
    requires start < |slots| && lo < hi <= |slots|
    requires LiveRange(slots, start, lo, hi)
    ensures slots[Physical(start, |slots|, lo)].Some?
    ensures LiveRange(slots[Physical(start, |slots|, lo) := None], start, lo + 1, hi)
  {
    var p := Physical(start, |slots|, lo);
    var s' := slots[p := None];
    forall i | 0 <= i < |s'|
      ensures s'[Physical(start, |s'|, i)].Some? <==> lo + 1 <= i < hi
    {
      PhysicalInjective(start, |slots|, i, lo);
    }
  }

  /** Advancing `start` by one renumbers the live offsets down by one. */
  lemma AdvanceStart<T>(slots: seq<Option<T>>, start: nat, lo: nat, hi: nat)
    requires start < |slots| && hi < |slots|
    requires LiveRange(slots, start, lo + 1, hi + 1)
    ensures LiveRange(slots, Physical(start, |slots|, 1), lo, hi)
  {
    var n := |slots|;
    forall i | 0 <= i < n
      ensures slots[Physical(Physical(start, n, 1), n, i)].Some? <==> lo <= i < hi
    {
      PhysicalAdvance(start, n, i);
      if i + 1 == n {
        assert Physical(start, n, i + 1) == Physical(start, n, 0);
      }
    }
  }

  /** Push into a store that is not full: the slot after the newest element
      is unconstructed, constructing `v` there makes it the newest element. */
  lemma AppendLive<T>(slots: seq<Option<T>>, start: nat, size: nat, v: T)
    requires WellFormed(slots, start, size) && size < |slots|
    ensures slots[Physical(start, |slots|, size)].None?
    ensures WellFormed(slots[Physical(start, |slots|, size) := Some(v)], start, size + 1)
    ensures Live(slots[Physical(start, |slots|, size) := Some(v)], start, size + 1)
            == Live(slots, start, size) + [v]
  {
    var n := |slots|;
    var p := Physical(start, n, size);
    var s' := slots[p := Some(v)];
    forall i | 0 <= i < n
      ensures s'[Physical(start, n, i)].Some? <==> 0 <= i < size + 1
    {
      PhysicalInjective(start, n, i, size);
    }
    assert WellFormed(s', start, size + 1);
    forall i | 0 <= i < size
      ensures Live(s', start, size + 1)[i] == Live(slots, start, size)[i]
    {
      PhysicalInjective(start, n, i, size);
    }
  }

  /** Push into a full store: the oldest slot is destroyed and reconstructed
      with `v`, `start` advances, and `v` becomes the newest element while
      the oldest is evicted. */
  lemma EvictOldest<T>(slots: seq<Option<T>>, start: nat, v: T)
    requires |slots| > 0 && WellFormed(slots, start, |slots|)
    ensures slots[start].Some?
    ensures WellFormed(slots[start := Some(v)], Physical(start, |slots|, 1), |slots|)
    ensures Live(slots[start := Some(v)], Physical(start, |slots|, 1), |slots|)
            == Live(slots, start, |slots|)[1..] + [v]
  {
    var n := |slots|;
    var s' := slots[start := Some(v)];
    var start' := Physical(start, n, 1);
    assert Physical(start, n, 0) == start;
    forall i | 0 <= i < n
      ensures s'[Physical(start', n, i)].Some?
      ensures Physical(start', n, i) == start <==> i == n - 1
      ensures i < n - 1 ==> s'[Physical(start', n, i)] == slots[Physical(start, n, i + 1)]
    {
      PhysicalAdvance(start, n, i);
      if i + 1 < n {
        PhysicalInjective(start, n, i + 1, 0);
      } else {
        assert Physical(start, n, i + 1) == Physical(start, n, 0);
      }
    }
    assert WellFormed(s', start', n);
    var old_live := Live(slots, start, n);
    var new_live := Live(s', start', n);
    forall i | 0 <= i < n
      ensures new_live[i] == (old_live[1..] + [v])[i]
    {
      if i < n - 1 {
        assert new_live[i] == slots[Physical(start, n, i + 1)].value;
      }
    }
  }

  /** Pop from a non-empty store: the oldest slot is destroyed, `start`
      advances, and the logical sequence loses its first element. */
  lemma DropOldest<T>(slots: seq<Option<T>>, start: nat, size: nat)
    requires WellFormed(slots, start, size) && size > 0
    ensures slots[start].Some?
    ensures WellFormed(slots[start := None], Physical(start, |slots|, 1), size - 1)
    ensures Live(slots[start := None], Physical(start, |slots|, 1), size - 1)
            == Live(slots, start, size)[1..]
  {
    var n := |slots|;
    var s' := slots[start := None];
    var start' := Physical(start, n, 1);
    assert Physical(start, n, 0) == start;
    DestroyFirstLive(slots, start, 0, size);
    AdvanceStart(s', start, 0, size - 1);
    var old_live := Live(slots, start, size);
    var new_live := Live(s', start', size - 1);
    forall i | 0 <= i < size - 1
      ensures new_live[i] == old_live[1..][i]
    {
      PhysicalAdvance(start, n, i);
      PhysicalInjective(start, n, i + 1, 0);
    }
  }

  /** Two well-formed stores with the same capacity, start, size and logical
      sequence are slot-for-slot identical: the layout is determined by them. */
  lemma LayoutDeterminedByContents<T>(a: seq<Option<T>>, b: seq<Option<T>>, start: nat, size: nat)
    requires |a| == |b|
    requires WellFormed(a, start, size) && WellFormed(b, start, size)
    requires Live(a, start, size) == Live(b, start, size)
    ensures a == b
  {
    forall p | 0 <= p < |a|
      ensures a[p] == b[p]
    {
      var i := OffsetOf(start, |a|, p);
      if i < size {
        assert Live(a, start, size)[i] == Live(b, start, size)[i];
      }
    }
  }

  function Min(x: nat, y: nat): nat { if x <= y then x else y }

  /** The logical effect of one push on a buffer of `capacity` slots: append,
      evicting the oldest element when the buffer is full. */
  function Pushed<T>(contents: seq<T>, capacity: nat, v: T): (r: seq<T>)
    requires 0 < capacity && |contents| <= capacity
    ensures |r| == Min(|contents| + 1, capacity)
  {
    if |contents| == capacity then contents[1..] + [v] else contents + [v]
  }

  /** One push keeps the newest `capacity` values of `contents + [v]`. */
  lemma PushedKeepsNewest<T>(contents: seq<T>, capacity: nat, v: T)
    requires 0 < capacity && |contents| <= capacity
    ensures Pushed(contents, capacity, v)
            == (contents + [v])[|contents| + 1 - Min(|contents| + 1, capacity)..]
  {
  }

  /** The logical effect of pushing `xs` in order. */
  function PushAll<T>(contents: seq<T>, capacity: nat, xs: seq<T>): (r: seq<T>)
    requires 0 < capacity && |contents| <= capacity
    decreases |xs|
  {
    if xs == [] then contents else PushAll(Pushed(contents, capacity, xs[0]), capacity, xs[1..])
  }

  /** FIFO overwrite: after any sequence of pushes the buffer holds the
      newest `capacity` values of everything pushed, in push order. */
  lemma {:induction false} FifoOverwrite<T>(contents: seq<T>, capacity: nat, xs: seq<T>)
    requires 0 < capacity && |contents| <= capacity
    decreases |xs|
    ensures PushAll(contents, capacity, xs)
            == (contents + xs)[|contents| + |xs| - Min(|contents| + |xs|, capacity)..]
  {
    if xs != [] {
      var c' := Pushed(contents, capacity, xs[0]);
      FifoOverwrite(c', capacity, xs[1..]);
    }
  }
}
