/** The fixed-capacity circular buffer `RingBuffer<T, Alloc>`. The backing
    store is an array of slots: `None` is raw, unconstructed memory and
    `Some(x)` a slot holding a constructed element. The allocator's
    construct/destroy calls are the writes of `ConstructAt` and `DestroyAt`,
    whose preconditions forbid constructing over a live element and
    destroying an unconstructed slot. */
module RingBuffers {
  import opened CircularIndex
  import opened Slots

  /** The `std::range_error` message raised by `front`, `back`, `pop_front`. */
  const EmptyMessage: string := "ring buffer is empty"

  datatype Result<T> = Ok(value: T) | Err(message: string)

  class RingBuffer<T> {
    var data: array?<Option<T>>
    var start: nat
    var capacity: nat
    var size: nat
    /** Set once the destructor has released the store. */
    ghost var released: bool

    /** The slots of the store; a null store has none. */
    ghost function Store(): seq<Option<T>>
      reads this, data
    {
      if data == null then [] else data[..]
    }

    /** The object invariant: a null store only in the moved-from state
        (capacity, start and size all 0); otherwise the store has `capacity`
        slots and its live slots are exactly offsets `0 .. size-1` from `start`. */
    ghost predicate Valid()
      reads this, data
    {
      !released &&
      (data == null ==> capacity == 0 && start == 0 && size == 0) &&
      |Store()| == capacity &&
      WellFormed(Store(), start, size)
    }

    /** The logical sequence of live elements, oldest first. */
    ghost function Contents(): seq<T>
      reads this, data
      requires Valid()
    {
      Live(Store(), start, size)
    }

    /** `RingBuffer(capacity, alloc)`: allocates `capacity` raw slots and
        constructs nothing. */
    constructor (capacity: nat)
      ensures Valid() && fresh(data)
      ensures this.capacity == capacity && start == 0 && size == 0
      ensures forall p :: 0 <= p < |Store()| ==> Store()[p] == None
      ensures Contents() == []
    {
      data := new Option<T>[capacity](_ => None);
      this.capacity := capacity;
      start := 0;
      size := 0;
      released := false;
      new;
      Unconstructed(data[..]);
    }

    /** Copy construction: a fresh store of the same capacity and the same
        `start`, filled by pushing `other`'s elements in logical order. */
    constructor Copy(other: RingBuffer<T>)
      requires other.Valid()
      ensures Valid() && fresh(data)
      ensures capacity == other.capacity && start == other.start && size == other.size
      ensures Contents() == other.Contents()
      ensures Store() == other.Store()
    {
      data := new Option<T>[other.capacity](_ => None);
      capacity := other.capacity;
      start := other.start;
      size := 0;
      released := false;
      new;
      Unconstructed(data[..]);
      ghost var source := other.Contents();
      var pos := 0;
      while pos < other.size
        invariant 0 <= pos <= other.size
        invariant Valid() && fresh(data)
        invariant capacity == other.capacity && start == other.start && size == pos
        invariant Contents() == source[..pos]
      {
        var x := other.At(pos);
        // the copy is never full while it is being filled
        assert size < capacity;
        PushBack(x);
        assert source[..pos + 1] == source[..pos] + [x];
        pos := pos + 1;
      }
      assert source[..pos] == source;
      LayoutDeterminedByContents(Store(), other.Store(), start, size);
    }

    /** Move construction: takes over the store, start, capacity and size;
        `other` is left with a null store and everything 0. */
    constructor Move(other: RingBuffer<T>)
      requires other.Valid()
      modifies other
      ensures Valid() && other.Valid()
      ensures data == old(other.data) && start == old(other.start)
      ensures capacity == old(other.capacity) && size == old(other.size)
      ensures Contents() == old(other.Contents())
      ensures other.data == null && other.start == 0 && other.capacity == 0 && other.size == 0
      ensures other.Contents() == []
    {
      data := other.data;
      start := other.start;
      capacity := other.capacity;
      size := other.size;
      released := false;
      new;
      other.data := null;
      other.start := 0;
      other.capacity := 0;
      other.size := 0;
    }

    /** Runs the element destructor on a live slot. */
    method DestroyAt(p: nat)
      requires data != null && p < data.Length && data[p].Some?
      modifies data
      ensures data[..] == old(data[..])[p := None]
    {
      data[p] := None;
    }

    /** Constructs `v` in a raw slot. */
    method ConstructAt(p: nat, v: T)
      requires data != null && p < data.Length && data[p].None?
      modifies data
      ensures data[..] == old(data[..])[p := Some(v)]
    {
      data[p] := Some(v);
    }

    /** The destructor: destroys the `size` live slots in logical order, each
        exactly once, then releases the store. */
    method Destroy()
      requires Valid()
      modifies this, data
      ensures released
      ensures data == old(data) && start == old(start)
      ensures capacity == old(capacity) && size == old(size)
      ensures forall p :: 0 <= p < |Store()| ==> Store()[p] == None
    {
      if data != null {
        var pos := 0;
        while pos < size
          invariant 0 <= pos <= size
          invariant data == old(data) && start == old(start)
          invariant capacity == old(capacity) && size == old(size)
          invariant LiveRange(data[..], start, pos, size)
        {
          var realPos := Physical(start, capacity, pos);
          DestroyFirstLive(data[..], start, pos, size);
          DestroyAt(realPos);
          pos := pos + 1;
        }
        if 0 < capacity {
          EmptyRangeUnconstructed(data[..], start, size);
        }
      }
      released := true;
    }

    /** `empty()`. */
    function Empty(): (b: bool)
      reads this, data
      requires Valid()
      ensures b <==> Contents() == []
    {
      size == 0
    }

    /** `size()`. */
    function Size(): (n: nat)
      reads this, data
      requires Valid()
      ensures n == |Contents()| && n <= capacity
    {
      size
    }

    /** `capacity()`. */
    function Capacity(): (n: nat)
      reads this, data
      requires Valid()
      ensures n == |Store()|
    {
      capacity
    }

    /** `front()`: the oldest element, or a range error when empty. */
    function Front(): (r: Result<T>)
      reads this, data
      requires Valid()
      ensures r.Err? <==> Contents() == []
      ensures r.Err? ==> r.message == EmptyMessage
      ensures r.Ok? ==> r.value == Contents()[0]
    {
      if Empty() then Err(EmptyMessage)
      else
        assert Store()[Physical(start, capacity, 0)].Some?;
        Ok(data[start].value)
    }

    /** `back()`: the newest element, or a range error when empty. */
    function Back(): (r: Result<T>)
      reads this, data
      requires Valid()
      ensures r.Err? <==> Contents() == []
      ensures r.Err? ==> r.message == EmptyMessage
      ensures r.Ok? ==> r.value == Contents()[|Contents()| - 1]
    {
      if Empty() then Err(EmptyMessage) else Ok(data[Physical(start, capacity, size - 1)].value)
    }

    /** `operator[]`: logical element `pos`; the source does no bounds check,
        so callers must stay below `size`. */
    function At(pos: nat): (r: T)
      reads this, data
      requires Valid() && pos < size
      ensures r == Contents()[pos]
    {
      data[Physical(start, capacity, pos)].value
    }

    /** `push_back` / `emplace_back` via `push_back_imp`: when full, destroy
        and reconstruct the oldest slot and advance `start`; otherwise
        construct in the slot after the newest element and grow `size`. */
    method PushBack(v: T)
      requires Valid() && capacity > 0
      modifies this, data
      ensures Valid() && data == old(data) && capacity == old(capacity)
      ensures Contents() == Pushed(old(Contents()), capacity, v)
      ensures old(size) < capacity ==>
                start == old(start) && size == old(size) + 1 &&
                Store() == old(Store())[Physical(start, capacity, old(size)) := Some(v)]
      ensures old(size) == capacity ==>
                start == (old(start) + 1) % capacity && size == capacity &&
                Store() == old(Store())[old(start) := Some(v)]
    {
      if size == capacity {
        EvictOldest(data[..], start, v);
        DestroyAt(start);
        ConstructAt(start, v);
        start := (start + 1) % capacity;
      } else {
        AppendLive(data[..], start, size, v);
        ConstructAt(Physical(start, capacity, size), v);
        size := size + 1;
      }
    }

    /** `pop_front()`: a range error, with nothing changed, when empty;
        otherwise destroys the oldest slot and advances `start`. */
    method PopFront() returns (r: Result<()>)
      requires Valid()
      modifies this, data
      ensures Valid() && data == old(data) && capacity == old(capacity)
      ensures r.Err? <==> old(size) == 0
      ensures old(size) == 0 ==>
                r == Err(EmptyMessage) && start == old(start) && size == 0 &&
                Store() == old(Store())
      ensures old(size) > 0 ==>
                r == Ok(()) && start == (old(start) + 1) % capacity && size == old(size) - 1 &&
                Store() == old(Store())[old(start) := None] &&
                Contents() == old(Contents())[1..]
    {
      if Empty() {
        return Err(EmptyMessage);
      }
      DropOldest(data[..], start, size);
      DestroyAt(start);
      start := (start + 1) % capacity;
      size := size - 1;
      r := Ok(());
    }

    /** `swap(other)`: exchanges store, start, capacity and size. */
    method Swap(other: RingBuffer<T>)
      requires Valid() && other.Valid()
      modifies this, other
      ensures Valid() && other.Valid()
      ensures data == old(other.data) && other.data == old(data)
      ensures start == old(other.start) && other.start == old(start)
      ensures capacity == old(other.capacity) && other.capacity == old(capacity)
      ensures size == old(other.size) && other.size == old(size)
      ensures Contents() == old(other.Contents()) && other.Contents() == old(Contents())
    {
      var d, s, c, n := data, start, capacity, size;
      data := other.data;
      start := other.start;
      capacity := other.capacity;
      size := other.size;
      other.data := d;
      other.start := s;
      other.capacity := c;
      other.size := n;
    }
  }

  /** Capacity 2: pushing 1, 2, 3 evicts 1; popping then leaves only 3. */
  method EvictionScenario() {
    var b := new RingBuffer<int>(2);
    b.PushBack(1);
    b.PushBack(2);
    b.PushBack(3);
    assert b.Front() == Ok(2) && b.Back() == Ok(3);
    var r := b.PopFront();
    assert r == Ok(()) && b.Contents() == [3];
  }
}
