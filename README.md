# RingBuffer — a verified model of the fixed-capacity circular buffer

This project models `RingBuffer<T, Alloc>`, a fixed-capacity circular
buffer. The buffer keeps up to `capacity` elements in one pre-allocated store
and never grows. The oldest live element sits at physical slot `start`, and
logical element `i` lives at slot `(start + i) % capacity`. A push onto a full
buffer destroys the oldest element, constructs the new one in its slot and
advances `start`. The project also models the ordering of the buffer's
iterator, `iteratorImp`.

Layout:

- `circular_index.dfy` (module `CircularIndex`): the index mapping
  `Physical(start, capacity, offset) = (start + offset) % capacity`, its
  inverse `OffsetOf`, and the facts the container needs about it.
- `slots.dfy` (module `Slots`): the store as a sequence of `Option` slots.
  `None` is raw memory and `Some(x)` a constructed element. The module has the
  container invariant `WellFormed`, the logical sequence `Live`, and one lemma
  per mutation step: push into free space, evict when full, pop, destroy. It
  also has the abstract effect of a push (`Pushed`) and the FIFO-overwrite law
  for any sequence of pushes.
- `ring_buffer.dfy` (module `RingBuffers`): the class `RingBuffer<T>` with the
  fields `data` (a nullable array of slots), `start`, `capacity` and `size`, plus
  a ghost `released` flag that the destructor sets. Its methods update these
  fields in place and are proved against `Contents()`, the logical sequence,
  and `Store()`, the physical layout. The allocator's per-slot `construct` and
  `destroy` are `ConstructAt` and `DestroyAt`. Their preconditions make
  construction over a live element and destruction of a raw slot impossible.
  `std::range_error` becomes `Err("ring buffer is empty")`.
- `ring_buffer_iterator.dfy` (module `RingBufferIterators`): the iterator as a
  value of four fields. The store pointer is modelled as an integer buffer id,
  with `nullptr` as `0`. `==`, `!=`, `<`, `>`, `<=` and `>=` are modelled as
  predicates.

Notes on the source that shape the model:

- RingBuffer/RingBuffer_PushBack.hpp dispatches to an assignment-based
  replacement of the oldest element, but the helper methods it calls are
  declared nowhere in RingBuffer/RingBuffer.h. `push_back_imp`
  (RingBuffer/RingBuffer.hpp:188-220) always destroys and then constructs, so
  the model has only that path.
- The capacity constructor (RingBuffer/RingBuffer.hpp:6-18) accepts capacity
  0. The model accepts it too, and requires `capacity > 0` only for push,
  where the code divides by the capacity.
- `clear`, copy and move assignment, buffer `==`/`!=` and iterator arithmetic
  are declared in RingBuffer/RingBuffer.h and defined in neither `.hpp` file.

## Model

| member | source | states |
|---|---|---|
| `CircularIndex.Physical` | RingBuffer/RingBuffer.hpp:113-125 | the slot for a logical offset is always inside `[0, capacity)`; within one wrap it is `start + offset`, or that minus `capacity` |
| `CircularIndex.OffsetOf` | RingBuffer/RingBuffer.hpp:57-59 | every physical slot is `Physical(start, capacity, i)` for some logical offset `i < capacity` (the mapping is onto; `PhysicalInjective` gives uniqueness) |
| `CircularIndex.PhysicalInjective` | RingBuffer/RingBuffer.hpp:57-65 | distinct logical offsets within one lap map to distinct slots, so the destructor's `size` destroy calls hit pairwise distinct slots |
| `CircularIndex.PhysicalAdvance` | RingBuffer/RingBuffer.hpp:157 | after `start := (start + 1) % capacity`, offset `i` names the slot that offset `i + 1` named before |
| `Slots.Unconstructed` | RingBuffer/RingBuffer.hpp:6-18 | a store with no constructed slot, with `start = 0` and `size = 0`, satisfies the invariant and holds the empty sequence |
| `Slots.EmptyRangeUnconstructed` | RingBuffer/RingBuffer.hpp:57-65 | once all live offsets are destroyed, every slot of the store is raw |
| `Slots.DestroyFirstLive` | RingBuffer/RingBuffer.hpp:57-65 | the next slot the destructor loop destroys is constructed, and destroying it leaves exactly the remaining offsets live |
| `Slots.AdvanceStart` | RingBuffer/RingBuffer.hpp:157 | advancing `start` by one renumbers the live logical offsets down by one |
| `Slots.AppendLive` | RingBuffer/RingBuffer.hpp:210-219 | on a non-full store, slot `(start+size)%cap` is raw; constructing `v` there keeps the invariant with `size+1` and gives contents `old + [v]` |
| `Slots.EvictOldest` | RingBuffer/RingBuffer.hpp:193-209 | on a full store, slot `start` is live; destroying it, constructing `v` there and advancing `start` keeps the store full and gives contents `old[1..] + [v]` |
| `Slots.DropOldest` | RingBuffer/RingBuffer.hpp:146-159 | on a non-empty store, slot `start` is live; destroying it and advancing `start` keeps the invariant with `size-1` and gives contents `old[1..]` |
| `Slots.LayoutDeterminedByContents` | RingBuffer/RingBuffer.hpp:20-36 | two valid stores with the same capacity, start, size and logical contents are identical slot for slot (the copy preserves the physical layout) |
| `Slots.Pushed` | RingBuffer/RingBuffer.hpp:188-220 | one push yields `min(size + 1, capacity)` elements, so the size never exceeds the capacity |
| `Slots.PushedKeepsNewest` | RingBuffer/RingBuffer.hpp:188-220 | one push keeps the newest `min(size + 1, capacity)` values of `old + [v]` |
| `Slots.FifoOverwrite` | RingBuffer/RingBuffer.hpp:188-220 | after any sequence of pushes, the buffer holds the newest `capacity` values of everything pushed, in push order (the oldest are evicted first) |
| `RingBuffers.RingBuffer.constructor` | RingBuffer/RingBuffer.hpp:6-18 | a fresh store of `capacity` raw slots, with `start = 0`, `size = 0` and empty contents |
| `RingBuffers.RingBuffer.Copy` | RingBuffer/RingBuffer.hpp:20-36 | a fresh store with the source's capacity, start and size, the same logical contents and the same physical layout; the full branch of the push is never taken while copying |
| `RingBuffers.RingBuffer.Move` | RingBuffer/RingBuffer.hpp:38-51 | takes over the source's store, start, capacity, size and contents; the source is left valid with a null store and everything 0 |
| `RingBuffers.RingBuffer.DestroyAt` | RingBuffer/RingBuffer.hpp:60-64 | destroying is allowed only on a constructed slot, which becomes raw; no other slot changes |
| `RingBuffers.RingBuffer.ConstructAt` | RingBuffer/RingBuffer.hpp:201-206 | constructing is allowed only into a raw slot, which then holds the value; no other slot changes |
| `RingBuffers.RingBuffer.Destroy` | RingBuffer/RingBuffer.hpp:54-73 | destroys each of the `size` live slots exactly once (each was constructed when destroyed), leaves every slot raw, then releases the store |
| `RingBuffers.RingBuffer.Empty` | RingBuffer/RingBuffer.hpp:182-186 | true exactly when the logical contents are empty |
| `RingBuffers.RingBuffer.Size` | RingBuffer/RingBuffer.hpp:170-174 | the length of the logical contents, never above the capacity |
| `RingBuffers.RingBuffer.Capacity` | RingBuffer/RingBuffer.hpp:176-180 | the number of slots in the store (0 for a moved-from buffer) |
| `RingBuffers.RingBuffer.Front` | RingBuffer/RingBuffer.hpp:75-91 | an empty-buffer range error exactly when the buffer is empty; otherwise logical element 0 |
| `RingBuffers.RingBuffer.Back` | RingBuffer/RingBuffer.hpp:93-111 | an empty-buffer range error exactly when the buffer is empty; otherwise logical element `size-1` |
| `RingBuffers.RingBuffer.At` | RingBuffer/RingBuffer.hpp:113-125 | for `pos < size`, logical element `pos` |
| `RingBuffers.RingBuffer.PushBack` | RingBuffer/RingBuffer.hpp:127-144 | keeps the invariant and the capacity, and makes the contents `Pushed(old, capacity, v)`; when not full, only slot `(start+size)%cap` changes and `size` grows; when full, only slot `start` changes, `start` advances and `size` stays `capacity` |
| `RingBuffers.RingBuffer.PopFront` | RingBuffer/RingBuffer.hpp:146-159 | on an empty buffer, an empty-buffer range error with nothing changed; otherwise only slot `start` is destroyed, `start` advances, `size` drops by one and the contents become `old[1..]` |
| `RingBuffers.RingBuffer.Swap` | RingBuffer/RingBuffer.hpp:161-168 | exchanges store, start, capacity and size, and with them the contents, and both buffers stay valid (the free `swap` at lines 222-227 delegates here) |
| `RingBufferIterators.Default` | RingBuffer/RingBufferIterator.hpp:7-16 | a default iterator has a null store, start 0, capacity 1 and cursor 0 |
| `RingBufferIterators.DefaultIteratorsEqual` | RingBuffer/RingBufferIterator.hpp:35-44 | two default iterators compare equal, and neither is less than the other |
| `RingBufferIterators.Equal` | RingBuffer/RingBufferIterator.hpp:35-44 | `operator==`: iterators over different stores are never equal; `EqualIsIncomparable`, `EqualIsEquivalence` and `Trichotomy` constrain it further |
| `RingBufferIterators.NotEqual` | RingBuffer/RingBufferIterator.hpp:46-51 | `operator!=`: holds exactly when the stores or the cursors differ; `EqualIsIncomparable` shows it is `<` or `>` |
| `RingBufferIterators.Less` | RingBuffer/RingBufferIterator.hpp:53-62 | `operator<`: the store identity decides first (`a < b` implies `a`'s store id is not above `b`'s), and within one store the smaller cursor is the lesser iterator (`AdvanceOrders`); `LessIsStrictOrder` and `Trichotomy` make it a strict total order together with `==` |
| `RingBufferIterators.Greater` | RingBuffer/RingBufferIterator.hpp:64-69 | `operator>`: implies `b`'s store id is not above `a`'s; `DerivedOperators` shows it is `b < a` |
| `RingBufferIterators.LessOrEqual` | RingBuffer/RingBufferIterator.hpp:71-76 | `operator<=`: implies `a`'s store id is not above `b`'s; `DerivedOperators` shows it is `<` or `==` |
| `RingBufferIterators.GreaterOrEqual` | RingBuffer/RingBufferIterator.hpp:78-83 | `operator>=`: implies `b`'s store id is not above `a`'s; `DerivedOperators` shows it is `>` or `==` |
| `RingBufferIterators.AdvanceOrders` | RingBuffer/RingBufferIterator.hpp:35-62 | within one store, moving an iterator's cursor forward by `k` makes it greater than the original exactly when `k > 0`, and equal to it exactly when `k == 0` |
| `RingBufferIterators.EqualIsIncomparable` | RingBuffer/RingBufferIterator.hpp:35-62 | `==` holds exactly when neither iterator is `<` the other, and `!=` holds exactly when one is `<` or `>` the other |
| `RingBufferIterators.EqualIsEquivalence` | RingBuffer/RingBufferIterator.hpp:35-44 | `==` is reflexive, symmetric and transitive |
| `RingBufferIterators.LessIsStrictOrder` | RingBuffer/RingBufferIterator.hpp:53-62 | `<` is irreflexive, asymmetric and transitive |
| `RingBufferIterators.Trichotomy` | RingBuffer/RingBufferIterator.hpp:35-69 | exactly one of `a < b`, `a == b` and `a > b` holds |
| `RingBufferIterators.DerivedOperators` | RingBuffer/RingBufferIterator.hpp:64-83 | `a > b` is `b < a`, `<=` is `<` or `==`, and `>=` is `>` or `==` |

The four-argument iterator constructor (RingBuffer/RingBufferIterator.hpp:18-33)
is the datatype constructor `Iterator(data, start, capacity, current)`. It
stores its arguments unchanged, and the cursor is logical (not wrapped). The
field declarations of the container (RingBuffer/RingBuffer.h:106-111) are the
class fields; the object invariant `Valid()` states `size <= capacity`,
`start < capacity` (or everything 0 in a store of no slots), and that the live
slots are exactly `(start + i) % capacity` for `i < size`.

## Left out

- The allocator object is not modelled: `allocate`, `deallocate`,
  `select_on_container_copy_construction`, and moving the allocator in the
  move constructor. Allocation always succeeds and yields raw slots.
  Deallocation is the ghost `released` flag.
- An element constructor that throws in the middle of a push is not modelled.
  The source leaves that exception contract open.
- `clear`, copy and move assignment, buffer `operator==`/`!=`, and iterator
  arithmetic and dereference are declared in RingBuffer/RingBuffer.h but never
  defined, so they are not modelled. The `iterator` class declared there does
  not match `iteratorImp`.
- RingBuffer/RingBuffer_PushBack.hpp dispatches to helper methods that are not
  defined anywhere, so the assignment-based replacement path is not part of
  this model.
- The early stub at the repository root (RingBuffer.h, RingBuffer.hpp) and the
  test program RingBufferTests/RingBufferTests/main.cpp are not part of this
  model.
- `size_type` is unsigned and finite. The model uses unbounded naturals, so
  wrap-around of `start + size` is not modelled.
- `RingBuffers.RingBuffer.PushBack` requires `capacity > 0`. On a zero-capacity
  buffer the source computes `% 0`, which has no defined result.
- `RingBuffers.RingBuffer.At` requires `pos < size`. The source does no
  bounds check: for `pos >= size` it reads slot `(start + pos) % capacity`,
  which is logical element `pos % capacity` when that is below `size` (for
  example `pos == capacity` on a full buffer) and raw memory otherwise. The
  only call site in the source, the copy constructor
  (RingBuffer/RingBuffer.hpp:33-34), stays below `size`.
- `RingBuffers.RingBuffer.PushBack` takes its value by value, so argument
  aliasing is not modelled. The source forwards a reference
  (RingBuffer/RingBuffer.hpp:127-144). On a full buffer `push_back_imp`
  destroys slot `start` before constructing from that reference
  (RingBuffer/RingBuffer.hpp:193-206). So `b.push_back(b.front())` on a full
  buffer reads a destroyed element, which is undefined behaviour. In the model
  the same call is well defined: it evicts the front and appends its old value.
- The source's `&`/const reference returns (`front`, `back`, `operator[]`) are
  modelled as returned values, so writing through a returned reference is not
  modelled.
- Pointer comparison with `<` between unrelated stores is unspecified in C++.
  The model orders buffer ids as integers, which gives a total order.
- `RingBufferIterators.Equal` and the other comparisons require that
  iterators over the same store share `start`, because the source `assert`s
  this. Comparisons that break that assertion are not modelled.
