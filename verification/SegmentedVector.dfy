/** `concurrent_vector`: where its elements are, filling it from a sequence, and the pointer that
    its iterators keep.

    The first segments are allocated as one block; how many is up to the caller. */
module SegmentedVector {
  import opened Options
  import opened Bits
  import opened Segments

  /** A place in memory: a block, and an offset in it.  Block 0 is the first block. */
  datatype Place = Place(block: nat, offset: nat)

  /** `my_segment[k].array`, with `first` segments in the first block */
  function SegmentStart(first: nat, k: nat): Place {
    if k < first then Place(0, SegmentBase(k)) else Place(k, 0)
  }

  function Plus(p: Place, n: nat): Place {
    p.(offset := p.offset + n)
  }

  /** `internal_subscript` */
  function Subscript(first: nat, index: nat): Place {
    var a := GetBucket(index);
    Plus(SegmentStart(first, a.segment), a.offset)
  }

  /** In the first block elements lie at their indices; in a later one, from its base on. */
  lemma SubscriptIs(first: nat, index: nat)
    requires first >= 1
    ensures index < Pow2(first) ==> Subscript(first, index) == Place(0, index)
    ensures index >= Pow2(first) ==>
      Log2(index) >= first && Subscript(first, index) == Place(Log2(index), index - Pow2(Log2(index)))
  {
    SegmentIs(index);
    BaseIs(SegmentOf(index));
    assert Pow2(1) == 2 * Pow2(0) == 2;
    if index >= 2 {
      var s := Log2(index);
      if index < Pow2(first) && s >= first {
        Pow2Monotone(first, s);
      } else if index >= Pow2(first) && s < first {
        Pow2Monotone(s + 1, first);
      }
    } else {
      Pow2Monotone(1, first);
    }
  }

  /** No two elements share a place. */
  lemma DifferentPlaces(first: nat, i: nat, j: nat)
    requires first >= 1 && i < j
    ensures Subscript(first, i) != Subscript(first, j)
  {
    SubscriptIs(first, i);
    SubscriptIs(first, j);
  }

  // ---------------------------------------------------------------- filling

  type Memory<T> = map<Place, T>

  /** The elements up to `n` are where `internal_subscript` looks for them. */
  ghost predicate Filled<T>(memory: Memory<T>, first: nat, input: seq<T>, n: nat)
    requires n <= |input|
  {
    forall i: nat :: i < n ==> Subscript(first, i) in memory && memory[Subscript(first, i)] == input[i]
  }

  /** `loop.iterate( first )`: the next `n` of the input go to memory from `at` on. */
  method Iterate<T>(memory: Memory<T>, at: Place, input: seq<T>, done: nat, n: nat) returns (after: Memory<T>)
    requires done + n <= |input|
    ensures forall i: nat :: i < n ==> Plus(at, i) in after && after[Plus(at, i)] == input[done + i]
    ensures forall p ::
              p in memory && (p.block != at.block || p.offset < at.offset) ==> p in after && after[p] == memory[p]
  {
    after := memory;
    for i := 0 to n
      invariant forall j: nat :: j < i ==> Plus(at, j) in after && after[Plus(at, j)] == input[done + j]
      invariant forall p ::
                p in memory && (p.block != at.block || p.offset < at.offset) ==> p in after && after[p] == memory[p]
    {
      after := after[Plus(at, i) := input[done + i]];
    }
  }

  /** Where one turn of the loop stands: `done` elements are in place, and segment `k`, with `size`
      elements, is the next to be filled. */
  ghost predicate Turn<T>(memory: Memory<T>, first: nat, input: seq<T>, done: nat, k: nat, size: nat) {
    && done <= |input| && Filled(memory, first, input, done)
    && if k == 0 then done == 0 && size == Pow2(first) else k >= first && done == size == Pow2(k)
  }

  /** Elements from `done` on that lie in the segment follow each other in memory. */
  lemma Consecutive(first: nat, k: nat, done: nat, size: nat, i: nat)
    requires first >= 1 && i < size
    requires if k == 0 then done == 0 && size == Pow2(first) else k >= first && done == size == Pow2(k)
    ensures Subscript(first, done + i) == Plus(SegmentStart(first, k), i)
  {
    if k == 0 {
      InFirstBlock(first, i);
    } else {
      InSegmentPlace(first, k, i);
    }
  }

  lemma InFirstBlock(first: nat, i: nat)
    requires first >= 1 && i < Pow2(first)
    ensures Subscript(first, i) == Plus(SegmentStart(first, 0), i)
  {
    SubscriptIs(first, i);
    FirstSegment(first);
  }

  lemma InSegmentPlace(first: nat, k: nat, i: nat)
    requires 1 <= first <= k && i < Pow2(k)
    ensures Subscript(first, Pow2(k) + i) == Place(k, i)
  {
    assert Pow2(k + 1) == 2 * Pow2(k);
    Pow2Monotone(first, k);
    Log2Unique(Pow2(k) + i, k);
    SubscriptIs(first, Pow2(k) + i);
  }

  lemma FirstSegment(first: nat)
    requires first >= 1
    ensures SegmentStart(first, 0) == Place(0, 0)
  {
    BaseIs(0);
  }

  /** Filling the next `n` elements. */
  method FillSegment<T>(memory: Memory<T>, first: nat, input: seq<T>, done: nat, k: nat, ghost size: nat, n: nat)
    returns (after: Memory<T>)
    requires first >= 1 && Turn(memory, first, input, done, k, size) && n <= size && done + n <= |input|
    ensures Filled(after, first, input, done + n)
  {
    after := Iterate(memory, SegmentStart(first, k), input, done, n);
    forall i: nat | i < done + n
      ensures Subscript(first, i) in after && after[Subscript(first, i)] == input[i]
    {
      if i < done {
        EarlierPlace(first, k, done, i);
      } else {
        Consecutive(first, k, done, size, i - done);
        assert Plus(SegmentStart(first, k), i - done) in after;
      }
    }
  }

  lemma EarlierPlace(first: nat, k: nat, done: nat, i: nat)
    requires first >= 1 && i < done && k >= first && done == Pow2(k)
    ensures Subscript(first, i).block != SegmentStart(first, k).block
  {
    SubscriptIs(first, i);
  }

  /** `internal_assign_iterators`: element `i` of the input is where `internal_subscript( i )` reads,
      whatever the size of the first block. */
  method AssignIterators<T>(first: nat, input: seq<T>) returns (memory: Memory<T>)
    requires first >= 1
    ensures Filled(memory, first, input, |input|)
  {
    memory := map[];
    var n := |input|;
    if n == 0 {
      return;
    }
    var k: nat, size: nat, done: nat := 0, Pow2(first), 0;
    while size < n
      invariant Turn(memory, first, input, done, k, size) && n == |input| - done
      decreases n
    {
      memory := FillSegment(memory, first, input, done, k, size, size);
      n, done := n - size, done + size;
      if k == 0 {
        k := first;
      } else {
        k, size := k + 1, 2 * size;
      }
    }
    memory := FillSegment(memory, first, input, done, k, size, n);
  }

  // ---------------------------------------------------------------- iterators

  /** `is_first_element_in_segment`, in a word of `w` bits */
  predicate IsFirstElement(index: nat, w: nat)
    requires w >= 1 && 1 <= index < Pow2(w)
  {
    And(index, MinusTwo(index, w)) == 0
  }

  /** Within a segment the next element follows in memory. */
  lemma NextPlace(first: nat, index: nat, w: nat)
    requires w >= 1 && 1 <= index < Pow2(w)
    ensures !IsFirstElement(index, w) ==> Subscript(first, index) == Plus(Subscript(first, index - 1), 1)
  {
    SegmentStartTest(index, w);
    FollowingBucket(index);
  }

  /** `vector_iterator`: `item` is what it remembers of its place. */
  class VectorIterator {
    const first: nat
    const w: nat
    var index: nat
    var item: Option<Place>

    /** What it remembers is right. */
    ghost predicate Valid()
      reads this
    {
      w >= 1 && index < Pow2(w) && (item.Some? ==> item.value == Subscript(first, index))
    }

    constructor (first: nat, w: nat, index: nat)
      requires w >= 1 && index < Pow2(w)
      ensures Valid() && this.index == index && this.first == first && this.w == w && item.None?
    {
      this.first, this.w, this.index, this.item := first, w, index, None;
    }

    /** `operator*` */
    method Dereference() returns (p: Place)
      requires Valid()
      modifies this`item
      ensures Valid() && p == Subscript(first, index) && item == Some(p)
    {
      if item.None? {
        item := Some(Subscript(first, index));
      }
      p := item.value;
    }

    /** `operator++` */
    method Increment()
      requires Valid() && index + 1 < Pow2(w)
      modifies this
      ensures Valid() && index == old(index) + 1
      ensures item.Some? <==> old(item).Some? && !IsFirstElement(index, w)
    {
      index := index + 1;
      NextPlace(first, index, w);
      if item.Some? {
        item := if IsFirstElement(index, w) then None else Some(Plus(item.value, 1));
      }
    }

    /** `operator--` */
    method Decrement()
      requires Valid() && index > 0
      modifies this
      ensures Valid() && index == old(index) - 1
      ensures item.Some? <==> old(item).Some? && !IsFirstElement(old(index), w)
    {
      NextPlace(first, index, w);
      var elementIndex := index;
      index := index - 1;
      if item.Some? {
        item := if IsFirstElement(elementIndex, w) then None
                else Some(item.value.(offset := item.value.offset - 1));
      }
    }

    /** `operator+=`, forwards or backwards. */
    method Move(offset: int)
      requires Valid() && 0 <= index + offset < Pow2(w)
      modifies this
      ensures Valid() && index == old(index) + offset && item.None?
    {
      index := index + offset;
      item := None;
    }
  }
}
