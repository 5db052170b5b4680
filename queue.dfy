/*
 * The ring-buffer queue used by the flood-fill. The buffer has one slot more
 * than the capacity; slot 0 is used only before the first wrap, after which
 * both indices cycle through slots 1..capacity (an index that passes the
 * capacity has the capacity subtracted from it). Neither adding to a full
 * queue nor taking from an empty one is checked, so both are preconditions.
 */
module RingQueue {

  class Queue<T(0)> {
    const maxItems: int
    const data: array<T>
    var head: int
    var tail: int
    var itemCount: int

    /** The items in the queue, oldest first. */
    ghost var contents: seq<T>

    /** The slot `i` places after slot `from`, counting the way the indices
        advance: past the capacity they continue at slot 1. */
    function SlotFrom(from: int, i: int): int
    {
      if from + i <= maxItems then from + i else from + i - maxItems
    }

    /** The step taken by `add` and `head` from one index to the next. */
    function Advance(index: int): (next: int)
      requires maxItems >= 1 && 0 <= index <= maxItems
      ensures 1 <= next <= maxItems
      ensures next == (if index == maxItems then 1 else index + 1)
    {
      if index + 1 > maxItems then index + 1 - maxItems else index + 1
    }

    ghost predicate Valid()
      reads this, data
    {
      && maxItems >= 1
      && data.Length == maxItems + 1
      && 0 <= head <= maxItems
      && 0 <= tail <= maxItems
      && itemCount == |contents| <= maxItems
      && tail == SlotFrom(head, itemCount)
      && (forall i | 0 <= i < |contents| :: 0 <= SlotFrom(head, i) <= maxItems && contents[i] == data[SlotFrom(head, i)])
    }

    /** A queue of the given capacity over a buffer of capacity + 1 slots. */
    constructor (maxSize: int)
      requires maxSize >= 1
      ensures Valid() && fresh(data)
      ensures maxItems == maxSize && contents == []
      ensures head == 0 && tail == 0
    {
      maxItems := maxSize;
      data := new T[maxSize + 1];
      head, tail, itemCount := 0, 0, 0;
      contents := [];
    }

    /** A queue of the default capacity, 64. */
    constructor Default()
      ensures Valid() && fresh(data)
      ensures maxItems == 64 && contents == []
      ensures head == 0 && tail == 0
    {
      maxItems := 64;
      data := new T[65];
      head, tail, itemCount := 0, 0, 0;
      contents := [];
    }

    function Size(): (n: int)
      requires Valid()
      reads this, data
      ensures n == |contents| && 0 <= n <= maxItems
    {
      itemCount
    }

    method Clear()
      requires Valid()
      modifies this
      ensures Valid() && contents == []
      ensures head == 0 && tail == 0
      ensures unchanged(data)
    {
      head := 0;
      tail := 0;
      itemCount := 0;
      contents := [];
    }

    /** Appends an item; the queue must not be full. */
    method Add(item: T)
      requires Valid() && |contents| < maxItems
      modifies this, data
      ensures Valid()
      ensures contents == old(contents) + [item]
    {
      data[tail] := item;
      tail := Advance(tail);
      itemCount := itemCount + 1;
      contents := contents + [item];
    }

    /** Removes and returns the oldest item; the queue must not be empty. */
    method Head() returns (item: T)
      requires Valid() && |contents| > 0
      modifies this
      ensures Valid()
      ensures item == old(contents)[0]
      ensures contents == old(contents)[1..]
      ensures unchanged(data)
    {
      item := data[head];
      head := Advance(head);
      itemCount := itemCount - 1;
      contents := contents[1..];
    }
  }
}
