/*
 * A bounded list: a fixed buffer of `numItems` slots filled from the front.
 * Adding to a full list is silently ignored. The fill count is an 8-bit
 * unsigned value. The membership test scans every slot of the buffer, not
 * only the filled ones.
 */
module BoundedList {

  class List<T(==,0)> {
    const numItems: int
    const data: array<T>
    var tail: int

    /** The items added since the last clear, oldest first. */
    ghost var contents: seq<T>

    ghost predicate Valid()
      reads this, data
    {
      && data.Length == numItems
      && 0 <= tail <= 255
      && tail <= numItems
      && contents == data[..tail]
    }

    /** An empty list over a buffer of `numItems` slots. */
    constructor (numItems: int)
      requires 0 <= numItems
      ensures Valid() && fresh(data)
      ensures this.numItems == numItems && contents == []
    {
      this.numItems := numItems;
      data := new T[numItems];
      tail := 0;
      contents := [];
    }

    /** The number of items added since the last clear. */
    function Size(): (n: int)
      requires Valid()
      reads this, data
      ensures n == |contents|
      ensures 0 <= n <= numItems
    {
      tail
    }

    method Clear()
      requires Valid()
      modifies this
      ensures Valid() && contents == []
      ensures unchanged(data)
    {
      tail := 0;
      contents := [];
    }

    /**
     * Store `item` in the next free slot; a full list is left as it is. The
     * 8-bit fill count wraps to 0 after slot 255, which only a list of more
     * than 255 slots can reach.
     */
    method Add(item: T)
      requires Valid()
      modifies this, data
      ensures Valid()
      ensures old(tail) >= numItems ==> tail == old(tail) && contents == old(contents) && unchanged(data)
      ensures old(tail) < numItems ==> data[..] == old(data[..])[old(tail) := item]
      ensures old(tail) < numItems ==> tail == (old(tail) + 1) % 256
      ensures old(tail) < numItems && old(tail) < 255 ==> contents == old(contents) + [item]
    {
      if tail >= numItems {
        return;
      }
      data[tail] := item;
      tail := (tail + 1) % 256;
      contents := data[..tail];
    }

    /** The item in slot `i`; reading a slot outside the buffer is undefined. */
    function Get(i: int): (r: T)
      requires Valid() && 0 <= i < numItems
      reads this, data
      ensures i < Size() ==> r == contents[i]
    {
      data[i]
    }

    /**
     * Whether `item` is in any slot of the buffer. The scan covers all
     * `numItems` slots, so besides every item added since the last clear it
     * also finds items left in the buffer by earlier fills and the
     * default-initialised contents of slots never written.
     */
    method Contains(item: T) returns (found: bool)
      requires Valid()
      ensures found <==> item in data[..]
      ensures item in contents ==> found
    {
      for i := 0 to numItems
        invariant item !in data[..i]
      {
        if data[i] == item {
          return true;
        }
      }
      assert data[..numItems] == data[..];
      return false;
    }

    /** The membership test over the filled slots only: exactly the items
        added since the last clear. */
    method ContainsAdded(item: T) returns (found: bool)
      requires Valid()
      ensures found <==> item in contents
    {
      for i := 0 to tail
        invariant item !in data[..i]
      {
        if data[i] == item {
          return true;
        }
      }
      return false;
    }
  }

  /** An item added and then cleared away is still reported as present by
      the full-buffer scan, while the list is empty and the filled-slot scan
      does not find it. */
  method StaleItemFound<T(==,0)>(x: T) returns (size: int, scanAll: bool, scanAdded: bool)
    ensures size == 0
    ensures scanAll
    ensures !scanAdded
  {
    var list := new List<T>(8);
    list.Add(x);
    list.Clear();
    size := list.Size();
    scanAll := list.Contains(x);
    scanAdded := list.ContainsAdded(x);
  }
}
