/**
 * The fixed-capacity queue (xlib/include/Host/Classes/impl/Queue.i.hpp, lines 45-211).  Both ends wrap
 * lazily: an end that has reached the capacity goes back to zero only at the next operation that needs it.
 */
module RingQueue {

  /** Where the i-th element lies. */
  function Place(size: nat, left: nat, i: nat): int {
    if left + i < size then left + i else left + i - size
  }

  /** The elements of the ring from the oldest to the newest. */
  function Ring<T>(slots: seq<T>, left: nat, items: nat): (s: seq<T>)
    requires items <= |slots| && left <= |slots|
    ensures |s| == items
  {
    seq(items, i requires 0 <= i < items => slots[Place(|slots|, left, i)])
  }

  class RingQueue<T(0)> {
    const slots: array<T>
    var left: nat
    var right: nat
    var items: nat

    ghost predicate Valid()
      reads this
    {
      && items <= slots.Length && left <= slots.Length && right <= slots.Length
      && (right == left + items || right + slots.Length == left + items)
    }

    ghost function Contents(): (s: seq<T>)
      requires Valid()
      reads this, slots
      ensures |s| == items
    {
      Ring(slots[..], left, items)
    }

    constructor (size: nat)
      ensures fresh(slots) && slots.Length == size && Valid() && Contents() == []
    {
      slots := new T[size];
      left, right, items := 0, 0, 0;
    }

    method Clear()
      modifies this
      ensures Valid() && Contents() == []
    {
      left := 0;
      right := 0;
      items := 0;
    }

    method Insert(value: T)
      requires Valid() && items < slots.Length
      modifies this, slots
      ensures Valid() && Contents() == old(Contents()) + [value]
    {
      if right == slots.Length {
        right := 0;
      }
      slots[right] := value;
      right := right + 1;
      items := items + 1;
    }

    method IsEmpty() returns (empty: bool)
      requires Valid()
      ensures empty <==> Contents() == []
    {
      empty := items == 0;
    }

    /** First in, first out. */
    method Extract() returns (x: T)
      requires Valid() && items > 0
      modifies this
      ensures Valid() && x == old(Contents())[0] && Contents() == old(Contents())[1..]
    {
      if left == slots.Length {
        left := 0;
      }
      items := items - 1;
      x := slots[left];
      left := left + 1;
    }

    /** Last in, first out. */
    method Pop() returns (x: T)
      requires Valid() && items > 0
      modifies this
      ensures Valid() && x == old(Contents())[old(items) - 1]
      ensures Contents() == old(Contents())[..old(items) - 1]
    {
      if right == 0 {
        right := slots.Length;
      }
      items := items - 1;
      right := right - 1;
      x := slots[right];
    }

    /** The newest element. */
    method Tail() returns (x: T)
      requires Valid() && items > 0
      ensures x == Contents()[items - 1]
    {
      x := slots[if right == 0 then slots.Length - 1 else right - 1];
    }

    /** The source checks the index against the capacity only; beyond the contents the result is arbitrary. */
    method At(index: nat) returns (x: T)
      requires Valid() && index < slots.Length
      ensures index < items ==> x == Contents()[index]
    {
      var idx := if left + index < slots.Length then left + index else index - (slots.Length - left);
      x := slots[idx];
    }
  }
}
