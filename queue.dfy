/** The fixed-capacity FIFO queue with a drop-oldest overflow policy: a
    heap array of `size` slots whose first `count` slots hold the elements,
    oldest at index 0. Locking and waiting are not part of this model; a
    blocking pop becomes a precondition and a timed pop an error result. */
module Queues {
  import opened QueueSpec

  /** Outcome of a timed pop: the popped element, or the timeout error. */
  datatype Result<T> = Ok(value: T) | Timeout

  class Queue<T(0)> {
    /** The slots; `elements[..count]` are in use. */
    const elements: array<T>
    /** How many slots are in use. */
    var count: int
    /** The capacity, fixed at construction. */
    const size: int

    ghost predicate Valid()
      reads this
    {
      0 < size == elements.Length && 0 <= count <= size
    }

    /** The stored elements, oldest first. */
    ghost function Contents(): (s: seq<T>)
      reads this, elements
      requires Valid()
      ensures |s| == count
    {
      elements[..count]
    }

    /** An empty queue with room for `size` elements. */
    constructor (size: int)
      requires size > 0
      ensures Valid() && fresh(elements)
      ensures this.size == size && Contents() == []
    {
      elements := new T[size];
      count := 0;
      this.size := size;
    }

    /** The shifting loop shared by Push, Pop and PopWithTimeout: every slot
        of `elements[1..count]` moves one slot to the left; slot `count - 1`
        and those after it keep their values. */
    method ShiftLeft()
      requires Valid() && count > 0
      modifies elements
      ensures elements[..] == old(elements[1..count]) + old(elements[count - 1..])
    {
      for i := 1 to count
        invariant forall k :: 0 <= k < i - 1 ==> elements[k] == old(elements[k + 1])
        invariant forall k :: i - 1 <= k < elements.Length ==> elements[k] == old(elements[k])
      {
        elements[i - 1] := elements[i];
      }
    }

    /** Appends `element`; when the queue is full the oldest element is
        dropped first, so the count never exceeds the capacity. */
    method Push(element: T)
      requires Valid()
      modifies this`count, elements
      ensures Valid()
      ensures Contents() == Pushed(old(Contents()), size, element)
      ensures count == if old(count) == size then size else old(count) + 1
    {
      ghost var before := Contents();
      if count == size {
        ShiftLeft();
        count := count - 1;
        assert Contents() == before[1..];
      }
      elements[count] := element;
      count := count + 1;
    }

    /** Removes and returns the oldest element. The source waits until the
        queue is not empty; here the caller must establish that. */
    method Pop() returns (x: T)
      requires Valid() && count > 0
      modifies this`count, elements
      ensures Valid()
      ensures x == old(Contents())[0]
      ensures Contents() == old(Contents())[1..]
      ensures count == old(count) - 1
    {
      x := elements[0];
      ShiftLeft();
      count := count - 1;
    }

    /** Like Pop, except that an empty queue yields the timeout error and is
        left as it was. `milliseconds` only bounds the waiting. */
    method PopWithTimeout(milliseconds: int) returns (r: Result<T>)
      requires Valid()
      modifies this`count, elements
      ensures Valid()
      ensures old(count) == 0 ==> r == Timeout && count == 0 && unchanged(elements)
      ensures old(count) > 0 ==> r == Ok(old(Contents())[0])
      ensures old(count) > 0 ==> Contents() == old(Contents())[1..] && count == old(count) - 1
    {
      if count == 0 {
        return Timeout;
      }
      var x := elements[0];
      ShiftLeft();
      count := count - 1;
      r := Ok(x);
    }

    /** The number of stored elements; changes nothing. */
    method Count() returns (n: int)
      requires Valid()
      ensures n == |Contents()|
      ensures 0 <= n <= size
    {
      n := count;
    }

    /** The capacity given at construction; changes nothing. */
    method Size() returns (n: int)
      requires Valid()
      ensures n == size && n == elements.Length
    {
      n := size;
    }
  }
}
