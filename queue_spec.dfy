/** The abstract behaviour of the fixed-capacity queue, on sequences.
    A queue's contents are a sequence whose index 0 is the oldest element
    and whose last index is the newest; its capacity is fixed. */
module QueueSpec {

  /** The contents after pushing `x` onto contents `s` of a queue of capacity
      `size`: when the queue is full the oldest element is dropped first. */
  function Pushed<T>(s: seq<T>, size: int, x: T): (r: seq<T>)
    requires 0 < size && |s| <= size
    ensures |r| <= size
    ensures |r| > 0 && r[|r| - 1] == x
  {
    if |s| == size then s[1..] + [x] else s + [x]
  }

  /** The `n` most recent elements of `t` (all of `t` when it has no more
      than `n`). This is the reference definition of drop-oldest. */
  function Newest<T>(t: seq<T>, n: nat): (r: seq<T>)
  {
    if |t| <= n then t else t[|t| - n..]
  }

  /** The contents after pushing every element of `xs`, in order, onto `s`. */
  function PushAll<T>(s: seq<T>, size: int, xs: seq<T>): (r: seq<T>)
    requires 0 < size && |s| <= size
    ensures |r| <= size
    ensures |xs| > 0 ==> |r| > 0 && r[|r| - 1] == xs[|xs| - 1]
    decreases |xs|
  {
    if xs == [] then s
    else Pushed(PushAll(s, size, xs[..|xs| - 1]), size, xs[|xs| - 1])
  }

  /** One push is "keep the `size` newest of the old contents and `x`". */
  lemma PushedKeepsNewest<T>(s: seq<T>, size: int, x: T)
    requires 0 < size && |s| <= size
    ensures Pushed(s, size, x) == Newest(s + [x], size)
  {
    if |s| == size {
      assert (s + [x])[1..] == s[1..] + [x];
    }
  }

  /** Trimming to the `n` newest before appending more changes nothing
      about which `n` elements are newest afterwards. */
  lemma NewestAbsorbs<T>(t: seq<T>, u: seq<T>, n: nat)
    ensures Newest(Newest(t, n) + u, n) == Newest(t + u, n)
  {
    if |t| > n {
      var k := |t| - n;
      assert Newest(t, n) + u == (t + u)[k..];
    }
  }

  /** Drop-oldest over any number of pushes: the contents are the `size`
      newest elements of the old contents followed by everything pushed. */
  lemma {:induction false} PushAllKeepsNewest<T>(s: seq<T>, size: int, xs: seq<T>)
    requires 0 < size && |s| <= size
    ensures PushAll(s, size, xs) == Newest(s + xs, size)
    decreases |xs|
  {
    if xs == [] {
      assert s + xs == s;
    } else {
      var front, last := xs[..|xs| - 1], xs[|xs| - 1];
      var mid := PushAll(s, size, front);
      assert PushAll(s, size, xs) == Pushed(mid, size, last);
      PushAllKeepsNewest(s, size, front);
      assert mid == Newest(s + front, size);
      PushedKeepsNewest(mid, size, last);
      NewestAbsorbs(s + front, [last], size);
      assert s + front + [last] == s + xs;
    }
  }

  /** FIFO without loss: as long as the capacity is not exceeded, pushing
      appends every element, in push order. */
  lemma PushAllWithinCapacity<T>(s: seq<T>, size: int, xs: seq<T>)
    requires 0 < size && |s| + |xs| <= size
    ensures PushAll(s, size, xs) == s + xs
  {
    PushAllKeepsNewest(s, size, xs);
  }

  /** Overflow: pushing at least `size` elements leaves exactly the last
      `size` of them, whatever the queue held before. */
  lemma PushAllOverflow<T>(s: seq<T>, size: int, xs: seq<T>)
    requires 0 < size && |s| <= size && size <= |xs|
    ensures PushAll(s, size, xs) == xs[|xs| - size..]
  {
    PushAllKeepsNewest(s, size, xs);
    assert (s + xs)[|s| + |xs| - size..] == xs[|xs| - size..];
  }
}
