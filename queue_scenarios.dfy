/** Clients of the queue that use it only through its public operations:
    the FIFO round trip in general, and the unit tests' concrete runs. */
module QueueScenarios {
  import opened QueueSpec
  import opened Queues

  /** Pushes the elements of `xs` onto `q`, in order. */
  method PushEach<T(0)>(q: Queue<T>, xs: seq<T>)
    requires q.Valid()
    modifies q, q.elements
    ensures q.Valid()
    ensures q.Contents() == PushAll(old(q.Contents()), q.size, xs)
  {
    for i := 0 to |xs|
      invariant q.Valid()
      invariant q.Contents() == PushAll(old(q.Contents()), q.size, xs[..i])
    {
      assert xs[..i + 1][..i] == xs[..i];
      q.Push(xs[i]);
    }
    assert xs[..|xs|] == xs;
  }

  /** Pops `q` until it is empty, collecting what comes out. */
  method PopEach<T(0)>(q: Queue<T>) returns (ys: seq<T>)
    requires q.Valid()
    modifies q, q.elements
    ensures q.Valid() && q.Contents() == []
    ensures ys == old(q.Contents())
  {
    ys := [];
    var n := q.Count();
    for j := 0 to n
      invariant q.Valid()
      invariant |q.Contents()| == n - j
      invariant ys + q.Contents() == old(q.Contents())
    {
      var x := q.Pop();
      ys := ys + [x];
    }
  }

  /** Pushes every element of `xs` onto a fresh queue of capacity `size`,
      then pops until it is empty. What comes out is, in push order, the
      `size` newest of the pushed elements; the queue ends empty. */
  method PushAllThenPopAll<T(0)>(size: int, xs: seq<T>) returns (ys: seq<T>, left: int)
    requires size > 0
    ensures ys == Newest(xs, size)
    ensures |xs| <= size ==> ys == xs
    ensures left == 0
  {
    var q := new Queue<T>(size);
    PushEach(q, xs);
    PushAllKeepsNewest([], size, xs);
    assert [] + xs == xs;
    ys := PopEach(q);
    left := q.Count();
  }

  /** Capacity 2; one push of 'a': Size() is 2 and Count() is 1. */
  method CountAndSize() returns (size: int, count: int)
    ensures size == 2 && count == 1
  {
    var q := new Queue<char>(2);
    q.Push('a');
    size := q.Size();
    count := q.Count();
  }

  /** Capacity 3; pushes 1, 2, 3, 4: 1 is dropped, Count() is 3, the three
      pops return 2, 3, 4 and Count() is then 0. */
  method PushAndPop() returns (full: int, popped: seq<int>, empty: int)
    ensures full == 3 && popped == [2, 3, 4] && empty == 0
  {
    var q := new Queue<int>(3);
    q.Push(1);
    q.Push(2);
    q.Push(3);
    q.Push(4);
    full := q.Count();
    var a := q.Pop();
    var b := q.Pop();
    var c := q.Pop();
    popped := [a, b, c];
    empty := q.Count();
  }

  /** Capacity 2; pushes 1, 2: two timed pops return 1 and 2, Count() is
      then 0, and a third timed pop fails with the timeout. */
  method PopWithTimeoutRun() returns (first: Result<int>, second: Result<int>, count: int, third: Result<int>)
    ensures first == Ok(1) && second == Ok(2) && count == 0 && third == Timeout
  {
    var q := new Queue<int>(2);
    q.Push(1);
    q.Push(2);
    first := q.PopWithTimeout(50);
    second := q.PopWithTimeout(50);
    count := q.Count();
    third := q.PopWithTimeout(50);
  }
}
