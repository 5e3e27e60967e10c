# Fixed-capacity FIFO queue with drop-oldest overflow

This project models `Queue<T>` from `include/Queue.hpp`, with its locking taken out. The queue keeps at most `size` elements in a heap array. The first `count` slots are in use, and the oldest element sits at index 0. `Push` appends at the tail. When the queue is full, `Push` first drops the oldest element by shifting every slot one place to the left. `Pop` and `PopWithTimeout` remove index 0 and shift the rest left. `Count` and `Size` only read.

Files:

- `queue_spec.dfy`, module `QueueSpec`: the queue's contents as a sequence. `Pushed` is one push. `PushAll` is a run of pushes. `Newest(t, n)` gives the `n` most recent elements of `t`; it is the separate reference definition of drop-oldest. The lemmas link these to each other.
- `queue.dfy`, module `Queues`: the class `Queue<T>`. It has a `const` array `elements` of length `size`, a mutable `count`, and an invariant `Valid()`: `0 < size == elements.Length` and `0 <= count <= size`. The ghost `Contents()` equals `elements[..count]`. Each mutating method says what `Contents()` becomes, in terms of its old value. The three shifting `for` loops in the source do the same thing, so they are modelled once, by `ShiftLeft`.
- `queue_scenarios.dfy`, module `QueueScenarios`: clients that use only the public operations. They cover the FIFO round trip over any input and the three unit tests in `testing/Test_Queue.cpp`.

Modelling decisions:

- Capacity must be positive; the constructor requires `size > 0`. With `size == 0`, the source's `Push` would decrement `count` to -1 (include/Queue.hpp:60) and then write slot -1 (include/Queue.hpp:63), which is undefined behaviour.
- The blocking `Pop` waits until `count > 0` (include/Queue.hpp:81). The model turns that wait into the precondition `count > 0`.
- When `PopWithTimeout` gives up on an empty queue, the source throws `std::runtime_error`. The model returns `Result.Timeout` instead, and leaves the queue as it was. On success it returns `Ok(x)`. Its postconditions for the non-empty case are the same as `Pop`'s.
- `Count` and `Size` are methods with no `modifies` clause. Dafny's framing therefore guarantees that they change nothing. `size` and `elements` are `const`, so no operation can change the capacity or swap the buffer.
- The source uses C++ `int`. Integers here are unbounded. No overflow can happen, because `count` stays between 0 and `size`, and `size` is itself an `int` argument.

## Model

| member | source | states |
|---|---|---|
| `Queues.Queue.constructor` | include/Queue.hpp:28-32 | requires a positive size; the new queue is empty, is valid, has capacity `size` and owns a fresh array of that length |
| `Queues.Queue.ShiftLeft` | include/Queue.hpp:55-58 | the shift loop (the same loop appears at lines 86-89 and 118-121): slot `i-1` receives old slot `i` for every `i` in `1..count`; slots from `count-1` on keep their old values |
| `Queues.Queue.Push` | include/Queue.hpp:48-67 | the queue stays valid (`count <= size`); the new contents are `Pushed(old contents, size, element)`; `count` grows by one, or stays at `size` when the queue was full |
| `Queues.Queue.Pop` | include/Queue.hpp:76-94 | requires a non-empty queue (the wait predicate); returns the oldest element; the remaining elements keep their order; `count` drops by one |
| `Queues.Queue.PopWithTimeout` | include/Queue.hpp:105-127 | on an empty queue returns `Timeout` and leaves `count` and the array unchanged; otherwise returns `Ok` of the oldest element, with exactly the effect of `Pop` |
| `Queues.Queue.Count` | include/Queue.hpp:134-139 | returns the number of stored elements, which lies in `0..size`; changes nothing |
| `Queues.Queue.Size` | include/Queue.hpp:146-149 | returns the capacity fixed at construction, which is the array's length; changes nothing |
| `QueueSpec.Pushed` | include/Queue.hpp:53-64 | one push on contents of capacity `size`: the result never exceeds `size`, and its newest element is the one pushed |
| `QueueSpec.PushAll` | include/Queue.hpp:53-64 | a run of pushes: the result never exceeds `size`, and it ends with the last element pushed |
| `QueueSpec.PushedKeepsNewest` | include/Queue.hpp:53-64 | one push keeps the `size` newest of the old contents followed by the new element |
| `QueueSpec.PushAllKeepsNewest` | include/Queue.hpp:53-64 | any run of pushes keeps the `size` newest of the old contents followed by all pushed elements, in push order |
| `QueueSpec.PushAllWithinCapacity` | include/Queue.hpp:63-64 | while the capacity is not exceeded, pushes append every element in push order and drop nothing |
| `QueueSpec.PushAllOverflow` | testing/Test_Queue.cpp:26-35 | pushing at least `size` elements leaves exactly the last `size` of them, whatever the queue held before |
| `QueueScenarios.PushEach` | testing/Test_Queue.cpp:29-32 | pushing the elements of `xs` one by one through `Push` leaves the contents at `PushAll(old contents, size, xs)` |
| `QueueScenarios.PopEach` | testing/Test_Queue.cpp:38-41 | popping through `Pop` until empty returns the old contents, oldest first, and leaves the queue empty |
| `QueueScenarios.PushAllThenPopAll` | include/Queue.hpp:84-91 | FIFO over the class: push `xs` onto a fresh queue, then pop until empty; the pops return the `size` newest of `xs` in push order (all of `xs` if it fits), and `Count()` ends at 0 |
| `QueueScenarios.CountAndSize` | testing/Test_Queue.cpp:9-18 | capacity 2, after one push: `Size()` is 2 and `Count()` is 1 |
| `QueueScenarios.PushAndPop` | testing/Test_Queue.cpp:24-42 | capacity 3, after pushing 1, 2, 3, 4: `Count()` is 3; the pops return 2, 3, 4; `Count()` is then 0 |
| `QueueScenarios.PopWithTimeoutRun` | testing/Test_Queue.cpp:48-63 | capacity 2, after pushing 1 and 2: the timed pops return 1 then 2; `Count()` is 0; a third timed pop fails with `Timeout` |

## Left out

- Mutual exclusion: the `std::mutex`, `std::unique_lock` and `std::lock_guard` locking (include/Queue.hpp:50, 78, 107, 136). Each operation is modelled as one atomic step.
- Condition variable: `notify_one` and the waits (include/Queue.hpp:66, 81, 110). Threads and scheduling cannot be expressed in this sequential model. For `Pop` the wait becomes a precondition; for `PopWithTimeout` it becomes the `Timeout` result.
- Queues.Queue.PopWithTimeout: its `milliseconds` argument is accepted and ignored. Real time is not modelled, and the model does not say how long the wait lasts. The source also names the argument in milliseconds but passes it as `std::chrono::microseconds` (include/Queue.hpp:110). Only the outcome "still empty, so timeout" is modelled.
- Queues.Queue.Pop: its blocking behaviour is weaker here, a precondition `count > 0`. The model cannot show that a pop on an empty queue waits and is woken by a later push.
- `PrintQueue` (include/Queue.hpp:155-176): console output only.
- Destructor, `new T[size]` and `delete[]` (include/Queue.hpp:29, 38-41): memory management, which Dafny's heap handles.
- `source/main.cpp`: a two-thread demo whose output depends on thread timing and sleeps.
