# spx::SpxQueue — a verified sequential model

`spx::SpxQueue<T, Lock>` is a double-ended queue over a `std::vector<T>`,
guarded by a single lock that every public call holds for its whole
duration. Producers `push` at the back. The owning worker `pop`s from the
front (FIFO). Other workers `steal` from the back (newest first). `empty`,
`size` and `clear` inspect or reset the queue, and the queue can be
move-constructed and move-assigned.

Each call is one atomic step under the lock. So the sequential behaviour
on the element sequence is everything a caller can observe, and that is
what this project models and proves.

- `optional.dfy` — module `Optional`: the `Option` result of `pop` and
  `steal` (`None` is `std::nullopt`).
- `spx_queue.dfy` — module `Spx`: the class `SpxQueue<T>`. Its field
  `data: seq<T>` is the vector, front first. Each C++ member is a method
  that says exactly what the new `data` is and what it returns. `Perform`
  ties one call of the class to the trace semantics below, and
  `PerformAll` a whole run of calls.
- `deque_trace.dfy` — module `DequeTrace`: the same operations as values.
  `Step` is one call and `Exec` is a run of calls. The lemmas cover FIFO
  order, LIFO order of steals, exactly-once delivery under any mix of pops
  and steals, and idempotence of clear.

## Model

| member | source | states |
|---|---|---|
| Spx.SpxQueue.constructor | src/utils/spx_queue.h:27 | a new queue is empty |
| Spx.SpxQueue.MoveFrom | src/utils/spx_queue.h:29-34 | the new queue holds exactly the source's pre-move elements, in their order |
| Spx.SpxQueue.MoveAssign | src/utils/spx_queue.h:36-44 | the target afterwards holds exactly the source's pre-move elements, in their order; self-assignment leaves the queue unchanged; the result is the target itself |
| Spx.SpxQueue.Push | src/utils/spx_queue.h:51-54 | the length grows by exactly one, the new last element is the pushed value, and all earlier elements are unchanged and in order |
| Spx.SpxQueue.Pop | src/utils/spx_queue.h:61-69 | on an empty queue: returns None and changes nothing; otherwise returns the old front element and leaves the old sequence minus its front |
| Spx.SpxQueue.Steal | src/utils/spx_queue.h:76-84 | on an empty queue: returns None and changes nothing; otherwise returns the old back element and leaves the old sequence minus its back |
| Spx.SpxQueue.Empty | src/utils/spx_queue.h:91-95 | true exactly when the queue holds no element; reads only |
| Spx.SpxQueue.Size | src/utils/spx_queue.h:102-106 | the number of elements; reads only |
| Spx.SpxQueue.Clear | src/utils/spx_queue.h:111-114 | the queue is empty afterwards, whatever it held before |
| Spx.Perform | src/utils/spx_queue.h:51-84 | a push, pop or steal on the object (and a clear, lines 111-114) changes its contents and replies exactly as the trace semantics `Step` says |
| Spx.PerformAll | src/utils/spx_queue.h:51-84 | a whole run of pushes, pops, steals and clears on the object leaves the contents and gives the replies that `Exec` computes, so the FIFO, LIFO and exactly-once lemmas apply to the object |
| Spx.EmptyMatchesSize | src/utils/spx_queue.h:91-106 | `empty()` is true exactly when `size()` is 0, and both agree with the contents |
| Spx.DrainBothEnds | src/utils/spx_queue.h:51-84 | on an object: after pushing a, b, c, a pop gives a, a steal gives c, a pop gives b, and a further steal finds the queue empty |
| DequeTrace.Exec | src/utils/spx_queue.h:51-84 | a run of pushes, pops, steals and clears (clear: lines 111-114) gives exactly one reply per call |
| DequeTrace.ExecAppend | src/utils/spx_queue.h:51-84 | running two batches of calls one after the other is the same as running them as one batch |
| DequeTrace.PushesAppend | src/utils/spx_queue.h:51-54 | pushes append their values at the back in push order and return nothing |
| DequeTrace.PopsTakeFront | src/utils/spx_queue.h:61-69 | k pops on a queue of at least k elements return the first k elements, oldest first, and leave the rest |
| DequeTrace.Fifo | src/utils/spx_queue.h:51-69 | from any contents s, pushing vs and then popping once per element of s and vs returns s and then vs in push order; one more pop returns None |
| DequeTrace.StealsTakeBack | src/utils/spx_queue.h:76-84 | k steals on a queue of at least k elements return the last k elements, newest first, and leave the rest |
| DequeTrace.Lifo | src/utils/spx_queue.h:51-84 | from an empty queue, pushing vs and then stealing once per element of vs returns vs reversed; one more steal returns None |
| DequeTrace.ExactlyOnce | src/utils/spx_queue.h:61-84 | for any mix of pops and steals, the original contents are exactly the popped values (in order), then what remains, then the stolen values reversed; so pops take a prefix from the front and steals a suffix from the back |
| DequeTrace.PartitionStep | src/utils/spx_queue.h:61-84 | one more pop or steal in front of a run keeps that front/back partition of the contents |
| DequeTrace.NoneLost | src/utils/spx_queue.h:61-84 | the pops and steals deliver min(number of calls, number of elements) values, so none fails while the queue is non-empty |
| DequeTrace.AfterPushes | src/utils/spx_queue.h:51-54 | after pushing vs onto an empty queue, later calls behave as they would on contents vs |
| DequeTrace.ExactlyOnceAfterPushes | src/utils/spx_queue.h:51-84 | after pushing vs onto an empty queue, any mix of pops and steals delivers each pushed value exactly once: the partition, equal multisets, and no value lost |
| DequeTrace.ClearIdempotent | src/utils/spx_queue.h:111-114 | clear leaves the queue empty whatever it held, and clearing again changes nothing |

## Left out

- The lock: the `is_lockable` concept (src/utils/spx_queue.h:13-18), the `lock_guard` and `unique_lock` guards, and the deadlock-avoiding `std::lock` of both guards in the move operations. Each guarded call is modelled as one atomic sequential step.
- Concurrency: many producers and consumers, and linearizability across threads. The model is sequential.
- Move semantics of the element type `T`: elements are plain values.
- Spx.SpxQueue.MoveFrom: promises nothing about the source queue afterwards. Its vector is moved from, which C++ leaves valid but unspecified. (The C++ standard does not guarantee that a moved-from vector is empty.) The body empties it, as common standard libraries do.
- Spx.SpxQueue.MoveAssign: promises nothing about a distinct source queue afterwards, for the same reason. So "no element is in both queues" is not proved.
- `size_type` is modelled as `nat`; its overflow, and allocation failure in the vector, belong to the host environment.
