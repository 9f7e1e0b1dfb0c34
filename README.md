# Heat-stencil workers: a verified model

The repository solves the 1-D heat equation with an explicit stencil. It
splits the `nx` nodes among workers that exchange ghost values with their
neighbours, in two implementations.

- **Python (`python/heat2.py`).** One thread per partition of `[0, nx)`.
  - `Worker.__init__` derives each worker's range `[lo, hi)` from
    `tx = nx // threads`; the last worker takes the remainder. It also creates
    the incoming queues the worker's position calls for.
  - `recv_ghosts` takes one value from each queue into the first and last
    slot of `data`.
  - `update` receives, recomputes the interior of `data2` from `data`, swaps
    the two buffers, and sends.
  - `send_ghosts` puts the first and last slot on the neighbours' queues.
  - `run` is a bootstrap send, `nt` updates and a final receive.
  - `main` builds the workers and links neighbours both ways.
- **Swift (`swift/heat/heat_3.swift`).** Each worker holds two buffers of
  `num + 2` slots.
  - Step `t` reads buffer `t % 2` and writes buffer `(t + 1) % 2`.
  - Neighbours read and write single slots of each other's buffers
    directly.
  - The driver arranges the workers in a ring.

The model has five modules:

| module | file | models |
|---|---|---|
| `HeatPartition` | `heat_partition.dfy` | partition arithmetic and queue presence of `Worker.__init__`, as pure functions |
| `HeatProtocol` | `heat_protocol.dfy` | the order of queue operations in a `run`, as sequences of operations, with counting lemmas |
| `HeatWorker` | `heat_worker.dfy` | the Python `Worker`: a class with `data`/`data2` arrays, neighbour references and a ghost `trace` of every queue interaction and compute step |
| `HeatPool` | `heat_pool.dfy` | `main`'s build-and-wire loops and the balance of the queues between neighbours |
| `HeatSwift` | `swift_worker.dfy` | the Swift `Worker`, a class over two arrays; its driver's ring neighbours, pool construction, one task, and the single-worker run |

## How the model follows the code

**Blocking gets.** A Python `Queue.get` blocks until another thread puts a
value. In the model, the value each `get` delivers is a parameter:
`RecvGhosts(fromLeft, fromRight)`, and for `Run` sequences of `nt + 1`
values. Each `get` is recorded as a `Recv` event in the worker's trace and
appended to the ghost record `takenLeft` or `takenRight` of the values taken
from that queue. Each `put_nowait` is recorded as a `Send` event in the
putting worker's trace. The `Channel` class keeps only the identity of a
queue.

**Run properties.** `Worker.Run` proves four things:
- its trace has exactly the shape `Protocol`: bootstrap sends, `nt` rounds
  of receive/compute/send, then a final receive;
- every value it puts is an initial edge value or a value it received
  earlier;
- it takes exactly `fromLeft` from its left queue and `fromRight` from its
  right queue, in order, and nothing from a queue it does not own;
- its final buffers are `Sweep` of the initial ones, a fold of `Turn` (one
  `update` on buffer contents), followed by the closing receive.

The counting lemmas (`ProtocolCounts`, `QueuesBalanced`, `ChainEnds`) then
give the per-queue counts.

**Values.** Buffer values are `real`.

**Kernels.** Each stencil is modelled as written:
- **Python** adds the slot and its two neighbours:
  `data[j+1] + data[j] + data[j-1]`.
- **Swift** uses the centred second difference
  `src[i-1] - 2*src[i] + src[i+1]`.

The coefficients differ too: `k = 0.5` in Python, `0.4` in Swift.

**Swift oddities, modelled as written:**
- **`update`** writes only slots `1 ..= num - 2`, so slots `num - 1` and
  `num` of the target are never recomputed (`DiffuseWrites`,
  `EvolveKeepsEdges`). It needs `num >= 3` for its closed range.
- **`receiv_ghost` and `receiv_right`** write slot `num - 1`, not the halo
  slot `num + 1`.
- **`send_right`** reads slot `num - 1`, the very slot `receiv_ghost` has
  just overwritten with the right neighbour's `send_left`. So within one
  task, the right neighbour's next ghost slot 0 receives that neighbour's own
  slot 1 back. This is the last `ensures` of `Task`.
- **`hi`** is computed and never used.
- **The driver** calls `Worker(length, t)`, so the parameter named `p_num` is
  the width and the one named `tx` is the worker index.

**Swift buffer 1** is allocated uninitialised, and the model promises
nothing about its contents.

## Model

| member | source | states |
|---|---|---|
| HeatPartition.PlaceHi | python/heat2.py:31-39 | `lo = tx*num`; a worker that is not last ends at `tx*(num+1)`; the last one ends at `nx` |
| HeatPartition.PlaceInDomain | python/heat2.py:28-48 | for `1 <= threads <= nx` every range is non-empty and inside `[0, nx)`, so `sz >= 1` |
| HeatPartition.Tiling | python/heat2.py:25-48 | the ranges start at 0, end at `nx`, and each ends exactly where the next begins |
| HeatPartition.Ordered | python/heat2.py:31-39 | ranges are ordered by worker number and pairwise disjoint |
| HeatPartition.OwnerOwns | python/heat2.py:25-39 | the worker `min(x / tx, threads - 1)` owns node `x` |
| HeatPartition.OwnerExact | python/heat2.py:25-48 | every node of `[0, nx)` has exactly one owner, and it is the one `Owner` names |
| HeatPartition.QueuePresence | python/heat2.py:35-47 | a worker has a left queue exactly when it is not first, a right queue exactly when it is not last; a lone worker has neither |
| HeatProtocol.ProtocolCounts | python/heat2.py:76-80 | a run sends `nt + 1` values to each wired neighbour, takes `nt + 1` from each queue the worker owns, and computes `nt` times |
| HeatProtocol.RoundAt | python/heat2.py:60-66 | update `i` of a run is its receives, then one compute, then its sends, in that order |
| HeatWorker.WithGhostsSlots | python/heat2.py:54-58 | `recv_ghosts` keeps the length and every interior slot; slot 0 takes the left value only with a left queue, the last slot the right value only with a right queue |
| HeatWorker.RelaxSlots | python/heat2.py:63 | the compute step leaves the first and last slot of `data2` and writes the neighbour-sum stencil of `data` into every interior slot |
| HeatWorker.UpdateEdges | python/heat2.py:60-66 | across one update, the slots sent afterwards are edge values from before it; every edge value afterwards is an edge value from before or a received value |
| HeatWorker.SentFromAt | python/heat2.py:56-74 | every value a run puts on a queue was an initial edge value or a value taken from a queue before that put |
| HeatWorker.Worker.constructor | python/heat2.py:28-52 | range and queues as `Place` gives them, fresh queues, `data` holds the given initial values, `data2` is all zeros, no neighbours yet, nothing done |
| HeatWorker.ReceivedRecv | python/heat2.py:54-58 | the events of one `recv_ghosts` take exactly one value from each existing queue: the left value on the left only, the right value on the right only |
| HeatWorker.ReceivedRound | python/heat2.py:60-66 | the events of one `update` take exactly the left value (with a left queue) and the right value (with a right queue); its compute and sends take nothing |
| HeatWorker.Worker.RecvGhosts | python/heat2.py:54-58 | `data` becomes `WithGhosts` of its old contents; one `Recv` event per existing queue, left first; each value taken is appended to the record of its queue |
| HeatWorker.Worker.SendGhosts | python/heat2.py:68-74 | with both asserts satisfied, one `Send` event per wired neighbour, carrying slot 0 to the left and the last slot to the right; no buffer changes |
| HeatWorker.Worker.ComputeNext | python/heat2.py:63 | the interior of `data2` becomes the stencil of `data`; the first and last slot of `data2` are kept |
| HeatWorker.Worker.Update | python/heat2.py:60-66 | the buffers are exchanged; the new `data2` is the old `data` after the receive; the new `data` is its stencil over the old `data2`; the trace gains receives, a compute and sends, in that order; one value is taken per owned queue |
| HeatWorker.SweepAloneEdges | python/heat2.py:54-66 | a worker without queues never changes its boundary values: after `n` updates the first and last slot of `data` are those of the initial `data` when `n` is even and of the initial `data2` when `n` is odd, and `data2` holds the other pair |
| HeatWorker.Worker.Advance | python/heat2.py:78-79 | one iteration of `run`'s loop: the buffers are exchanged and their contents become `Turn` of the old pair (receive into `data`, relax it over `data2`, exchange); one value is taken per owned queue; the trace grows by one round with every sent value accounted for |
| HeatWorker.Worker.Updates | python/heat2.py:78-79 | after the `nt` updates, the contents are `Sweep` of the initial pair; the buffers are exchanged exactly when `nt` is odd; the first `nt` values of each owned queue have been taken, in order; the trace is the bootstrap send plus `nt` rounds |
| HeatWorker.Worker.Finish | python/heat2.py:80 | the closing `recv_ghosts` receives into `data` (`WithGhosts`), takes one more value per owned queue, completes `Protocol`, and keeps every sent value accounted for |
| HeatWorker.Worker.Run | python/heat2.py:76-80 | the trace gains exactly `Protocol(nt, …)`; every value put is an initial edge value or one taken earlier; the values taken from the left (right) queue are exactly `fromLeft` (`fromRight`), and none without that queue; `data2` ends as `Sweep(…, nt).1` and `data` as the closing receive applied to `Sweep(…, nt).0`; the buffers end exchanged exactly when `nt` is odd |
| HeatPool.BuiltProtocol | python/heat2.py:76-88 | for worker `j` of a placed, wired chain, the operations its `run` performs (`Protocol` of its own queues and neighbours) are `ChainProtocol(…, j)`, so the balance lemmas speak of the pool `Build` returns |
| HeatPool.Spawn | python/heat2.py:83-85 | `threads` distinct fresh workers numbered `0 ..`, each placed by `Place` with its slice of the initial field, none wired; every worker's two buffers are fresh and no two workers share a buffer (`Separate`) |
| HeatPool.SpawnedAppend | python/heat2.py:83-85 | appending a worker placed as the next number, whose buffers are none of the earlier workers', keeps every worker placed, unwired and apart |
| HeatPool.Wire | python/heat2.py:86-88 | worker `i`'s right neighbour is `i + 1` and its left `i - 1` where those exist, `None` at the chain ends; buffers and traces untouched |
| HeatPool.Build | python/heat2.py:82-88 | the pool `main` builds is a placed, wired chain of distinct workers with fresh buffers of their own (`Separate`), in which every worker passes both asserts of `send_ghosts`; so any worker of it can then `run` |
| HeatPool.ChainReady | python/heat2.py:69-73 | in a wired chain, every neighbour a worker puts on owns the queue it puts on |
| HeatPool.QueuesBalanced | python/heat2.py:76-88 | in the chain, each worker puts on a neighbour's queue exactly as many values as that neighbour takes from it, `nt + 1` per run, in both directions |
| HeatPool.ChainEnds | python/heat2.py:35-52 | the first worker neither puts nor takes on the left, the last none on the right |
| HeatSwift.RingNeighbours | swift/heat/heat_3.swift:123-157 | the driver's neighbours of `p` are `(p - 1 + threads) % threads` and `(p + 1) % threads`, and neither is `p` |
| HeatSwift.RingInverse | swift/heat/heat_3.swift:123-157 | `q` is `p`'s left neighbour exactly when `p` is `q`'s right neighbour |
| HeatSwift.DiffuseKeepsLinear | swift/heat/heat_3.swift:56-59 | the update keeps a slot whose neighbours continue it linearly (the second difference vanishes) |
| HeatSwift.DiffuseWrites | swift/heat/heat_3.swift:54-59 | the update never writes slots 0, `num - 1`, `num` and `num + 1` of its target |
| HeatSwift.InitialNumbering | swift/heat/heat_3.swift:37-43 | worker `t`'s buffer 0 starts at `t*length + 1`, and consecutive workers continue each other's numbering |
| HeatSwift.EvolveKeepsEdges | swift/heat/heat_3.swift:51-59 | however many steps a lone worker takes, the slots the update never writes keep their initial values in both buffers |
| HeatSwift.Worker.constructor | swift/heat/heat_3.swift:26-45 | two distinct fresh buffers of `num + 2` slots; buffer 0 is `0, lo+1, …, lo+num, 0`; `lo = tx*num`, `hi = tx*(num+1)` |
| HeatSwift.Worker.ReceivLeft | swift/heat/heat_3.swift:96-100 | only slot 0 of buffer `(t + 1) % 2` changes, to the value |
| HeatSwift.Worker.ReceivRight | swift/heat/heat_3.swift:90-94 | only slot `num - 1` of buffer `(t + 1) % 2` changes, to the value |
| HeatSwift.Worker.ReceivGhost | swift/heat/heat_3.swift:83-88 | buffer `t % 2` changes only in slot 0 (the left neighbour's `send_right`) and then slot `num - 1` (the right neighbour's `send_left`) |
| HeatSwift.Worker.SendGhost | swift/heat/heat_3.swift:76-81 | the left neighbour's next buffer gets `send_left` in slot `num - 1`; the right neighbour's next buffer gets `send_right` in slot 0; nothing else changes, and both writes land in one buffer when both neighbours are one worker |
| HeatSwift.Worker.Update | swift/heat/heat_3.swift:47-62 | buffer `(t + 1) % 2` becomes `Diffuse` of buffer `t % 2`, which is only read |
| HeatSwift.BuildPool | swift/heat/heat_3.swift:104-111 | `threads` workers of width `nx / threads`, worker `t` numbered from `t*length`, each with two fresh buffers, no two sharing a buffer; so the driver's tasks can then run on the pool |
| HeatSwift.Task | swift/heat/heat_3.swift:121-158 | in a ring: receive from the ring neighbours, update, then hand slot 1 to the left neighbour; the right neighbour gets its own slot 1 back. Alone: update only |
| HeatSwift.DriveAlone | swift/heat/heat_3.swift:113-169 | with one worker, `nt >= 1` steps leave both buffers as `Evolve` gives them, alternating the written buffer |

## Left out

- Threads, `start`/`join`, and the blocking and scheduling of `Queue.get`/`put_nowait`. These belong to the concurrency, and are outside a sequential model. Each worker's queue interactions are a trace, and the values received are parameters.
- What a queue holds. `Channel` keeps only identity. Which values travel between two workers follows from their traces, but the model does not tie one worker's sends to another worker's receives.
- Deadlock-freedom across workers, and equality of the partitioned result with a single sequential sweep. The Python code has no halo cells: it overwrites each partition's own edge nodes. So the second is not a property of the code, and neither is stated.
- Swift `withTaskGroup`/`await` scheduling. The tasks of one step run concurrently and read each other's buffers, so their order is unspecified. `Task` models one task run on its own, and `DriveAlone` models only the single-worker driver.
- IEEE floating-point rounding. Values are `real`, and nothing is claimed about numerical accuracy or stability.
- `np.random.randn` initial data is an arbitrary input sequence. `UnsafeMutableBufferPointer` allocation becomes Dafny arrays of `num + 2` slots, and their lifetime is not modelled.
- Argument parsing, the module-level globals, PAPI counters, wall-clock timing, `print`, and the `perfdata.csv` output. These are I/O.
- HeatWorker.Worker.constructor: requires `threads <= nx`. With more workers than nodes the source builds empty partitions, and the first `send_ghosts` on such a worker then fails on `data[0]` or `data[-1]` (worker 0, which has only a right neighbour, fails on `data[-1]`). The exception is a lone worker over `nx = 0`: it has no neighbour, so `send_ghosts` and `recv_ghosts` do nothing and the empty slice assignment succeeds, and the source runs on empty buffers without error; the model excludes that input as well, since `Valid()` needs `sz >= 1`.
- HeatSwift.Task: states the neighbour slots it writes, but not that the neighbours' other slots are unchanged. `SendGhost` states the full new state.
- HeatWorker.Worker.Run: the values taken are stated on the ghost record `takenLeft`/`takenRight`, which `RecvGhosts` extends together with the trace. That each `Recv` event carries the value recorded is proved for one receive and one update (`ReceivedRecv`, `ReceivedRound`), not restated for the whole trace of a run.
- HeatSwift.Worker.Update: `t` is a natural number. The driver never passes a negative step.
