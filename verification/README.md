# XKBlas: a verified model

XKBlas runs the Level 3 BLAS on several GPUs. A routine cuts its matrices into
tiles and emits a list of tile tasks; the XKaapi runtime runs the tasks in any
order that respects their declared accesses, keeps replicas of the tiles coherent
between the host and the devices, and manages device memory, queues and barriers.
This project models those parts in Dafny and proves what they promise.

`dafny verify dfyconfig.toml` checks everything.

## How the model is laid out

| files | subject |
|---|---|
| `Machine`, `Cblas` | the 64-bit word, NULL and lists of record ids; argument conventions |
| `BlasReference`, `BlasMeaning` | what the routines compute, element by element on the caller's arguments; the whole-matrix tasks mean that |
| `Complex`, `TileTasks`, `Results`, `Solvable` | exact complex scalars; the contract of the BLAS kernel of a task (`Kernel`) and the task as the runtime runs it (`Step`), as relations between stores; which results these admit |
| `Schedules` | legal schedules: conflicting tasks stay in program order |
| `Strips`, `Triangular`, `TrsmProof`, `SolveExact`, `ZeroSolve`, `Ztrsm`, `TrmmProof`, `Ztrmm` | triangular solve and in-place triangular product: loop nests as methods, and what their task lists compute |
| `Products`, `Zgemm`, `Zsymm`, `Zsyrk` | the three products |
| `Replicas`, `Transfers`, `Coherence`, `CoherenceSteps`, `CoherenceRuns`, `CallbackRuns`, `CoherenceNeeds`, `ReplicaRuns` | the replica directory of a tile as an object, the coherence protocol over whole runs, why the code needs what it assumes, and the object taking the protocol's steps |
| `Barrier` | the three-counter cyclic barrier, for any number of threads and episodes |
| `ListPairs`, `CacheOrder`, `EvictionRounds`, `CacheLists`, `SoftwareCache` | the software cache of a device: its two lists, eviction passes, least recently used first |
| `WriteBacks` | the directory of a tile together with the caches of all devices: which stale tiles are written back |
| `Segments`, `DeviceHeap`, `LinkedList`, `WorkList`, `WorkBuffer`, `Registration` | the two address-ordered coalescing allocators, down to their linked records |
| `TaskQueue` | the ring deque of a locality domain |
| `HashChains`, `HashTable` | the chained hash map with reuse of blocks |
| `TileViews` | tile views as addresses |

The whole-matrix routine is the kernel of a tile task, on tile (0, 0) with the full
extents; its meaning is that of section 2.8.8 (Matrix-Matrix Operations) of the BLAST
Forum Standard. A task is run on device buffers: a tile that it declares write-only is
not fetched, so its kernel starts from a buffer that may hold anything, and the whole
buffer is the new tile (`Step`; `StepRefills` ties it to `Kernel`). So "the tiled
routine is correct" reads: running the emitted list, in any legal schedule, is
equivalent to that one kernel. The entry points say so without tasks: their results are
the predicates of `BlasReference`, written on the CBLAS codes and matrix elements alone.

Buffers in the coherence protocol hold ghost values that name the task which
produced them. `Allowed` says what data flow and the code's own tests guarantee of
a step; `Assumed` says what the code relies on without enforcing it.

## Findings

- The coherence protocol relies on three conditions that the code does not enforce: a
  write acquire finds no transfer under way, an evicted replica feeds no copy, and a
  write-back finds no writer preparing. In every reachable state each is exactly what is
  needed: it holds if and only if, however the transfers and task bodies that are due
  then run, every reader finds the last write and every valid copy is current
  (`ReachableExact`). Two short runs show it: `WriteBackOvertakes` (a write-back in flight
  lands on a newer value) and `SourceEvicted` (a copy's source is evicted, because nothing
  pins it, although the comment at kaapi/kaapi_memory.c:2572 says so).
- gemm and syrk with K = 0 emit no task, so C is not scaled: gemm is right if and only if
  K > 0 or beta = 1 (`ZgemmAsync`).
- syrk with beta = 0 declares its diagonal C tiles write-only but writes one triangle of
  them. The declaration is sound if and only if the tile has at most one row
  (`SyrkWriteOnlySound`). So syrk is right if and only if K > 0 or beta = 1, and beta is
  not 0 or C or the tiles have one row (`ZsyrkAsync`); otherwise the opposite triangle of
  a diagonal tile ends as whatever the device buffer held (`UnsettledFails`, and
  `TriangleLost` for order two).
- The comments of trsm and trmm call CblasNoTrans transposed and CblasTrans not transposed
  (blas/ztrsm.c:51-55); the code does the opposite, as the BLAS do, and so does the model.
- Illegal arguments end the process; no status is returned. Leading dimensions are compared
  as unsigned numbers, so that a negative one passes (`LdTest`).
- Registering a work buffer ends if and only if its size is a multiple of eight;
  otherwise it ends the process or waits for ever (`Register`).
- The head of the task queue can run down to zero: half a ring of owner pushes does it, and
  the next one stores at index -1 (`RunDown`, `OwnerPush`).
- `kaapi_fifo_queue_pop_with_affinity` counts a pop even when it takes a hole. Over every
  run the counters give the number of tasks if and only if no such hole was taken
  (`CountersExact`, `Size`; `CountersDrift` is a run that ends at -1).
- A thief is handed a task that stays in the queue if and only if only unstealable ones are
  left and one is first (`Steal`).
- A device request within seven bytes of 2^64 wraps around and yields a small chunk
  (`RoundedCovers`); a work-buffer request of that size leaves an empty segment behind
  (`RequestExact`, `GetWorkPos`).
- A stale tile is written back if and only if a device that still has a valid copy wrote it
  and has since neither evicted it nor read it while the host copy was valid
  (`WriteBackExact`). A tile written on one device, read on another and then evicted from
  the first is not: the reader keeps it on its list of read tiles (`WriteBackMisses`, a run
  in which every step is allowed and every assumption of the protocol is met).
- Evicting from half the address space on always reports success, because twice the
  request wraps around (`PassReports`, `Evict`).
- A block of the hash map that is reused after a clear is on neither block list from
  then on, so that destroying the map does not release it (`Insert`, `Destroy`; `Leak`
  inserts, clears, inserts, destroys, and leaves the block behind).
- Tile views share memory exactly when the leading dimension is shorter than a column
  and there are two columns (`ViewsApartExact`); `xkblas_init_matrix_handle` does not
  check it.

## Model

| member | source | states |
|---|---|---|
| `Ztrsm.ZtrsmAsync` | blas/ztrsm.c:102-500 | The process ends exactly on an illegal argument, a negative leading dimension passing as legal. Otherwise, in every legal schedule the emitted tasks reach only stores in which every element of the n x nrhs matrix B satisfies its equation of op(A) X = alpha B or X op(A) = alpha B, written on the caller's codes, and nothing outside B changes; they reach exactly those when no diagonal element that is divided by vanishes. In the two nests that scale by -1/alpha, with several tiles and alpha = 0, the second part holds for every value of the quotient. |
| `Ztrsm.LeftUpperNoTrans` | blas/ztrsm.c:245-273 | The loop nest emits, for each column of tiles, exactly the solve and update tasks of that strip in substitution order, well sized, confined to the strip and inside B. |
| `Ztrsm.LeftUpperTrans` | blas/ztrsm.c:277-306 | Same, for the transposed upper operand. |
| `Ztrsm.LeftLowerNoTrans` | blas/ztrsm.c:311-340 | Same, for the lower operand. |
| `Ztrsm.LeftLowerTrans` | blas/ztrsm.c:344-373 | Same, for the transposed lower operand, tiles visited from the last. |
| `Ztrsm.RightUpperNoTrans` | blas/ztrsm.c:379-407 | Same, by rows of tiles. |
| `Ztrsm.RightUpperTrans` | blas/ztrsm.c:411-436 | Same, with every tile solved with alpha and every update scaled by -1/alpha. |
| `Ztrsm.RightLowerNoTrans` | blas/ztrsm.c:441-467 | Same, tiles visited from the last. |
| `Ztrsm.RightLowerTrans` | blas/ztrsm.c:469-495 | Same, with the -1/alpha scaling. |
| `Ztrsm.AnySchedule` | blas/ztrsm.c:243-496 | A list with those strips solves the system in every legal schedule, and reaches exactly the solution when A is regular, also for alpha = 0 with any quotient. |
| `Ztrsm.MinusInverse` | blas/ztrsm.c:193-237 | The factor of the two scaled nests: alpha times it is -1, unless alpha is 0. |
| `ZeroSolve.ZeroExact` | blas/ztrsm.c:411-495 | The two scaled nests with alpha = 0 and a regular operand: running the list is equivalent to the whole solve, whatever -1/alpha evaluates to. |
| `ZeroSolve.StripClears` | blas/ztrsm.c:411-495 | There, after any number of tasks of a strip, the tiles solved so far are zero. |
| `TrsmProof.TiledSolve` | blas/ztrsm.c:243-496 | A list whose strips are the expected ones leaves X with op(A) X = alpha B or X op(A) = alpha B over the whole matrix, and changes nothing else. |
| `TrsmProof.StripInv` | blas/ztrsm.c:243-496 | After any number of tasks of a strip, solved rows satisfy their equations over the known rows and the others hold the reduced right-hand side, in either scaling. |
| `SolveExact.TiledSolveExact` | blas/ztrsm.c:243-496 | For a regular operand, running the list is equivalent to the whole solve, in both directions. |
| `SolveExact.RunExists` | blas/ztrsm.c:243-496 | For a regular operand every task of the list has a result, so the list can always be run to its end. |
| `Solvable.SolutionExists` | blas/ztrsm.c:36-48 | Substitution gives a result that meets the contract of a triangular solve with a nonsingular operand. |
| `Solvable.SolutionUnique` | blas/ztrsm.c:36-48 | That contract has no other result. |
| `Results.Equivalent` | blas/ztask_gemm.c:127-134 | A list of tasks other than solves that refines one task is equivalent to it: results exist and are unique. |
| `Results.LostElement` | kaapi/kaapi_memory.c:2733-2761 | Over a whole list, an element that no kernel writes ends as the buffer's contents if some task declares its tile write-only, and is kept otherwise. |
| `Ztrmm.ZtrmmAsync` | blas/ztrmm.c:101-463 | Illegal arguments as above. In every legal schedule the emitted tasks reach exactly the store in which every element of B is that of alpha op(A) B or alpha B op(A) of the original B, in place, and nothing else changes. |
| `Ztrmm.LeftUpperNoTrans` | blas/ztrmm.c:226-251 | The loop nest emits, for each strip, exactly the diagonal products and the accumulations of tiles that have not been overwritten yet. |
| `Ztrmm.LeftUpperTrans` | blas/ztrmm.c:255-281 | Same, tiles visited from the last. |
| `Ztrmm.LeftLowerNoTrans` | blas/ztrmm.c:286-310 | Same, tiles visited from the last. |
| `Ztrmm.LeftLowerTrans` | blas/ztrmm.c:314-341 | Same, tiles visited from the first. |
| `Ztrmm.RightUpperNoTrans` | blas/ztrmm.c:348-372 | Same, by rows of tiles, from the last. |
| `Ztrmm.RightUpperTrans` | blas/ztrmm.c:376-401 | Same, from the first. |
| `Ztrmm.RightLowerNoTrans` | blas/ztrmm.c:406-431 | Same, from the first. |
| `Ztrmm.RightLowerTrans` | blas/ztrmm.c:435-459 | Same, from the last. |
| `Ztrmm.AnySchedule` | blas/ztrmm.c:224-460 | A list with those strips is equivalent, in every legal schedule, to the whole product. |
| `TrmmProof.TiledProduct` | blas/ztrmm.c:224-460 | A list whose strips are the expected ones computes the whole product in place. |
| `TrmmProof.FreshPart` | blas/ztrmm.c:224-460 | A tile read by an accumulation still has its original contents. |
| `Schedules.LegalScheduleEquivalent` | kaapi/kaapi.h:526 | Any order that keeps program order between tasks with non-concurrent declared modes on a common tile reaches exactly the stores that program order reaches. |
| `Schedules.Swap` | kaapi/kaapi.h:526 | Two tasks whose declared accesses do not conflict commute. |
| `Schedules.ConflictExact` | kaapi/kaapi.h:526 | Two tasks are kept in order if and only if one changes a tile that the other works on: operands that both only read do not count. |
| `Schedules.ExchangeLegal` | kaapi/kaapi.h:526 | Neighbours of a legal schedule that change different tiles, neither of which the other reads, may change places. |
| `Schedules.ProgramOrder` | kaapi/kaapi.h:526 | Program order is a legal schedule. |
| `TileTasks.DeclaredModes` | blas/ztask_gemm.c:128-134 | Operands are declared R, and the output RW, or W for gemm and syrk with beta = 0. |
| `TileTasks.Replay` | blas/ztask_trsm.c:117-121 | A task depends only on the tiles it declares it reads: from any store that agrees on them it can produce the same output. |
| `TileTasks.StepRefills` | kaapi/kaapi_memory.c:2733-2761 | A task runs as its kernel does from a store in which a tile that is declared write-only, and so not fetched, holds anything. |
| `TileTasks.StepIsKernel` | kaapi/kaapi_memory.c:2733-2761 | A task without a write-only tile runs as its kernel does. |
| `Strips.TilesCover` | blas/common.gen:189 | Tiles cover a dimension; only the last one may be ragged. |
| `Strips.TileOf` | blas/common.gen:189 | Every index lies in a tile of the dimension. |
| `Strips.Project` | blas/ztrsm.c:243-496 | Seen from one strip of tiles, running the whole list is running the strip's own tasks. |
| `Products.TiledProduct` | blas/zgemm.c:279-367 | A list whose tiles are the expected ones computes alpha op(A) op(B) + beta C, with beta applied once per tile. |
| `Products.EmitsImplements` | blas/zgemm.c:279-367 | Such a list is equivalent, in every legal schedule, to the whole product. |
| `Products.UnsettledFails` | blas/ztask_syrk.c:94-99 | A syrk list with beta = 0 over tiles of two rows or more does not implement the operation. |
| `Products.NothingToDo` | blas/zgemm.c:183-188 | The quick return is right when it is taken. |
| `Products.NotScaled` | blas/zgemm.c:279-367 | With K = 0 and beta other than 1, the empty list is wrong. |
| `Zgemm.ZgemmAsync` | blas/zgemm.c:118-371 | Illegal arguments as above. In every legal schedule the emitted tasks reach exactly the store in which every element of C is that of alpha op(A) op(B) + beta C, with the two transpositions as passed, if and only if K > 0 or beta = 1. |
| `Zgemm.TileLoop` | blas/zgemm.c:287-365 | One tile of C gets exactly its accumulating tasks, in each of the four transpositions. |
| `Zgemm.Loops` | blas/zgemm.c:279-367 | Every tile of C gets its tasks, and nothing else is written. |
| `Zsymm.ZsymmAsync` | blas/zsymm.c:107-396 | Illegal arguments as above. In every legal schedule the emitted tasks reach exactly the store in which every element of C is that of alpha A B + beta C or alpha B A + beta C, A read through its stored triangle only. |
| `Zsymm.LeftLoops` | blas/zsymm.c:230-310 | Every tile of C gets its tasks, off-diagonal tiles of A transposed where they are not stored. |
| `Zsymm.RightLoops` | blas/zsymm.c:314-394 | Same, for the right side. |
| `Zsyrk.ZsyrkAsync` | blas/zsyrk.c:97-318 | Illegal arguments as above. In every legal schedule the emitted tasks reach exactly the store in which every element of the stored triangle of C is updated and the rest of C is left alone, if and only if K > 0 or beta = 1, and beta is not 0 or the order or the tile size is one. |
| `Zsyrk.TriangleLost` | blas/ztask_syrk.c:94-99 | C := A A^T of order two in one tile: its one task can change the element of C that the operation leaves alone. |
| `Cblas.LdTest` | blas/common.gen:307-308 | The unsigned test of a leading dimension passes exactly those that are large enough or negative. |
| `BlasMeaning.TrsmMeans` | blas/ztrsm.c:36-89 | The whole-matrix solve means the element-wise equations on the CBLAS codes: triangle, unit diagonal, transposition and side as passed. |
| `BlasMeaning.TrmmMeans` | blas/ztrmm.c:32-88 | Same, for the triangular product. |
| `BlasMeaning.GemmMeans` | blas/zgemm.c:33-100 | Same, for the general product. |
| `BlasMeaning.SymmMeans` | blas/zsymm.c:30-90 | Same, for the symmetric product. |
| `BlasMeaning.SyrkMeans` | blas/zsyrk.c:32-88 | Same, for the rank-k update of one triangle. |
| `Zsyrk.DiagonalTile` | blas/zsyrk.c:206-276 | A diagonal tile gets its accumulating syrk tasks. |
| `Zsyrk.LowerTile` | blas/zsyrk.c:224-296 | A tile below the diagonal gets its accumulating gemm tasks. |
| `Zsyrk.UpperTile` | blas/zsyrk.c:244-316 | A tile above the diagonal gets its accumulating gemm tasks. |
| `Zsyrk.Loops` | blas/zsyrk.c:206-317 | Exactly the stored triangle of tiles gets tasks. |
| `Zsyrk.GemmWriteOnlySound` | blas/ztask_gemm.c:127-134 | gemm with beta = 0 may declare C write-only: the result does not depend on what C held. |
| `Zsyrk.SyrkWriteOnlySound` | blas/ztask_syrk.c:94-99 | syrk with beta = 0 may do so if and only if the tile has at most one row. |
| `Replicas.Metadata.constructor` | kaapi/kaapi_memory.c:1772-1812 | A new tile is valid, allocated and pinned on the host only. |
| `Replicas.Metadata.RegisterCallback` | kaapi/kaapi_memory.c:2527-2543 | The first callback sits in the replica, later ones right behind it. |
| `Replicas.Metadata.FetchOn` | kaapi/kaapi_memory.c:2553-2701 | Returns 0 exactly when the destination was valid and EINPROGRESS otherwise; then the callback is registered at the destination, which is receiving, and exactly one of three things holds: it was receiving already, a forward is chained at a receiving source, or one copy is posted. Nothing else changes. |
| `Replicas.Metadata.AcquireData` | kaapi/kaapi_memory.c:2708-2776 | Pins, allocates, fetches for reading and invalidates the others for writing, all stated on the sets; returns 0 exactly when the replica was valid or is only written, and otherwise has registered the task's callback. |
| `Replicas.Metadata.ReleaseData` | kaapi/kaapi_memory.c:2781-2800 | Drops one pin and nothing else. |
| `Replicas.Metadata.PrefetchOn` | kaapi/kaapi_memory.c:2808-2836 | Allocates and fetches without pinning; returns 0 exactly when the replica was valid. |
| `Replicas.Metadata.TryEvict` | kaapi/kaapi_memory.c:1120-1152 | Evicts exactly an unpinned replica beside which another one is valid, and changes its two bits only. |
| `Replicas.Metadata.OnReceive` | kaapi/kaapi_memory.c:2428-2472 | Marks the replica valid and no longer receiving, runs its callbacks in list order, posting the forwards and waking the tasks, and empties the list. |
| `Replicas.SelectedHolds` | kaapi/kaapi_memory.c:2270-2420 | The selected source holds the data or is receiving it. |
| `Replicas.SelectsExactly` | kaapi/kaapi_memory.c:2270-2420 | A device that holds the data is selected first, then one that receives it, and the host only when there is neither. |
| `Replicas.ReceiveCounts` | kaapi/kaapi_memory.c:2428-2520 | A delivery wakes a task once per callback that names it, and posts a copy once per forward registered there. |
| `Replicas.IdleRemovable` | kaapi/kaapi_memory.c:1118-1120 | An unpinned replica that is not valid can be evicted whenever another one is. |
| `ReplicaRuns.EverythingAllowed` | kaapi/kaapi_memory.c:2428-2836 | Whatever the code's own tests let through is a step of the protocol. |
| `ReplicaRuns.AcquireFor` | kaapi/kaapi_memory.c:2740-2750 | An acquire returns EINPROGRESS exactly when the protocol leaves the task waiting, and exactly then its callback is at the replica. |
| `ReplicaRuns.DeliverFor` | kaapi/kaapi_memory.c:2428-2472 | A delivery wakes exactly the tasks that wait at its destination, and these are the tasks that move. |
| `ReplicaRuns.EvictFor` | kaapi/kaapi_memory.c:1118-1150 | An eviction takes place exactly when the protocol allows it. |
| `ReplicaRuns.PrefetchFor` | kaapi/kaapi_memory.c:2808-2836 | A write-back returns EINPROGRESS exactly when the host is to receive. |
| `Coherence.StartsExactly` | kaapi/kaapi.h:526 | A reader may start if and only if every earlier writer is done, a writer if and only if every earlier task is. |
| `Transfers.FetchFlow` | kaapi/kaapi_memory.c:2553-2701 | A fetch keeps every receiving replica fed by exactly one carrier, with no cycle of forwards. |
| `Transfers.ReceiveFlow` | kaapi/kaapi_memory.c:2428-2520 | A delivery, with its forwards, keeps that too. |
| `Transfers.OneCarrier` | kaapi/kaapi_memory.c:2428-2520 | No second copy and no forward is on its way to the destination of a posted copy, and nothing is copied out of it. |
| `Transfers.CopyBehind` | kaapi/kaapi_memory.c:2428-2701 | Behind every receiving replica there is a posted copy. |
| `CoherenceSteps.AcquireKeeps` | kaapi/kaapi_memory.c:2708-2776 | An acquire keeps the invariant, including one that marks its replica valid while the data is in flight. |
| `CoherenceSteps.ExecuteKeeps` | kaapi/kaapi_memory.c:2755-2761 | A task body keeps the invariant: while a writer is in use nobody else is. |
| `CoherenceSteps.ReleaseKeeps` | kaapi/kaapi_memory.c:2781-2800 | A release keeps the invariant. |
| `CoherenceSteps.DeliverKeeps` | kaapi/kaapi_memory.c:2428-2520 | A delivery keeps the invariant. |
| `CoherenceSteps.EvictKeeps` | kaapi/kaapi_memory.c:1094-1208 | An eviction keeps the invariant if its replica feeds no copy. |
| `CoherenceSteps.PrefetchKeeps` | blas/xkblas.c:1205-1215 | A write-back keeps the invariant while no writer prepares, or if the host is already valid. |
| `CoherenceNeeds.AssumptionNeeded` | kaapi/kaapi_memory.c:2755-2761 | After an acquire, an eviction or a write-back whose tacit assumption fails, some sequence of deliveries and task bodies ends with a reader that finds a wrong value or with a valid copy that is not current. |
| `CoherenceNeeds.AssumptionsExact` | kaapi/kaapi_memory.c:2755-2761 | The tacit assumption of a step holds if and only if every sequence of deliveries and task bodies after it leaves readers and copies right. |
| `CoherenceNeeds.ReachableExact` | kaapi/kaapi_memory.c:2428-2836 | Same, for the next step of every reachable state. |
| `CoherenceSteps.PinnedWhileUsed` | kaapi/kaapi_memory.c:2708-2800 | A replica in use or receiving is pinned, and so is the host. |
| `CoherenceRuns.Reachable` | kaapi/kaapi_memory.c:2428-2836 | The invariant (valid non-empty and inside alloc, receiving replicas allocated, callbacks and waiting tasks in step, pins counted, one value) holds after every run. |
| `CoherenceRuns.RunGoesOn` | kaapi/kaapi_memory.c:2428-2836 | A run goes on with any step that is allowed and meets its assumption. |
| `CoherenceRuns.LastWriteIs` | kaapi/kaapi_memory.c:2708-2776 | The last write before a task is that of the last earlier task that does not only read. |
| `CoherenceRuns.ReadsLastWrite` | kaapi/kaapi_memory.c:2708-2776 | In every run, a task whose transfers are delivered finds in its replica the last write before it in program order. |
| `CoherenceRuns.FinalValue` | kaapi/kaapi_memory.c:2808-2836 | When all tasks are done, every valid copy holds the last write of the program. |
| `CoherenceRuns.EvictionSafe` | kaapi/kaapi_memory.c:1121-1143 | Eviction never takes the host, a replica in use or in transfer, or the last valid copy: its two assertions hold. |
| `CoherenceRuns.OneCopyEach` | kaapi/kaapi_memory.c:2553-2701 | At most one copy per destination is in flight. |
| `CoherenceRuns.ForwardsNeeded` | kaapi/kaapi_memory.c:2478-2520 | When a forward runs its destination is not valid: the assertion of the resend callback holds. |
| `CoherenceRuns.CallbacksOnce` | kaapi/kaapi_memory.c:2428-2472 | An arrival runs the callback of every task that waits there exactly once, and of no other. |
| `CallbackRuns.CallbacksBalance` | kaapi/kaapi_memory.c:2428-2543 | Over every run, callbacks registered before and during it are those that ran plus those still registered, with multiplicity: tasks, write-backs and forwards alike. |
| `CallbackRuns.EachRunsOnce` | kaapi/kaapi_memory.c:2428-2543 | Once no transfer is under way, every callback that was registered has run exactly once. |
| `CoherenceRuns.AlwaysACopy` | kaapi/kaapi_memory.c:2553-2701 | While some replica receives, a copy is posted: forwarding cannot deadlock. |
| `CoherenceRuns.DeliveriesBounded` | kaapi/kaapi_memory.c:2428-2520 | Each delivery ends exactly one transfer, so a run of deliveries has at most as many steps as replicas receive. |
| `CoherenceRuns.AllArrive` | kaapi/kaapi_memory.c:2428-2701 | Delivering what is posted ends all transfers and wakes every waiting task. |
| `CoherenceRuns.SelectionStable` | kaapi/kaapi_memory.c:2580-2610 | A selected source stays usable until the fetch commits, unless it is evicted or a writer acquires. |
| `CoherenceRuns.WriteBackOvertakes` | blas/xkblas.c:1205-1215 | A run in which a write-back lands on a newer value and a reader finds the old one. |
| `CoherenceRuns.SourceEvicted` | kaapi/kaapi_memory.c:2572-2578 | A run in which the source of a copy is evicted and a reader finds garbage. |
| `Barrier.InitInv` | kaapi/kaapi_barrier.c:66-80 | The initial state meets the invariant. |
| `Barrier.StepKeeps` | kaapi/kaapi_barrier.c:193-252 | Reading the cycle, arriving, cleaning, switching and leaving keep the invariant. |
| `Barrier.RunGoesOn` | kaapi/kaapi_barrier.c:193-252 | A run goes on with any step of any thread that can take one. |
| `Barrier.NobodyLeavesEarly` | kaapi/kaapi_barrier.c:193-252 | No thread leaves an episode before every thread has arrived at it. |
| `Barrier.Together` | kaapi/kaapi_barrier.c:193-252 | Threads are at most one episode apart, and the counter in use equals the number of arrivals at the current episode. |
| `Barrier.FreshCounter` | kaapi/kaapi_barrier.c:225-231 | The counter of an episode stands at zero when the cycle is switched to it. |
| `Barrier.NoDeadlock` | kaapi/kaapi_barrier.c:193-252 | Some thread can always step. |
| `Barrier.EveryoneAdvances` | kaapi/kaapi_barrier.c:193-252 | Whatever the schedule, a run of more than n (4m + 3) steps has brought every one of the n threads through m episodes. |
| `Segments.TakeKeeps` | kaapi/kaapi_memory.c:545-578 | Taking from a free segment, split or not, keeps the run tiled with no two free neighbours. |
| `Segments.TakeLive` | kaapi/kaapi_memory.c:545-578 | Taking adds one live segment and changes no other. |
| `Segments.GiveKeeps` | kaapi/kaapi_memory.c:630-690 | Giving back, with coalescing on both sides, keeps that shape. |
| `Segments.GiveLive` | kaapi/kaapi_memory.c:630-690 | Giving back removes one live segment and changes no other. |
| `Segments.Disjoint` | kaapi/kaapi_memory.c:404-413 | An address lies in at most one segment. |
| `Segments.Conserved` | kaapi/kaapi_memory.c:404-413 | The bytes of all segments are those of the run. |
| `Segments.AllBack` | kaapi/kaapi_memory.c:603-696 | Giving back all live segments in any order leaves one free segment over the whole run. |
| `DeviceHeap.Device.Reserve` | kaapi/kaapi_memory.c:446-473 | The first request reserves the memory as one free chunk, rounded down to eight bytes, which may be empty; the process ends exactly when the driver returns no pointer. |
| `DeviceHeap.Device.FindLastFit` | kaapi/kaapi_memory.c:504-540 | The walk of the free list returns the last fitting chunk and its predecessor in the list. |
| `DeviceHeap.Device.Split` | kaapi/kaapi_memory.c:545-567 | The remainder is linked in behind the chunk, in the chain and in the free list. |
| `DeviceHeap.Device.Unlink` | kaapi/kaapi_memory.c:573-578 | The chunk leaves the free list and becomes live. |
| `DeviceHeap.Device.Alloc` | kaapi/kaapi_memory.c:432-599 | Ends the process as Reserve does. NULL exactly when no free chunk fits; otherwise the highest fitting one, at least as large as the rounded request and less than one and a half times it; the chain tiles the reserved memory, the free list is its free chunks in address order, and the other live chunks keep their place. |
| `DeviceHeap.Device.AbsorbIntoNext` | kaapi/kaapi_memory.c:630-640 | A released chunk goes into its free successor. |
| `DeviceHeap.Device.JoinFree` | kaapi/kaapi_memory.c:645-657 | The enlarged successor goes into a free predecessor. |
| `DeviceHeap.Device.AbsorbIntoPrev` | kaapi/kaapi_memory.c:658-666 | A released chunk goes into its free predecessor. |
| `DeviceHeap.Device.InsertFree` | kaapi/kaapi_memory.c:668-690 | Otherwise it enters the free list behind the last free chunk before it. |
| `DeviceHeap.Device.Free` | kaapi/kaapi_memory.c:603-696 | The chunk is given back with coalescing, all pointers and both lists stay right, and no other live chunk is touched; NULL is ignored. |
| `DeviceHeap.LiveDisjoint` | kaapi/kaapi_memory.c:432-696 | Two live chunks never overlap and lie inside the reserved memory. |
| `DeviceHeap.AllReturned` | kaapi/kaapi_memory.c:603-696 | When no chunk is live the device is back to one free chunk with no links. |
| `DeviceHeap.RoundedCovers` | kaapi/kaapi_memory.c:442-443 | The rounded request covers the request if and only if it is not within seven bytes of 2^64. |
| `LinkedList.ListInsert` | blas/xkblas.c:2893-2903 | Linking a record in behind another gives the list with it at that place, and changes no record outside. |
| `LinkedList.ListRemove` | blas/xkblas.c:2911-2916 | Unlinking a record gives the list without it, and changes no record outside. |
| `LinkedList.ListRename` | blas/xkblas.c:2978-2982 | A record takes the place of another in a list. |
| `WorkList.SplitRepresents` | blas/xkblas.c:2888-2903 | After a split both lists describe the segments with the remainder cut off. |
| `WorkList.TakeRepresents` | blas/xkblas.c:2910-2916 | After a segment is taken the free list is the free segments in address order. |
| `WorkList.NextRepresents` | blas/xkblas.c:2971-2987 | After a merge with the successor both lists describe the joined segments. |
| `WorkList.PrevRepresents` | blas/xkblas.c:2989-3005 | Same, with the predecessor, whether the segment was on the free list or not. |
| `WorkBuffer.Buffer.FindFirstFit` | blas/xkblas.c:2879-2908 | The walk of the free list finds the lowest segment that fits, or says that there is none. |
| `WorkBuffer.Buffer.Split` | blas/xkblas.c:2886-2904 | The remainder is linked in behind the segment, in both lists. |
| `WorkBuffer.Buffer.Take` | blas/xkblas.c:2910-2916 | The segment leaves the free list. |
| `WorkBuffer.Buffer.GetWorkPos` | blas/xkblas.c:2861-2931 | First fit, with the remainder split off; exits when the rounded request exceeds the buffer, waits exactly when nothing fits; both linked lists stay right and the first segment stays first; the segments still tile the buffer if and only if rounding did not wrap around or the call waits. |
| `WorkBuffer.RequestExact` | blas/xkblas.c:2866-2903 | The outcome is sound if and only if rounding the request does not wrap around. |
| `WorkBuffer.Buffer.FindAddress` | blas/xkblas.c:2945-2959 | The walk of the chain finds the segment at an address, or says that there is none. |
| `WorkBuffer.Buffer.JoinNext` | blas/xkblas.c:2971-2987 | The segment takes over its free successor and its place in the free list. |
| `WorkBuffer.Buffer.JoinPrevious` | blas/xkblas.c:2989-3005 | The segment goes into its free predecessor. |
| `WorkBuffer.Buffer.FindPlace` | blas/xkblas.c:3015-3023 | The walk of the free list stops between the last free segment before and the first one behind. |
| `WorkBuffer.Buffer.GiveAlone` | blas/xkblas.c:3007-3038 | A segment without free neighbours enters the free list at its place. |
| `WorkBuffer.Buffer.FreeWorkPos` | blas/xkblas.c:2933-3060 | Gives back the live segment at the address, joined with its free neighbours; exits exactly when there is none; both linked lists stay right and the first segment is never released. |
| `WorkBuffer.AllCoherent` | blas/xkblas.c:2749-2842 | Every record of a sound buffer passes every test of the coherency check. |
| `WorkBuffer.Buffer.CoherencyCheck` | blas/xkblas.c:2740-2847 | The check walks the whole chain and never ends the process. |
| `Registration.TakeAll` | blas/xkblas.c:3138-3152 | Taking all pieces succeeds if and only if the size is a multiple of eight. |
| `Registration.GiveAll` | blas/xkblas.c:3082-3093 | Giving the pieces back in order leaves one free segment. |
| `Registration.Register` | blas/xkblas.c:3101-3158 | Registration ends, with one free segment of the full size, if and only if the size is a multiple of eight; otherwise it exits below one piece and waits above. |
| `CacheOrder.LeastRecentlyUsed` | kaapi/kaapi_memory.c:830-889 | After every run of touches and eviction passes a tile is at most once in the cache, and both lists are ordered by last use. |
| `CacheOrder.SweepCuts` | kaapi/kaapi_memory.c:1115-1176 | A pass cuts the list: everything evictable behind the cut goes, nothing before it, and no more than was needed. |
| `CacheOrder.KeepsNoOlder` | kaapi/kaapi_memory.c:1115-1176 | No evictable tile is kept that was used less recently than an evicted one. |
| `CacheOrder.SweepSplits` | kaapi/kaapi_memory.c:1115-1176 | A pass neither invents nor loses a tile. |
| `CacheOrder.PassReports` | kaapi/kaapi_memory.c:1206-1207 | A pass reports the request less the evicted bytes, and never a shortage from half the address space on. |
| `CacheOrder.WrittenStays` | kaapi/kaapi_memory.c:875-878 | A tile on the written list stays there while its host copy is stale and it is not evicted. |
| `CacheLists.RemoveSound` | kaapi/kaapi_memory.c:801-811 | An entry leaves its list; head, tail, the other list and the free list stay right. |
| `CacheLists.PushSound` | kaapi/kaapi_memory.c:816-827 | An entry enters a list in front; head, tail, the other list and the free list stay right. |
| `SoftwareCache.Cache.AllocateEntry` | kaapi/kaapi_memory.c:775-796 | An entry that is on no list: the first of those given back, or a new one when there is none. |
| `SoftwareCache.Cache.Touch` | kaapi/kaapi_memory.c:832-889 | The tile moves to the front of the list of its mode, or stays with the written ones while its host copy is stale; replica and entry point to each other. |
| `SoftwareCache.Cache.EvictFromList` | kaapi/kaapi_memory.c:1094-1208 | The list loses exactly what the pass evicts, and the missing bytes are returned. |
| `SoftwareCache.Cache.Evict` | kaapi/kaapi_memory.c:1308-1363 | Succeeds if and only if at least the requested bytes were evicted, or the request is at least half the address space; the lists lose exactly the evicted tiles. A failure means that no tile is left that was evictable at a pass over its list: passes 0, 1, 4 and 5 over the first list, which flag names, and 2, 3, 6 and 7 over the other. The other list loses a tile only if the first two passes met everything evictable on the first and fell short. |
| `EvictionRounds.FailureMeansNone` | kaapi/kaapi_memory.c:1343-1358 | When the passes from any one on fail, no tile that was evictable at a later pass is left on its list. |
| `EvictionRounds.SecondOnlyAfterFirst` | kaapi/kaapi_memory.c:1326-1358 | The second list is touched only after two passes over the first that met everything evictable there and fell short. |
| `EvictionRounds.ShortPass` | kaapi/kaapi_memory.c:1115-1207 | A pass that reports a shortage has evicted everything evictable. |
| `SoftwareCache.Cache.Check` | kaapi/kaapi_memory.c:1001-1055 | The consistency check never fails. |
| `SoftwareCache.Cache.WriteBackAll` | kaapi/kaapi_memory.c:1266-1302 | Sends exactly the stale tiles of the written list, in order. |
| `WriteBacks.ListedAllocated` | kaapi/kaapi_memory.c:1129 | In every run a cached replica has a buffer, so the assertion before its eviction holds, and is on one list. |
| `WriteBacks.EverythingPossible` | kaapi/kaapi_memory.c:832-1208 | Runs leave nothing out: any step of the protocol within its assumption, any use of other tiles, any pass over either list whose replica feeds no copy. |
| `WriteBacks.OnWritten` | kaapi/kaapi_memory.c:832-889 | At any point of a run a tile is on the written list of a device if and only if that device wrote it and has since neither evicted it nor read it while the host copy was valid. |
| `WriteBacks.WriteBackExact` | kaapi/kaapi_memory.c:1279-1300 | At the end of any run, a tile whose host copy is stale is sent by some device if and only if that holds of a device with a valid copy. |
| `WriteBacks.WriteBackMisses` | kaapi/kaapi_memory.c:1279-1300 | A run within all assumptions (write on device 1, read on device 2, evict from device 1) after which the host copy is stale and no device sends it. |
| `HashTable.HashMap.constructor` | kaapi/kaapi_hashmap.c:75-94 | An empty map with 2^powsize buckets. |
| `HashTable.HashMap.Find` | kaapi/kaapi_hashmap.c:166-184 | The newest entry of the key, with its words; none exactly when the map has no such key. |
| `HashTable.HashMap.Insert` | kaapi/kaapi_hashmap.c:188-217 | Maps the key to zeroed words, at the head of its own bucket, and leaves the other keys and buckets alone; a block leaves both lists exactly when it is reused. |
| `HashTable.HashMap.FindInsert` | kaapi/kaapi_hashmap.c:221-227 | Keeps a present key and its words, and otherwise inserts it. |
| `HashTable.HashMap.AllocateBloc` | kaapi/kaapi_hashmap.c:144-160 | The first free block, or a new one when none is free; no live entry is in it. |
| `HashTable.HashMap.Clear` | kaapi/kaapi_hashmap.c:99-113 | Empties the map and frees the allocated blocks; the assertion that none was free holds. |
| `HashTable.HashMap.Store` | kaapi/kaapi_hashmap.h:87 | Storing into the entry of a key changes the value of that key only. |
| `HashTable.HashMap.LiveNotFree` | kaapi/kaapi_hashmap.c:144-160 | No live entry lies in a free block, and one of the two block lists is empty. |
| `HashTable.HashMap.Destroy` | kaapi/kaapi_hashmap.c:131-139 | Releases exactly the blocks that are on a list. |
| `HashTable.Leak` | kaapi/kaapi_hashmap.c:99-160 | Insert, clear, insert, destroy: the one block that was allocated is not released. |
| `HashChains.InsertKeeps` | kaapi/kaapi_hashmap.c:206-208 | An entry in front of its bucket shadows older ones of its key and no other key. |
| `TileViews.ViewsPartition` | blas/xkblas.c:487-492 | Every element lies in exactly one view, at exactly one place, where it has the address it has in the matrix. |
| `TileViews.ViewsApartExact` | blas/xkblas.c:487-492 | The views share no byte if and only if the leading dimension spans a column or there is at most one column. |
| `TileViews.Descriptor.Init` | blas/xkblas.c:458-506 | The table is large enough and holds the address of every tile in its place. |
| `TaskQueue.Queue.Push` | kaapi/kaapi_ld.c:375-412 | Appends a task and counts a push, or is refused exactly when the ring is full. This and the following operations keep push_count - pop_count equal to the number of tasks less the holes that were counted as pops. |
| `TaskQueue.Queue.OwnerPush` | kaapi/kaapi_ld.c:417-454 | Prepends a task and counts a push, is refused exactly when the ring is full, and stores at index -1 exactly when the head is zero. |
| `TaskQueue.RunDown` | kaapi/kaapi_ld.c:417-454 | From a new queue, half a ring of owner pushes is followed by one at index -1. |
| `TaskQueue.Queue.Pop` | kaapi/kaapi_ld.c:459-485 | Takes the first slot, which may be a hole, and counts only tasks. |
| `TaskQueue.Queue.FindStealable` | kaapi/kaapi_ld.c:523-546 | The scan finds the last task that is not unstealable, or says that there is none. |
| `TaskQueue.Queue.Steal` | kaapi/kaapi_ld.c:507-547 | Takes that task and leaves a hole, or shrinks the tail when it was the last; the task returned stays in the queue if and only if only unstealable tasks are left and one is first. |
| `TaskQueue.Queue.FindGood` | kaapi/kaapi_ld.c:610-627 | The scan finds the first task with a positive score, or the head. |
| `TaskQueue.Queue.PopWithAffinity` | kaapi/kaapi_ld.c:581-645 | Takes that slot, and counts a pop whatever it held. |
| `TaskQueue.Queue.FindBest` | kaapi/kaapi_ld.c:676-697 | The scan finds the best lexicographic score among the slots it looked at, the one nearest to the tail on ties; it stops before the head only when sixteen of those slots improved on all behind them. |
| `TaskQueue.Queue.StealWithAffinity` | kaapi/kaapi_ld.c:650-718 | Takes that task, which may be stolen, or nothing when no task has a score; with fewer than sixteen scored tasks it is the best of the whole queue. |
| `TaskQueue.BetterIsAbove` | kaapi/kaapi_ld.c:490-503 | Scores are compared in dictionary order. |
| `TaskQueue.NothingLost` | kaapi/kaapi_ld.c:375-718 | Over every run, the tasks that were in the queue or were pushed are those still there plus those handed out, with multiplicity. |
| `TaskQueue.RingSet` | kaapi/kaapi_ld.c:395-399 | Writing one position of the ring changes that slot only, while fewer positions than entries are in use. |
| `TaskQueue.CountersExact` | kaapi/kaapi_ld.c:375-718 | Over every run from an empty queue, push_count - pop_count is the number of tasks if and only if no pop with affinity took a hole; without such pops it always is. |
| `TaskQueue.CountersDrift` | kaapi/kaapi_ld.c:629-632 | Two pushes and three pops with affinity, the last of a hole, leave an empty queue and counters that differ by -1. |
| `TaskQueue.Queue.Size` | kaapi/kaapi_impl.h:596-604 | The reported size is the number of tasks if and only if no hole was counted or no task is left. |

## Left out

- Rounding: scalars are exact, so the results hold for exact arithmetic.
- Foreign kernels: a tile task has the contract of the BLAS routine it calls; cuBLAS, hipBLAS and CPU BLAS are not modelled.
- Tile sizes: all operands of a call share one square tile size, as the routines set it up; the calls that name `Bmb` where `Bnb` is meant agree under it.
- Cblas.LdTest: what the memory of a matrix with a negative leading dimension would be is not modelled.
- Descriptor lookup, automatic tile sizes, and the Fortran and synchronous entry points.
- Ztrsm.ZtrsmAsync: with alpha = 0 and several tiles in the two right-hand transposed solves, nothing is claimed for an operand with a zero on the diagonal, for which the BLAS promise nothing either. The quotient -1/alpha is any scalar there; infinities and NaN are not modelled.
- The scheduler and the dependency tracker: a schedule is any order that keeps conflicting tasks in program order; data flow guards the acquires of the coherence protocol.
- Hardware memory ordering: atomic operations and locked regions are single steps. Source selection and the commit of a fetch are one step; `SelectionStable` says what happens in between.
- Copies are always asynchronous; allocation failure inside an acquire, explicit invalidation, and prefetches to devices (switched off by KAAPI_USE_PREFETCH) are not modelled.
- Eviction: in the coherence protocol one replica at a time, its test and its effect one step.
- The WAITEXIT flag and the termination functions of the barrier, the work done while waiting, and sleeping.
- DeviceHeap.Device.Alloc: whether a chunk is split is decided in exact integers, where the source compares with the double 0.5*size; performance counters and the first-fit variant are not modelled.
- Registration.Register: the buffer does not wrap around the address space; registering a second buffer, which ends the process, and the work of the driver are not modelled.
- SoftwareCache.Cache.AllocateEntry: the blocks that new entries are cut from are not modelled.
- SoftwareCache.Cache.EvictFromList: which tiles may be evicted is fixed during a pass and may change between passes. Not modelled is the release of a replica's metadata, which puts its entry on the free list without unlinking it.
- SoftwareCache.Cache.Check: device pointers are not part of the cache model, so its test for null pointers is left out.
- HashTable.HashMap.Insert: the hash function is any function, and the address of a new block is a parameter; malloc always succeeds.
- TileViews.Descriptor.Init: tile sizes are positive; the one allocation that holds handles and locality domains is two arrays, and the list of handles is left out.
- WriteBacks.WriteBackExact: the caches of all devices are coupled to the directory of one tile; the other tiles move through the lists freely.
- TaskQueue.Queue.Push: a null task is excluded, because the code dereferences it. Positions are unbounded, so the wrap-around of the 32-bit head and tail is not modelled; waiting and callbacks are left to the caller.
- TaskQueue.Queue.OwnerPush: a store outside the ring is reported and not carried out.
- The routines zher2k, zsyr2k, zhemm, zherk, gemmt, zpotrf, zgetrf, zswap and zcopyscale would add members of the same kinds.
