# Iterative SAXPY: partition and workers

A Dafny model of the core of `saxpy.c`. The program computes
`Y = Y + a * X` `max_iters` times on vectors of `p` doubles. It splits the
indices among `n_threads` POSIX threads. Each thread, in every round `r`,
adds the sum of its freshly updated elements, divided by `p`, to the shared
slot `Y_avgs[r]`. A semaphore protects that addition.

The model has four modules.

- `Partitioner` (`partitioner.dfy`) models the partition loop of `main`.
  - The loop builds inclusive ranges `[ini, end]` from slot `n_threads - 1`
    down to slot 0.
  - The first `p % n_threads` ranges it builds hold one extra element.
  - The method `Partition` runs the loop with C `int` arithmetic. It uses an
    `int32` newtype, so every intermediate is checked against overflow.
  - The method is proved equal to the reference definition `Ranges`. That
    definition starts the range of each step where the sizes of all earlier
    steps end (`StartOf`, `SizeOf`). `StartClosedForm` gives the closed form.
- `Worker` (`worker.dfy`) models `funcionSaxpy` on a half-open interval
  `Span(lo, hi)`, the indices its inner loop `segundo < end` visits.
  - `Sweep` is the inner loop and `Round` is one round.
  - `Rounds` and `Run` are the outer loop over `primero`.
  - `Advance` and `Contribution` are the reference definitions the lemmas
    compare the worker with.
- `Engine` (`engine.dfy`) models the parallel section.
  - The threads become whole worker runs composed one after another
    (`RunAll`). `RunAllReorder` shows that any order of whole runs of
    disjoint workers gives the same state. `RoundsCommute` shows that a round
    of one worker and a round of another give the same state in either order.
  - `Saxpy` is the program as written: the partition's inclusive ranges are
    handed to the worker's exclusive loop, which visits `[ini, end)`.
  - `SaxpyIntended` is the corrected program, which visits `[ini, end]`.
    See "Findings".
- `Schedule` (`schedule.dfy`) models the interleavings of the threads at
  round level.
  - A schedule lists, step by step, which worker runs its next round
    (`Interleave`). Each worker's rounds keep their own order.
  - `InterleaveMatchesRunAll` shows that every schedule that gives each
    worker all its rounds ends in the state `RunAll` computes.

Doubles are exact `real`s. `X`, `a`, `p` and `max_iters` live in a `Config`
that the workers receive but never return, so they cannot be written. `Y`
and `Y_avgs` live in a `State`.

The code builds inclusive ranges `[ini, end]` from the last slot downward,
and the model follows it.

## Model

| member | source | states |
|---|---|---|
| Partitioner.Partition | saxpy.c:162-185 | The loop's `args` equals the reference partition `Ranges` slot by slot, so `Partitioner.RangesTile` and the other lemmas about `Ranges` hold of it. Every `ini` is in `[0, p]` and every `end` in `[-1, p-1]`. No `int` intermediate overflows. |
| Partitioner.StartClosedForm | saxpy.c:163-184 | The range built at step `t` starts at `t*(p/n) + min(t, p%n)`: `t` whole chunks plus one extra element for each earlier step that still had remainder to hand out. |
| Partitioner.RangeAt | saxpy.c:181-184 | The range in any slot has `0 <= ini <= p` and `-1 <= end < p`. |
| Partitioner.Ranges | saxpy.c:162-169 | There is exactly one range per thread. |
| Partitioner.RangesTile | saxpy.c:181-184 | The inclusive ranges tile `[0, p-1]` from the top slot down, with no gap and no overlap. |
| Partitioner.RangesBalanced | saxpy.c:163-180 | The range built at step `t` holds `p/n + 1` elements if `t < p % n` and `p/n` otherwise. A slot holds the larger size if and only if it is among the highest `p % n` slots. |
| Partitioner.RangesAtMostOneWhenFewElements | saxpy.c:163-180 | With `p <= n_threads`, no range holds more than one element. |
| Partitioner.RangesSizesSum | saxpy.c:163-185 | The sizes `end - ini + 1` of all ranges sum to `p`. |
| Partitioner.RangesOrdered | saxpy.c:169-185 | A range in a higher slot lies entirely below every range in a lower slot. |
| Partitioner.RangesCover | saxpy.c:169-185 | Every index of `[0, p)` lies in some slot's inclusive range. |
| Partitioner.RangesDisjoint | saxpy.c:169-185 | No index lies in the inclusive ranges of two different slots. |
| Partitioner.RangesWhenFewElements | saxpy.c:163-184 | With `p < n_threads`, the lowest `n_threads - p` slots are empty with `ini = p` and `end = ini - 1`. Every other slot holds the single element `ini = end`. |
| Partitioner.TenElementsThreeThreadsRanges | saxpy.c:163-185 | With `p = 10` and 3 threads, slots 0, 1 and 2 hold `[7, 9]`, `[4, 6]` and `[0, 3]`. |
| Partitioner.OneThreadRange | saxpy.c:163-185 | With one thread, the single range is `[0, p-1]`. |
| Worker.Sweep | saxpy.c:62-66 | The inner loop keeps the length of `Y`; what it computes is stated by `Worker.SweepEffect`. |
| Worker.Round | saxpy.c:59-69 | One round keeps `X`, `Y` and `Y_avgs` at their sizes; what it computes is stated by `Worker.RoundEffect`. |
| Worker.Rounds | saxpy.c:59-70 | The outer loop from round `r` on keeps the sizes; what it computes is stated by `Worker.RoundsEffect`. |
| Worker.Run | saxpy.c:51-72 | A whole worker run keeps the sizes; what it computes is stated by `Worker.RunEffect`. |
| Worker.SweepEffect | saxpy.c:62-66 | The inner loop adds `a*X[j]` to every `Y[j]` with `lo <= j < hi` and to no other element. `total` ends up as the sum of the updated values over `[lo, hi)`. |
| Worker.RoundEffect | saxpy.c:59-69 | One round updates the interval once. It adds the sum of the updated interval divided by `p` to `Y_avgs[r]` and changes no other slot. |
| Worker.AdvanceTwice | saxpy.c:59-64 | `k` updates of the interval followed by `m` updates equal `k + m` updates. |
| Worker.ContributionShift | saxpy.c:59-68 | Round `k` counted from the state after one round equals round `k + 1` counted from the start. |
| Worker.RoundsEffect | saxpy.c:59-70 | Rounds `r..max_iters-1` add `(max_iters - r)*a*X[j]` inside the interval. Slot `q` of `Y_avgs` receives the contribution of round `q` for `r <= q < max_iters`, and other slots are unchanged. |
| Worker.RunEffect | saxpy.c:51-72 | A whole worker run sets `Y[j] = Y0[j] + max_iters*a*X[j]` inside `[ini, end)` and leaves `Y` unchanged outside it. Each slot `q < max_iters` of `Y_avgs` gets exactly one contribution, and no other slot changes. |
| Worker.ContributionIsRoundSum | saxpy.c:64-68 | A worker's round-`q` contribution is the sum over its interval of `Y0[j] + (q+1)*a*X[j]`, divided by `p`. |
| Worker.ContributionFrame | saxpy.c:62-68 | A worker's contributions depend only on the elements of `Y` in its own interval. |
| Engine.RunAll | saxpy.c:186-196 | Running the workers one after another keeps the sizes; what it computes is stated by `Engine.RunAllY` and `Engine.RunAllAvgs`. |
| Engine.RunAllY | saxpy.c:186-196 | After all pairwise disjoint workers, an index some worker visits has gained `max_iters*a*X[i]`. Every other index is unchanged. |
| Engine.RunAllAvgs | saxpy.c:186-196 | After all pairwise disjoint workers, `Y_avgs[q]` for `q < max_iters` has received exactly one contribution from each worker. Other slots are unchanged. |
| Engine.TotalContributionFrame | saxpy.c:62-68 | The workers' total contribution depends only on the elements of `Y` they visit. |
| Engine.RunCommutes | saxpy.c:186-196 | Two workers on disjoint intervals give the same `Y` and `Y_avgs` in either order. |
| Engine.RoundsCommute | saxpy.c:59-69 | A round of one worker and a round of another worker on a disjoint interval give the same `Y` and `Y_avgs` in either order, whether they add to the same slot of `Y_avgs` or to different ones. |
| Engine.RunAllMoveToFront | saxpy.c:186-196 | Running any one worker first leaves the final state unchanged. |
| Engine.RunAllReorder | saxpy.c:186-196 | Any rearrangement of pairwise disjoint workers gives the same final state. |
| Engine.AsWrittenSpans | saxpy.c:62 | There is one interval per slot, and the worker of a slot visits exactly the indices `i` with `ini <= i < end`, so it never visits its own `end`. |
| Engine.IntendedSpans | saxpy.c:181-183 | There is one interval per slot, and the corrected worker of a slot visits exactly the indices `i` with `ini <= i <= end`, its whole inclusive range. |
| Engine.PartitionSpansWellFormed | saxpy.c:169-185 | The intervals derived from the partition fit in `[0, p)` and are pairwise disjoint, both as written and corrected. |
| Engine.Saxpy | saxpy.c:162-196 | The parallel section as written keeps the sizes; what it computes is stated by `Engine.SaxpyFinalY` and `Engine.SaxpyAvgs`. |
| Engine.SaxpyIntended | saxpy.c:162-196 | The corrected parallel section keeps the sizes; what it computes is stated by `Engine.SaxpyIntendedFinalY` and `Engine.SaxpyIntendedAvgs`. |
| Engine.SaxpyFinalY | saxpy.c:162-196 | As written, `Y[i]` ends at `Y0[i] + max_iters*a*X[i]`, except when `i` is the inclusive end of a non-empty range. Such an index keeps `Y0[i]`. |
| Engine.SaxpyAvgs | saxpy.c:162-196 | As written, `Y_avgs[q]` for `q < max_iters` receives the sum of the contributions of all the workers' exclusive intervals. |
| Engine.TenElementsThreeThreads | saxpy.c:162-196 | With `p = 10` and 3 threads, indices 3, 6 and 9 keep their initial value. Every other index gains `max_iters*a*X[i]`. |
| Engine.AsWrittenSpansEmptyWhenFewElements | saxpy.c:62 | With `p <= n_threads`, the loop `segundo < end` visits no index of any range. |
| Engine.EmptySpansContributeNothing | saxpy.c:61-68 | Workers that visit nothing add 0 to every slot. |
| Engine.RunAllEmpty | saxpy.c:59-70 | Workers that visit nothing leave `Y` and `Y_avgs` exactly as they were. |
| Engine.SaxpyIdleWhenFewElements | saxpy.c:162-196 | As written, with `p <= n_threads` the whole parallel section changes neither `Y` nor `Y_avgs`. |
| Engine.OneThreadTwoElements | saxpy.c:162-196 | As written, one thread on two elements updates index 0 `max_iters` times. |
| Engine.SaxpyDependsOnThreadCount | saxpy.c:162-196 | As written, `p = 2` with 1 thread and with 2 threads gives different final `Y[0]` whenever `a*X[0] != 0` and `max_iters >= 1`. |
| Engine.IntendedSpansCover | saxpy.c:181-183 | Every index of `[0, p)` is visited by some worker that loops over the inclusive range. |
| Engine.IntendedSpansTile | saxpy.c:169-185 | The inclusive ranges, read from the top slot down, tile `[0, p)` at the step starts. |
| Engine.ExtendPrefix | saxpy.c:64-68 | A worker on `[lo, hi)` extends the fully updated prefix sum over `[0, lo)` to `[0, hi)`, divided by `p`. |
| Engine.TiledContribution | saxpy.c:186-196 | Workers whose intervals tile a prefix together contribute that prefix's fully updated sum divided by `p`. |
| Engine.RunAllCoveringY | saxpy.c:186-196 | Pairwise disjoint workers that together visit every index update all of `Y` `max_iters` times. |
| Engine.SaxpyIntendedFinalY | saxpy.c:162-196 | Corrected, every `Y[i]` ends at `Y0[i] + max_iters*a*X[i]` for any thread count. |
| Engine.SaxpyIntendedAvgs | saxpy.c:162-196 | Corrected, `Y_avgs[q]` for `q < max_iters` receives exactly the mean of `Y` just after round `q`. |
| Engine.SaxpyIntendedThreadCountInvariant | saxpy.c:162-196 | Corrected, the final `Y` and `Y_avgs` do not depend on the thread count, in exact arithmetic. |
| Schedule.Interleave | saxpy.c:186-196 | Running a schedule of rounds keeps the sizes and never gives a worker more than `max_iters` rounds; its result is stated by `Schedule.InterleaveReached` and `Schedule.InterleaveProgress`. |
| Schedule.UpdatesStep | saxpy.c:62-64 | One more round of a worker is one more update of each element of its interval and of no other element. |
| Schedule.UpdatesInOwnInterval | saxpy.c:62-64 | With pairwise disjoint intervals, an element of a worker's interval has received exactly that worker's rounds, whatever the other workers did. |
| Schedule.ContributedStep | saxpy.c:67-69 | Finishing round `r` of a worker adds that round's contribution to `Y_avgs[r]` and nothing to any other slot. |
| Schedule.RoundSumFromReached | saxpy.c:61-68 | In any interleaving, the `total` of a worker's round `r` equals the sum its round `r` has when the worker runs alone from the initial `Y`. |
| Schedule.ReachedStep | saxpy.c:59-69 | The state a set of finished rounds determines is kept when one more round of any worker runs, whatever order led there. |
| Schedule.InterleaveReached | saxpy.c:186-196 | Every schedule ends in the state its final per-worker round counts determine, independent of the order of the rounds. |
| Schedule.InterleaveProgress | saxpy.c:59-70 | A schedule gives each worker as many rounds as it names that worker, up to `max_iters`. |
| Schedule.InterleaveMatchesRunAll | saxpy.c:186-196 | Every schedule that names each worker at least `max_iters` times ends in the same `Y` and `Y_avgs` as the whole worker runs one after another. |

## Left out

- Command-line parsing (`getopt`, `strtol`) is left out. `p`, `n_threads` and `max_iters` are parameters.
- The bound `0 < p <= 2147483647` (saxpy.c:95) becomes a precondition.
- `n_threads > 0` becomes a precondition. The program never checks it. With 0 threads, saxpy.c:163 divides by zero. With a negative count, the size at saxpy.c:162 converts to a huge unsigned value, `chunk = p / n_threads` at saxpy.c:163 is negative, and `while (aux--)` at saxpy.c:169-171 writes `args[aux]` at negative indices.
- Initialisation with `srand`/`rand` is left out. `X`, `Y` and `a` are arbitrary inputs, and `Y_avgs` is an arbitrary starting vector with at least `max_iters` slots.
- Timing (`gettimeofday`), the `DEBUG` printing and the final `printf` are left out. They are output only.
- `malloc` and its failure are left out. Vectors are Dafny sequences of the allocated length.
- `unHilo` is left out. No code calls it.
- Threads and the semaphore are not modelled as such. `Engine` composes whole worker runs one after another, and `Schedule` interleaves whole rounds. Each `Y_avgs[r] += total / p` is a plain addition. Interleavings inside a round are left out: one worker's inner loop running element by element while another worker runs. Within a round, a worker reads and writes only its own part of `Y`, and only the addition into `Y_avgs` is shared. Round-level interleavings are covered by `Schedule.InterleaveMatchesRunAll`.
- IEEE double rounding is left out. With rounding, the order of the additions into `Y_avgs[r]` can change the last bits, so the order-independence results hold in exact arithmetic only.
- Worker.Sweep: its contract states only that `Y` keeps its length. Its effect is stated by `Worker.SweepEffect`.
- Worker.Round: its contract states only validity and sizes. Its effect is stated by `Worker.RoundEffect`.
- Worker.Rounds: its contract states only validity and sizes. Its effect is stated by `Worker.RoundsEffect`.
- Worker.Run: its contract states only validity and sizes. Its effect is stated by `Worker.RunEffect`.
- Engine.RunAll: its contract states only validity and sizes. Its effect is stated by `Engine.RunAllY` and `Engine.RunAllAvgs`.
- Engine.Saxpy: its contract states only validity and sizes. Its effect is stated by `Engine.SaxpyFinalY` and `Engine.SaxpyAvgs`.
- Engine.SaxpyIntended: its contract states only validity and sizes. Its effect is stated by `Engine.SaxpyIntendedFinalY` and `Engine.SaxpyIntendedAvgs`.
- Schedule.Interleave: its contract states only validity, sizes and round bounds. Its effect is stated by `Schedule.InterleaveReached` and `Schedule.InterleaveProgress`.

## Findings

| source | as written | input that shows it | evidently intended | confidence | as-written member | corrected member |
|---|---|---|---|---|---|---|
| saxpy.c:62 | The worker loops `segundo < end`, but `end` is the INCLUSIVE last index of its range (saxpy.c:182). The last index of every non-empty range is never updated or summed. | `p = 10` with 3 threads leaves indices 3, 6 and 9 unchanged. `p = 2` with 2 threads updates nothing. | `segundo <= end`: every index is updated `max_iters` times, `Y_avgs[r]` is the mean of `Y` after round `r`, and the result does not depend on the thread count. | not executed | Engine.TenElementsThreeThreads | Engine.SaxpyIntendedThreadCountInvariant |
