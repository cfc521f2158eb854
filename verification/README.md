# A verified model of the renderer's scheduler, kernels and image writer

This project models the parts of the Mandelbrot renderer whose correctness is not
visible in any one function, and proves what they promise together:

- **The render scheduler** (`sched/`). A host and any number of workers share a task
  counter and, per worker, two atomic cells. `Protocol` makes every atomic load, store,
  exchange and compare-and-swap one step of a transition system, and every float store of
  the user function as well. `Invariant` and `Theorems` prove what holds in every
  interleaving, `Progress` and `Returning` who gets on and when a round can end, and
  `Openings`, `Hangs` and `PastEnd` give runs that really occur and the exact conditions
  for them; `Solo` follows one worker through a whole round.
- **Tiling, the task queue and the pixel buffer** (`sched/rsched_queue.c`,
  `surface/surface.h`). `Tiling` is about the tiles, `TaskQueue` and `Surface` are the
  classes whose fields and arrays the source updates in place.
- **The kernels** (`kernel_modules/mandelbrot/`) over exact reals. `Orbit` has the
  mathematics, `Kernels` the scalar kernel, `Lanes` the lane arithmetic, `NativeKernel`
  and `Avx2Kernels` the three vector kernels. `Frame` and `FrameRuns` put scheduler, tiles,
  kernels and buffer together.
- **The Radiance HDR scanline encoder** (`tools/image_hdr.c`). `Radiance` and `Scanlines`
  give the encoding, and a reader after Greg Ward's Radiance file format description,
  section "Picture File Format"; `HdrWriter` has the writing loops.
- **Benchmark counters and histogram** (`app/benchmark.c`, `tools/hist.c`), in `Stats`
  and `Histogram`.

`Geometry` (tiles and float stores), `Machine` (unsigned arithmetic), `Sequences` and
`Wrappers` are what these parts share.

## Main results

1. `Frame.FrameIsPicture`: whichever threads run which tiles, and however their stores
   interleave, when `rsched_host_yield` returns it has succeeded and every pixel holds the
   kernel's colour of its own coordinates, which `Frame.PixelInFrame` writes out from the
   pixel's column and row to the number stored for it. With workers it needs a slot behind
   the last task, because a pop may claim one index too many.
   `FrameRuns.FrameTouchesOutsideIff` says from the sides, the grains and the number of
   workers exactly when the slot is missing; the default of 1024 x 1024 in 32 x 32 blocks is such a case
   (`TaskQueue.SpareExamples`), and there `Frame.PictureUnlessOutside` covers the rounds in
   which no thread happens to claim that index. For the AVX2 kernels the column loop also
   has to reach the last column; `FrameRuns.LastColumnIsMissed` shows that condition to be
   exact. `FrameRuns.FrameCanHappen` gives a frame for every set-up.
2. `Theorems.ExactlyOnce`, `Theorems.BarrierAtReturn` and `Theorems.EveryTaskOncePerRound`:
   each task is claimed by one thread and finished once per round, and at return every
   worker is parked. They hold although a START can be lost
   (`Openings.StartCanBeDropped` gives the run).
3. `Progress.AdvancesIff`: while tasks are left, every run without spurious failures in
   which the last popper makes enough steps takes one, whatever the other threads do,
   except as long as nothing has been claimed and the host is still sending. In its send
   loop the host can be held up for ever although every thread keeps moving
   (`Openings.SendCanCycle`). `Progress.LiveAdvances` is the same for any thread that is
   still on its way.
4. `Returning.CanReturnIff`: with spurious failures allowed, a round can end if and only if
   it is not hung, that is, unless tasks are left and every thread is parked or has lost a
   CAS. `Returning.RoundCanReturn`: without spurious failures it always can.
   `Hangs.CanHangIff`: with them every number of workers and every non-empty queue can be
   hung for good.
5. `Orbit.EscapeIsPermanent` and `Orbit.CountsAgreeIff`: the vector kernels, which go on
   iterating escaped lanes and count masked turns, and the scalar kernel, which stops,
   count the same exactly when no orbit leaves through the circle |z| = 2 itself.
   `FrameRuns.FramesAgreeIff` says when their frames are the same.
6. `Scanlines.ImageRoundTripIff`, `Radiance.PlaneSize` and `Radiance.PacketsAreCanonical`:
   exactly which images read back, the size bound, and the properties that leave no other
   encoding of a plane than the writer's.
7. `Stats.CallFinishes` and `Stats.CountersGetExact`: a benchmark call finishes after a
   bounded number of its own steps whatever the others do, and then the counters summarise
   the samples exactly.

## How the scheduler is modelled

`Protocol.WorkerDo` is one step of a worker: its control points are those of
`sched/rsched_worker.c:93-131` and `sched/rsched_worker.c:142-210`, and of
`rsched_worker_yield` (`sched/rsched_worker.h:155-173`). `Protocol.HostDo` is one step of
the host in `sched/rsched.c:149-163` and `sched/rsched.c:212-314`. `Protocol.PopLoad` and
`Protocol.PopCas` are `sched/rsched_queue.h:57-75`: a failed CAS overwrites the expected
value, which the loop then increments. `Protocol.HostSend` is
`sched/rsched_worker.h:121-132`, whose expected value is never reset. The CAS is the weak
form of `tools/atomic.h:11-13`, so it may fail at any time; `Progress.Strong` marks the
runs in which it does not. `claims`, `runs` and `total` in the state are history.

## Where code and documentation differ

- The comment at `surface/surface.h:44-50` discards pixels if `x + n >= width`; the code
  writes every pixel that fits and discards the others. The model follows the code.
- The comment at `sched/rsched_worker.h:99-101` says that a pending signal blocks the next
  sender until it is received. The code lets a START replace LOCKED, after which the
  spinning worker's unlock may overwrite it. The model follows the code.
- The last two slots of the histogram are described as holding what does not fit the
  range (`tools/hist.c:115-118`). Values just below `max` also land in the last one when
  the number of bins does not divide the width (`Histogram.ReachesMaxIff`).

## Model

| member | source | states |
|---|---|---|
| Invariant.InvInit | sched/rsched.c:50-78 | A freshly created scheduler with any number of workers satisfies the invariant |
| Invariant.WorkerKeepsOk | sched/rsched_worker.c:93-131 | Whatever the host is doing, a worker's step keeps the relation between its own control point, state cell, signal cell and context copy, and touches no other worker |
| Invariant.SignalInvHost | sched/rsched.c:212-260 | The host's sends and waits keep that relation for every worker, and the host waits only once the queue is used up |
| Invariant.QueueInvWorker | sched/rsched_worker.c:93-131 | A worker's step keeps the claim history right: each index below the counter has one claimant, which holds it or has finished it once |
| Invariant.QueueInvHost | sched/rsched.c:281-304 | The same for the host's steps |
| Invariant.InvDo | sched/rsched_queue.h:57-75 | Every enabled event keeps the whole invariant: counter at most length + 1, expected values at most counter + 1, claims exact |
| Invariant.ReachableInv | sched/rsched.c:262-314 | The invariant holds in every interleaving with any number of workers |
| Theorems.BarrierAtReturn | sched/rsched.c:235-249 | Whenever the host is between calls, every worker is parked in its yield loop with nothing pending and no thread is inside pop or the user function |
| Theorems.BarrierHolds | sched/rsched_worker.h:155-173 | Until the host's next call any number of worker steps change nothing but the parked workers' spinning |
| Theorems.RunningWorkerLosesNoSignal | sched/rsched_worker.c:99-124 | The unconditional stores of NONE in the task loop never discard a signal: the cell holds NONE or the worker's own LOCKED |
| Theorems.StartIsReceivedOrDropped | sched/rsched_worker.h:107-132 | A pending START leaves its cell in two ways only: received by the worker, or overwritten by the spinning worker's unlock |
| Openings.StartCanBeDropped | sched/rsched_worker.h:121-173 | For any positive number of workers there is a run in which a START is lost: the host has moved on, the worker is parked, nothing is pending |
| Theorems.WorkIsExclusive | sched/rsched_queue.h:57-75 | No two threads ever work on the same index, and an index being worked on is claimed by that thread and unfinished |
| Theorems.PopTakesNext | sched/rsched_queue.h:57-75 | A step adds at most one claim, the next index in order, to the thread that made it; so successful pops hand out 0, 1, 2, ... once each, and at most one goes past the length |
| Theorems.ExactlyOnce | sched/rsched.c:278-313 | When rsched_host_yield returns it has succeeded; since the last reset, in however many yields, every index below length was claimed by exactly one thread and its call finished exactly once, and at most index length besides |
| Theorems.EveryTaskOncePerRound | app/benchmark.c:99-105 | k rounds of yield and requeue finish every task exactly k times, with the counter back at zero and nobody inside pop |
| Theorems.RoundPaints | sched/rsched.c:262-314 | Confluence: if the stores of all tiles agree with a goal image and cover it, every interleaving of a round leaves exactly that image |
| Theorems.RoundLeaves | sched/rsched.c:262-314 | A round leaves every pixel alone that no queued tile reaches |
| Progress.LeaderInvDo | sched/rsched_queue.h:57-75 | Without spurious failures, while tasks are left the last popper (the host if there is none) is in the task loop and its expected value equals the counter when it is about to CAS |
| Progress.SoundRun | sched/rsched_queue.h:57-75 | That holds over whole runs, together with the main invariant |
| Progress.LiveAdvances | sched/rsched_queue.h:57-75 | In every run, once a thread that is on its way to the counter has made a stated number of its own steps and none of its own CAS failed spuriously, some thread has taken the next task, whatever the others do and however their CAS fail |
| Progress.AdvancesIff | sched/rsched_worker.h:121-132 | Some number of steps of the last popper is enough in every run without spurious failures, if and only if something has been claimed or the host is past its send loop |
| Openings.SendCanCycle | sched/rsched_worker.h:121-132 | With any positive number of workers and any tasks there is a cycle of the send loop in which every thread moves, no CAS fails spuriously and no task is taken |
| Progress.LiveCanClaim | sched/rsched_queue.h:57-75 | Any thread on its way to the counter claims the next task within a stated number of steps if it runs alone, whatever the other threads hold |
| Progress.LeaderCanClaim | sched/rsched_queue.h:57-75 | In particular such a schedule exists for the last popper (the host if there is none), in the send loop too |
| Progress.LoserSpins | sched/rsched_queue.h:66-72 | A thread that lost a CAS expects one more than the counter, and its retries change nothing until another thread pops |
| Returning.HungForGood | sched/rsched_queue.h:66-72 | A round with tasks left in which every thread is parked or has lost a CAS stays so in every run: no task is taken, no pixel written, and the host does not return |
| Returning.CanReturnIff | sched/rsched.c:262-314 | Spurious failures allowed, some run brings the host back from rsched_host_yield if and only if the round is not hung |
| Returning.RoundCanReturn | sched/rsched.c:262-314 | Without spurious failures, from every state a round can get into, lost STARTs included, some continuation lets rsched_host_yield return success |
| Hangs.SpuriousFailureHangs | sched/rsched_queue.h:66-72 | Once every thread expects one more than the counter, no run changes anything any more |
| Hangs.SpuriousHangIsReachable | tools/atomic.h:11-13 | With any number of workers and any tasks such a state is reachable |
| Hangs.CanHangIff | tools/atomic.h:11-13 | A round can get to where rsched_host_yield cannot return if and only if there is a task |
| PastEnd.PastEndIff | sched/rsched_queue.h:57-75 | A thread can come to work on index length, one past the last task, if and only if there is a worker and a task, whatever the tasks do |
| PastEnd.PastEndStronglyIff | sched/rsched_queue.h:57-75 | With a CAS that never fails spuriously, if and only if there is a worker and there are two tasks |
| PastEnd.StaysInside | sched/rsched_queue.h:74 | Every index a thread works on has a slot if one is left behind the last task, or there is no worker, or no task |
| PastEnd.TouchesOutsideIff | sched/rsched_queue.h:74 | Some run reads behind the slots if and only if there is a worker and a task and no slot behind the last task |
| Solo.StartIsHandled | sched/rsched_worker.c:161-184 | From the receipt of a START a worker alone locks its cell, takes its context, says that it runs, unlocks the cell, loads the counter and claims the next task, one atomic step each |
| Solo.CallRuns | sched/rsched_worker.c:109-118 | A call makes exactly the stores of its slot in order, is finished once, and is followed by the look for a signal |
| Solo.WorkerStops | sched/rsched_worker.c:99-131 | After its last task a worker receives, unlocks, finds the queue used up and clears its cell |
| Solo.WorkerParks | sched/rsched_worker.h:155-173 | Then it says that it waits, and goes on locking and unlocking its cell |
| Solo.WorkerExits | sched/rsched_worker.c:173-210 | Without a user function, or on receiving LOCKED, a worker ends down with its cell unlocked |
| Solo.DownEndsTheCall | sched/rsched.c:212-249 | The host that waits for a worker that is down fails and changes nothing else |
| Solo.YieldWithoutContext | sched/rsched.c:268-276 | Without a user function rsched_host_yield fails at once and changes nothing |
| Tiling.TilesPartition | sched/rsched_queue.c:96-115 | The half-open tiles partition the half-open rectangle: each point in it is in exactly one, every other in none |
| Tiling.TilesWithin | sched/rsched_queue.c:96-115 | Every tile is non-empty and inside the rectangle |
| Tiling.ClosedTilesCover | sched/rsched_queue.c:96-115 | With both ends included the tiles cover the whole surface |
| Tiling.TileCount | sched/rsched_queue.c:96-115 | There are ceil(w/gx) * ceil(h/gy) tiles, with w and h the differences of the bounds |
| Tiling.TileAt | sched/rsched_queue.c:96-115 | The i-th tile of the j-th band is at place j * ceil(w/gx) + i, begins i and j whole grains from the corner, and is a grain wide and high or up to the edge |
| Tiling.ReservationIsExact | sched/rsched.c:316-329 | When grains of at least 2 divide the sides, there are exactly as many tiles as slots are reserved |
| Tiling.ReservedLengthIs | sched/rsched.c:319-321 | The slots reserved are the fewest that cover the 32-bit area with pieces of the 32-bit size of a grain |
| TaskQueue.PushesFitIff | sched/rsched_queue.c:74-87 | Growing by a quarter makes room for any number of pushes exactly when the capacity is at least 4 or they fit already |
| TaskQueue.CapacityIsFirstRoom | sched/rsched_queue.c:74-87 | After any number of pushes the capacity is the first of c, c + c/4, ... with room for all |
| TaskQueue.SpareIff | sched/rsched.c:316-329 | The queue made for a surface has a slot behind its tiles if and only if the number of tiles is none of the capacities it goes through, a condition on sides and grains alone |
| TaskQueue.DividingGrainsLeaveNone | sched/rsched.c:316-329 | Grains of at least 2 that divide the sides leave no slot |
| TaskQueue.SpareExamples | sched/rsched.c:316-329 | 1024 x 1024 in 32 x 32 blocks leave none; 1280 x 720 do, because the queue grows |
| TaskQueue.CreatedTile | sched/rsched.c:316-329 | Slot j * ceil((width-1)/gx) + i holds the tile from (i*gx, j*gy) to the next multiples of the grain or the last pixel |
| TaskQueue.CreatedRest | sched/rsched.c:323-328 | Every slot behind the tiles is (0, 0, 0, 0) |
| TaskQueue.ReservationCanFail | sched/rsched.c:316-329 | 10 x 10 pixels in 8 x 8 tiles reserve 2 slots for 4 tiles, and the queue cannot grow |
| TaskQueue.Queue.constructor | sched/rsched_queue.c:10-16 | An empty queue |
| TaskQueue.Queue.Resize | sched/rsched_queue.c:30-65 | Discarding empties the queue and zeroes it; extending keeps the tasks in order and zeroes the new slots; any other flags change nothing |
| TaskQueue.Queue.Push | sched/rsched_queue.c:68-94 | Appends one task, keeps the others in order and the slots behind them zero; a full queue of capacity c grows to floor(5c/4), which makes room exactly from 4 on; moves at most 7 elements per slot of capacity gained; tells exactly when the source writes behind the array instead |
| TaskQueue.Queue.SplitRow | sched/rsched_queue.c:106-112 | Queues exactly the tiles of one band of rows, with the exact final capacity and the same amortised bound, or tells that they do not fit |
| TaskQueue.Queue.SplitTask | sched/rsched_queue.c:96-115 | Queues exactly the tiles of the rectangle in order, with the exact final capacity and the same amortised bound over all its pushes, or tells that they do not fit |
| TaskQueue.Queue.CreateTasks | sched/rsched.c:316-329 | The array is then exactly the surface's tiles followed by zero slots up to the first capacity with room, and the counter is reset; it fails exactly when the reservation is below 4 and too small |
| TaskQueue.Queue.Requeue | sched/rsched_queue.h:81-85 | Resets the counter and nothing else |
| Surface.Canvas.SetPixels | surface/surface.h:51-83 | Writes in order the pixels of the row that lie inside the surface and changes nothing else |
| Surface.Canvas.SetRow | surface/surface.h:69-80 | Exactly the indices from x up to the right edge get their new values |
| Surface.StoresFromAre | surface/surface.h:69-80 | A row write makes min(n, width - x) stores, each with its own pixel's value at its own index |
| Surface.BlockPaints | kernel_modules/mandelbrot/mdb_native.c:327-387 | Whatever the block, clipping included, each of its stores gives some pixel the colour of that pixel's own coordinates |
| Surface.BlockReaches | kernel_modules/mandelbrot/mdb_avx2.c:91-131 | A block writes a pixel if and only if the pixel is in its rows and within the whole steps from its first column |
| Orbit.OrbitIs | kernel_modules/mandelbrot/mdb_generic.c:51-72 | The orbit starts at c itself, and each iterate is the square of the one before plus c, in coordinates |
| Orbit.StaysBeyond | kernel_modules/mandelbrot/mdb_native.c:355-367 | One turn keeps the squared magnitude at or above K, for every K of at least 4 and at least that of c |
| Orbit.EscapeIsPermanent | kernel_modules/mandelbrot/mdb_native.c:352-377 | Once an iterate has squared magnitude 4 or more, all later ones do, for every c |
| Orbit.MaskedCountIsLeading | kernel_modules/mandelbrot/mdb_native.c:352-377 | The number of turns counted under the mask is the number of leading turns inside |
| Orbit.EarlyBreakIsHarmless | kernel_modules/mandelbrot/mdb_native.c:369-375 | Leaving the loop once a point is out does not change its count |
| Orbit.ScalarCountIsFirst | kernel_modules/mandelbrot/mdb_generic.c:56-76 | The scalar loop stops at the first turn beyond 4, or at bailout |
| Orbit.CountsAgreeIff | kernel_modules/mandelbrot/mdb_generic.c:56-76 | Masked and scalar counts are equal if and only if the orbit does not leave through squared magnitude exactly 4 within bailout |
| Orbit.ShadesAgreeIff | kernel_modules/mandelbrot/mdb_generic.c:78-81 | The colours are equal if and only if the orbit does not leave that way, or its very first turn lands on the circle and it stays on or within it up to bailout, where counts 0 and bailout are both drawn as 0 |
| Orbit.KernelsDisagree | kernel_modules/mandelbrot/mdb_generic.c:74-75 | At c = 1 the vector kernels count 0 and the scalar one 1 |
| FrameRuns.PicturesAgreeIff | kernel_modules/mandelbrot/mdb_generic.c:39-85 | Scalar and vector kernels draw the same picture if and only if each pixel's orbit meets the condition of equal colours |
| FrameRuns.FramesAgreeIff | sched/rsched.c:262-314 | A frame of the scalar kernel and one of a vector kernel, in any two interleavings, leave the same buffer if and only if that holds |
| Kernels.RowsMirror | kernel_modules/mandelbrot/mdb_generic.c:41-44 | Rows y and height - y lie symmetrically about the vertical shift, so the middle row lies on it |
| Kernels.ColumnsMirror | kernel_modules/mandelbrot/mdb_generic.c:48-51 | Columns x and width - x lie symmetrically about the horizontal shift plus (aspect - 1) * scale / 2, so only a square surface is centred |
| Kernels.PixelsAreSquare | kernel_modules/mandelbrot/mdb_kernel_common.c:176-182 | With the reciprocals and the aspect ratio of the surface neighbouring columns and neighbouring rows are equally far apart, scale / height |
| Kernels.ScalarStep | kernel_modules/mandelbrot/mdb_generic.c:58-72 | One turn is z * z + c and its squared magnitude |
| Kernels.ScalarProbe | kernel_modules/mandelbrot/mdb_generic.c:53-76 | The loop returns the scalar count of the pixel's point |
| Kernels.ScalarPixel | kernel_modules/mandelbrot/mdb_generic.c:48-81 | One pixel's colour from its coordinates |
| Kernels.GenericLine | kernel_modules/mandelbrot/mdb_generic.c:41-84 | A row of the tile, both ends included |
| Kernels.GenericProcessBlock | kernel_modules/mandelbrot/mdb_generic.c:39-85 | The buffer afterwards is the buffer before with exactly the tile's pixels painted |
| Lanes.TurnCounts | kernel_modules/mandelbrot/mdb_native.c:369-373 | A turn that goes on bumps exactly the lanes still inside, so each lane keeps the masked count of its own point |
| Lanes.AllOutIsFinal | kernel_modules/mandelbrot/mdb_native.c:370-375 | When all eight lanes are out the counts are those of the full loop |
| NativeKernel.StepAll | kernel_modules/mandelbrot/mdb_native.c:355-363 | The in-place vector operations take every lane to its next iterate |
| NativeKernel.CountInside | kernel_modules/mandelbrot/mdb_native.c:365-375 | Bumps the lanes inside, or reports that all are out and changes nothing |
| NativeKernel.ProbeAll | kernel_modules/mandelbrot/mdb_native.c:349-377 | Each lane ends with the masked count of its own point, whatever the other seven do and whenever the loop is left |
| NativeKernel.ShadeGroup | kernel_modules/mandelbrot/mdb_native.c:339-383 | The colours of eight neighbouring pixels, each of its own coordinates |
| NativeKernel.NativeLine | kernel_modules/mandelbrot/mdb_native.c:330-386 | A row in groups of eight, the last of which may stick out of the tile |
| NativeKernel.NativeProcessBlock | kernel_modules/mandelbrot/mdb_native.c:327-387 | The buffer afterwards is the buffer before with exactly the block's groups painted |
| Avx2Kernels.PointProbe | kernel_modules/mandelbrot/mdb_avx2.c:20-71 | The plain probe returns each lane's masked count |
| Avx2Kernels.FusedIsPlain | kernel_modules/mandelbrot/mdb_avx2_fma.c:62-75 | The fused forms of the step are z * z + c |
| Avx2Kernels.FusedPointProbe | kernel_modules/mandelbrot/mdb_avx2_fma.c:42-100 | The fused probe, which steps only while a lane is inside, returns the same counts |
| Avx2Kernels.ShadeLanes | kernel_modules/mandelbrot/mdb_avx2_fma.c:23-40 | Counts at bailout become 0, the others a fraction of it |
| Avx2Kernels.Avx2Line | kernel_modules/mandelbrot/mdb_avx2.c:101-130 | A row in groups of eight, the tile's right end left out |
| Avx2Kernels.Avx2ProcessBlock | kernel_modules/mandelbrot/mdb_avx2.c:73-132 | The buffer afterwards is the buffer before with exactly the block's groups painted, for the plain and the fused kernel |
| Frame.ProcessBlock | kernel/mdb_kernel.c:229-233 | Run alone, each kernel makes exactly the stores that the scheduler's steps interleave |
| Frame.CreatedIsQueued | sched/rsched.c:316-329 | What CreateTasks leaves is the queue the frame theorems ask for |
| Frame.FrameAgrees | kernel_modules/mandelbrot/mdb_native.c:327-387 | No store of any queued tile, nor of the zero slot behind them, disagrees with the picture |
| Frame.FrameCovers | sched/rsched_queue.c:96-115 | Every pixel is written by some queued tile, though the AVX2 loops leave out the right ends of their tiles |
| Frame.FrameIsPicture | sched/rsched.c:262-329 | End to end: every interleaving of a round with any number of workers leaves every pixel with the kernel's colour of its own coordinates |
| Frame.PixelInFrame | kernel_modules/mandelbrot/mdb_generic.c:41-81 | The same for one pixel, written out: at index y * width + x stands the number of leading iterates within the circle over the bailout, or 0 if none leaves, for c = ((x / width * aspect - 1/2) * scale + shift_x, (y / height - 1/2) * scale + shift_y) |
| Frame.PictureUnlessOutside | sched/rsched.c:262-329 | Without a slot behind the last task, every round in which no thread claims an index behind the slots does so too |
| FrameRuns.FrameStaysInside | sched/rsched_queue.h:74 | At every point of a frame each index a thread works on has a slot |
| FrameRuns.FrameTouchesOutsideIff | sched/rsched.c:316-329 | Over the queue made for a surface some run reads behind the array if and only if there is a worker, the surface is at least 2 x 2, and its number of tiles is one of the capacities the queue goes through |
| FrameRuns.FrameCanHappen | sched/rsched.c:262-329 | For every number of workers, kernel, view, surface, grain and initial buffer, and every queue with room for what may be claimed, there is a frame from its start to the host's return |
| FrameRuns.CreatedFits | sched/rsched.c:316-329 | The slots made for a surface are such a queue exactly when one is to spare |
| Frame.LastColumnStays | kernel_modules/mandelbrot/mdb_avx2.c:101-130 | Where the last tiles are a multiple of eight wide, a round of an AVX2 kernel leaves the surface's last column untouched |
| FrameRuns.LastColumnIsMissed | kernel_modules/mandelbrot/mdb_avx2.c:101-130 | For every such surface there is a frame, and it leaves that column as it was |
| FrameRuns.Surface1025 | kernel_modules/mandelbrot/mdb_avx2.c:101-130 | 1025 x 1025 pixels in 32 x 32 blocks are such a surface |
| Frame.MultiplesOfEight | kernel_modules/mandelbrot/mdb_avx2.c:101-130 | For widths and grains that are multiples of eight this never happens |
| Frame.EveryColumnOnce | kernel_modules/mandelbrot/mdb_avx2.c:101-130 | For them the loops that leave the right ends out take every column of a band of tiles exactly once |
| Radiance.FindRun | tools/image_hdr.c:518-528 | The first place where three equal bytes begin, or the end, with none before it |
| Radiance.RunEnd | tools/image_hdr.c:541-543 | The end of the maximal stretch of equal bytes |
| Radiance.Dump | tools/image_hdr.c:529-537 | The literals stand for exactly the bytes up to the run, in packets of 1 to 128, one count byte per started 128 |
| Radiance.Runs | tools/image_hdr.c:544-552 | The run packets stand for exactly the run, in packets of 1 to 127, two bytes per started 127 |
| Radiance.Packets | tools/image_hdr.c:515-554 | What the writer emits is a sequence of legal packets that stand for the plane's bytes, within the size bound, with runs exactly where three or more equal bytes are |
| Radiance.PlaneRoundTrip | tools/image_hdr.c:511-555 | Reading an encoded plane followed by anything returns its bytes and leaves what follows |
| Radiance.PlaneSize | tools/image_hdr.c:511-555 | At most width + ceil(width / 128) bytes |
| Radiance.RunsAreTheBlocks | tools/image_hdr.c:518-553 | A byte is written as part of a run if and only if it lies in a block of three or more equal bytes |
| Radiance.PacketsAreFull | tools/image_hdr.c:529-552 | Of two literal packets in a row the first has 128 bytes, and of two run packets of the same byte the first stands for 127 |
| Radiance.PacketsAreCanonical | tools/image_hdr.c:511-555 | These properties leave one encoding: any legal packets for the plane with runs exactly at the blocks and full packets encode to the same bytes as the writer's |
| Radiance.ReadLiteral | tools/image_hdr.c:439-447 | A literal is its count and its bytes, and reads back in front of anything |
| Radiance.ReadRepeat | tools/image_hdr.c:430-437 | A run is its count plus 128 and its byte, and reads back in front of anything |
| Scanlines.RunLengthForm | tools/image_hdr.c:452-556 | Widths of 8 to 32767 are written as 2, 2, the width's high and low byte, and the encoded planes of reds, greens, blues and exponents |
| Scanlines.FlatForm | tools/image_hdr.c:460-481 | Any other width is written with exactly four bytes per pixel, in order |
| Scanlines.RunLengthRoundTrip | tools/image_hdr.c:482-556 | For widths of 8 to 32767, reading an encoded scanline followed by anything returns its pixels and leaves what follows |
| Scanlines.ScanlineSize | tools/image_hdr.c:482-556 | Widths of 8 to 32767 take at most 4 + 4 (width + ceil(width / 128)) bytes |
| Scanlines.FlatRoundTripIff | tools/image_hdr.c:460-481 | A flat scanline reads back if and only if none of its pixels has the mantissas 1, 1, 1 that the format reserves for repeats |
| Scanlines.ImageRoundTripIff | tools/image_hdr.c:578-580 | Any number of concatenated scanlines of one width reads back, whatever follows them, if and only if the width is 8 to 32767 or no pixel has the mantissas 1, 1, 1 |
| Scanlines.ImageRoundTrip | tools/image_hdr.c:449-557 | So every image of normalised pixels reads back |
| HdrWriter.WriteRunData | tools/image_hdr.c:430-437 | Appends the count plus 128 and the byte |
| HdrWriter.WriteDumpData | tools/image_hdr.c:439-447 | Appends the count and that many bytes |
| HdrWriter.FirstRun | tools/image_hdr.c:518-528 | The search loop finds the first run |
| HdrWriter.WriteDump | tools/image_hdr.c:529-537 | The literal loop appends exactly the literal packets |
| HdrWriter.WriteRuns | tools/image_hdr.c:544-552 | The run loop appends exactly the run packets |
| HdrWriter.AfterRun | tools/image_hdr.c:541-543 | The scan behind a run ends at its end |
| HdrWriter.WriteTurn | tools/image_hdr.c:516-554 | One turn advances, and what it wrote followed by the encoding of the rest is the encoding from where it began |
| HdrWriter.WritePlane | tools/image_hdr.c:513-554 | Appends exactly the encoded plane |
| HdrWriter.FillScratch | tools/image_hdr.c:486-506 | The scratch buffer then holds the four planes one after the other |
| HdrWriter.WriteScanline | tools/image_hdr.c:449-557 | Appends exactly the encoded scanline, flat or run-length |
| HdrWriter.WriteImage | tools/image_hdr.c:578-580 | Appends exactly the encoded scanlines in order, with one scratch buffer for all |
| Stats.MoverOk | app/benchmark.c:30-46 | Whatever a call does next, the minimum only falls, the maximum only rises, and its own sample lies within them once it is past each loop |
| Stats.RunKeepsInv | app/benchmark.c:30-49 | Every interleaving keeps: each extreme is its initial value or a sample of a call past its loop, and the sums are those of the calls past their additions, modulo 2^64 |
| Stats.CountersAreExact | app/benchmark.c:30-49 | Once every call that began has finished, minimum and maximum are the true ones of exactly their samples, and total and count their sum and number modulo 2^64, however often an exchange failed |
| Stats.AllSamplesCounted | app/benchmark.c:77-80 | Started from UINT64_MAX, 0, 0, 0, finished calls summarise all samples |
| Stats.CallFinishes | app/benchmark.c:32-49 | No call waits for another: in every run from any state a call that makes 6 + 2n steps without a spurious failure, among n calls, is finished, whatever the others do |
| Stats.CountersGetExact | app/benchmark.c:30-49 | So every run in which each call makes that many steps ends with the counters summarising all samples |
| Stats.AloneInSix | app/benchmark.c:32-49 | Left alone a call is over in six steps, from every state |
| Stats.CanGetExact | app/benchmark.c:30-49 | Every run can be continued until the counters summarise all samples |
| Histogram.SlotIsUnique | tools/hist.c:69-119 | Over contiguous, possibly empty bins no value has two bins, and a value without one lies below the first bound or at or above the last |
| Histogram.BoundFits | tools/hist.c:45-55 | With min <= max no bin bound wraps round or passes max |
| Histogram.BinBoundsAre | tools/hist.c:31-60 | For any min and max, bin i ends at min + (max - min) / size * (i + 1) in 64-bit arithmetic and begins where the one before ends, the first at min |
| Histogram.SlotIs | tools/hist.c:81-119 | With min <= max and w = (max - min) / size a value is counted in bin i if and only if min + i * w <= value < min + (i + 1) * w, behind the bins if and only if it is below min, and in the last slot if and only if it is at least min + size * w |
| Histogram.ReachesMaxIff | tools/hist.c:45-60 | No value below max is put with the values above if and only if the number of bins divides the width |
| Histogram.TallyCountsHits | tools/hist.c:121-128 | After any sequence of adds each slot has grown by exactly the values that belong to it, modulo 2^64 |
| Histogram.TallyKeepsTotal | tools/hist.c:121-128 | The counts of all slots together grow by the number of adds, modulo 2^64 |
| Histogram.Hist.constructor | tools/hist.c:23-62 | Zero counts, the linear bins, contiguous when min <= max, and behind them the empty ranges at min and at max |
| Histogram.Hist.Search | tools/hist.c:88-113 | The search loop finds the slot that a linear scan finds |
| Histogram.Hist.BSearch | tools/hist.c:81-119 | The result is that slot, and there is none exactly when there are no bins or the slot does not fit an int |
| Histogram.Hist.Add | tools/hist.c:121-128 | Counts the value in its slot and changes nothing else; without a search result it counts nothing |

## Left out

- Frame.FrameIsPicture: asks for a slot behind the queue when there are workers; FrameRuns.FrameTouchesOutsideIff says exactly when the source provides none, and Frame.PictureUnlessOutside covers the rounds that do not need it.
- TaskQueue.Queue.Push: where the source writes behind the array the result says so and the model stops; a queue's capacity is not wrapped at 2^32.
- Histogram.Hist.BSearch: where the source would read behind the bins, or return a negative slot, there is no result.
- Histogram.Hist.constructor: asks for at most 2^32 - 3 bins, because the source's size + 2 wraps for more.
- Progress.LiveAdvances: excludes spurious failures of the thread's own CAS and the host's send loop, with which it is false (Hangs.SpuriousHangIsReachable, Openings.SendCanCycle).
- `rsched_queue_pop` has no sequential method, because its retry loop only matters between threads; its steps are those of `Protocol`.
- A call for a slot outside the queue's array is a call with no stores in `Protocol`; the source would read behind the array.
- The kernels' and the writer's nested loops are one method per loop here, and the eight lanes of a `vec8` are an array, not a union of floats and ints.
- The AVX2 registers are values; the source never updates them through memory.
- Counts and coordinates are unbounded where the source converts them to float or int32.
- IEEE rounding and NaN: the kernels are over exact reals.
- A bailout of 0, for which the source divides by zero.
- `stbiw__linear_to_rgbe`: pixels come in as RGBE; Scanlines.Normalised states what it produces.
- The header text and the refusal of empty images in `stbi_write_hdr_core`.
- Log-scale bin bounds, which need exp and log: any contiguous bounds will do for the search and the counts.
- Weak memory ordering: atomic operations are sequentially consistent steps, and the spinlock-protected copy of the context is one step.
- Shutdown, QUIT and INT, thread creation and affinity: operating system calls.
- `mdb_native_vec.c` (repeats `mdb_native.c`) and `mdb_asm_kernel.asm` (maps columns differently).
- OpenGL display, kernel loading, logging, profiling, timers and argument parsing.
