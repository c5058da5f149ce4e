# Verified models of a GPU-sharing testbed

The repository holds a GPU arbiter driven by heartbeats, the inter-process experiments around
it, and the host code of OpenCL samples.  This project models its algorithms in Dafny and
proves what they are for.  `dafny verify dfyconfig.toml` checks everything.

* `BitonicSort.dfy`, `Bits.dfy`: the in-place bitonic network.  Every stage is a sequence of
  parallel passes over disjoint pairs; the network sorts.
* `Bresenham.dfy`, `RayFan.dfy`, `GodRays.dfy`, `RayColours.dfy`, `GodRaysReference.dfy`,
  `Raster.dfy`: the fan of integer rays from the centre of an image to its border, each beside
  a shadow of the ray before it.  Every pixel is stored to exactly once, with the colour that
  its one ray has accumulated.
* `ArbiterSpec.dfy`, `PriorityMonitor.dfy`, `PriorityAgeing.dfy`, `BackwardsClock.dfy`,
  `RateMonitor.dfy`, `Requests.dfy`, `PriorityRequests.dfy`, `RateRequests.dfy`: the GPU
  arbiter.  One abstract arbiter, safe under any choice among waiting clients, and two servers
  that refine it: one scans for the least ageing priority, one keeps a queue ordered by rate.
  Whom they serve is stated over the messages alone.  A run is a sequence
  of handled messages, because both threads of a server hold one mutex while they handle one.
  Times are whole seconds, and priorities are what a double holds after a division by zero.
  Safety needs no clock; the ageing of priorities and the order of service need requests in
  order of time.
* `MatrixInverse.dfy`: Gauss-Jordan elimination with scaled pivoting, over exact reals.
* `BoundedBuffer.dfy`: producers and consumers around three semaphores, as a state machine in
  which every semaphore operation and every slot access is a step.
* `Heartbeat.dfy`: the sliding average and the ring of records of the heartbeat library, with
  its Python caller.
* `MedianFilter.dfy`: the 3x3 median network on words of four byte lanes.
* `DrawLine.dfy`: the clipped line drawn over motion vectors.
* `SplitRatio.dfy`: the ratio by which an image is split between two devices.
* `CommandLine.dfy`, `CmdParser.dfy`, `UsageText.dfy`: the command-line parser, on values and
  as objects, and its help text.
* `Doubles.dfy`, `Numbers.dfy`: numbers that a division by zero makes infinite or no number;
  minimum and maximum.

Code that updates objects, arrays or fields in place is a method here, proved against a
specification on values; what the specification means is stated by lemmas.

Where the code does something other than it seems to intend:

* `inverse` in nvMatrix.h returns early for singular matrices, with comments to that effect, but
  not for all of them: it divides by zero exactly when no row is zero and the first three
  columns are dependent (`MatrixInverse.Inverse`, `MatrixInverse.OnesDivideByZero`).  For an
  invertible matrix it never does.  The two early returns hand back a freshly constructed
  matrix, which is the identity.
* The priority server takes the time of a request from the heartbeat record of the client that
  asks, in whole seconds.  When that time lies one second before another client's last one, that
  client's priority is divided by zero and the scan passes over it; a finish that finds only
  such clients waiting uses a pointer that was never set (`BackwardsClock.ClockRunsBack`).  With
  rates from 0 up to the sentinel that is the only way to get there
  (`BackwardsClock.FindsNobodyIff`).
* `anchors_heartbeat` does not wrap `buffer_index` after the first beat, so the second beat
  into a log of one record is written outside it; every other beat, and every beat of a longer
  log, is in range (`Heartbeat.RingStep`, `Heartbeat.Heart.Beat`).
* The global heart rate of a record divides the number of beats, not of intervals, by the time
  since the first beat: unless that time is zero, it is one beat in it off the rate of the mean
  interval (`Heartbeat.GlobalRate`, `Heartbeat.TwoBeats`).
* A switch written with text attached, as in `-hx`, is marked as parsed although it takes no
  token, and parsing fails unless some option takes the token (`CommandLine.MarkedWithoutToken`,
  `CommandLine.NobodyTakes`, `CmdParser.ParseStuckHelp`).
* The help text is wrapped one character short: the space that ends a line is looked for among
  the first `width` characters only, so a line of several words that fits exactly is broken,
  unless it ends the text (`UsageText.LineOfExactWidth`; how full lines are is in `UsageText.Wrap`).

## Model

| member | source | states |
|---|---|---|
| `BitonicSort.ExecuteSortReference` | opencl/intel/BitonicSort/BitonicSort.cpp:51-113 | for every power-of-two length and either flag: the array ends up a permutation of its input, sorted in the requested direction as unsigned words |
| `BitonicSort.SortedInNumbers` | opencl/intel/BitonicSort/BitonicSort.cpp:79-109 | sorted as unsigned words, in terms of the signed ones: those without a sign come first, in either group by value |
| `BitonicSort.SortTwo` | opencl/intel/BitonicSort/BitonicSort.cpp:51-113 | ascending, 1 comes before -1 |
| `BitonicSort.CountStages` | opencl/intel/BitonicSort/BitonicSort.cpp:59-62 | the array size is 2 to the number of halvings counted |
| `BitonicSort.RunStage` | opencl/intel/BitonicSort/BitonicSort.cpp:64-111 | one stage turns sorted blocks of 2^stage, alternating in direction, into sorted blocks of 2^(stage+1), and permutes the array |
| `BitonicSort.RunPass` | opencl/intel/BitonicSort/BitonicSort.cpp:68-110 | the passes at distance 2^shift take the array to what one parallel pass over all pairs leaves |
| `BitonicSort.RunItems` | opencl/intel/BitonicSort/BitonicSort.cpp:74-110 | the sequential loop over g_id has the effect of the parallel pass |
| `BitonicSort.RunWorkItem` | opencl/intel/BitonicSort/BitonicSort.cpp:76-109 | work item g extends the pass by its own pair and touches nothing else |
| `BitonicSort.ComparePair` | opencl/intel/BitonicSort/BitonicSort.cpp:79-109 | the two words end up in the wanted order under the unsigned comparison; the multiset of words stays |
| `BitonicSort.WorkItemIndices` | opencl/intel/BitonicSort/BitonicSort.cpp:70-77 | the shifts and the mask give the two indices of pair g, both inside the array |
| `BitonicSort.LeftIdIsLeft` | opencl/intel/BitonicSort/BitonicSort.cpp:70-76 | the shift-and-mask formula equals the place of g among the left indices, for every g and shift |
| `BitonicSort.DirectionBit` | opencl/intel/BitonicSort/BitonicSort.cpp:66-98 | the bit tested by dirMask is the parity of the block of 2^(stage+1) that the pair lies in |
| `BitonicSort.PairShape` | opencl/intel/BitonicSort/BitonicSort.cpp:76-77 | pair numbers and (block, offset) positions correspond: g maps to a left index, and the left index back to g |
| `BitonicSort.PartnerShape` | opencl/intel/BitonicSort/BitonicSort.cpp:76-77 | every index is one of the two indices of exactly its own pair, so pairs are disjoint and cover the array |
| `BitonicSort.RunPairsAt` | opencl/intel/BitonicSort/BitonicSort.cpp:74-110 | under any duplicate-free order of work items an index changes only when its own pair runs, and then to the value the pass defines |
| `BitonicSort.AnyOrderIsOnePass` | opencl/intel/BitonicSort/BitonicSort.cpp:74-110 | any enumeration of all work items of a pass gives the same array: the loop simulates one parallel kernel step |
| `BitonicSort.HalfCleanerOnPairs` | opencl/intel/BitonicSort/BitonicSort.cpp:79-109 | the half-cleaner on four pairs: neither the minima nor the maxima alternate if none of the six quadruples did |
| `BitonicSort.PassKeepsBitonic` | opencl/intel/BitonicSort/BitonicSort.cpp:68-110 | a pass at distance d turns bitonic blocks of 2d into bitonic blocks of d |
| `BitonicSort.PassOrdersHalves` | opencl/intel/BitonicSort/BitonicSort.cpp:68-110 | the same pass separates the two halves of every block, and keeps blocks separated before |
| `BitonicSort.SortedPairsAreBitonic` | opencl/intel/BitonicSort/BitonicSort.cpp:64-66 | neighbouring sorted blocks of opposite directions form one bitonic block, the input of the next stage |
| `BitonicSort.StageEnd` | opencl/intel/BitonicSort/BitonicSort.cpp:64-111 | after the last pass of a stage the blocks of 2^(stage+1) are sorted, in alternating directions |
| `Bresenham.WalkError` | opencl/intel/GodRays/GodRaysNative.cpp:581-603 | the error term is a function of the position and stays within one step of zero |
| `Bresenham.WalkIsNearest` | opencl/intel/GodRays/GodRaysNative.cpp:581-603 | after k steps the minor offset is the nearest integer to the ideal line, halves rounded up |
| `Bresenham.WalkClosedForm` | opencl/intel/GodRays/GodRaysNative.cpp:581-603 | the minor offset after k steps is floor((2*minor*k + major) / (2*major)) |
| `Bresenham.RayStaysInBox` | opencl/intel/GodRays/GodRaysNative.cpp:581-603 | after k steps a ray is at Chebyshev distance exactly k, inside the box of its end points, and on its destination at the end |
| `Bresenham.RayTurns` | opencl/intel/GodRays/GodRaysNative.cpp:584-603 | walking commutes with a quarter turn, across the switch of the longer axis |
| `RayFan.HitIffInCone` | opencl/intel/GodRays/GodRaysNative.cpp:581-603 | a ray reaches pixel (k, q) of ring k exactly when it is long enough and its direction lies in the cone that rounds to q |
| `RayFan.ConeMonotone` | opencl/intel/GodRays/GodRaysNative.cpp:86-202 | counterclockwise along the border, rays enter and leave the cone of a pixel once |
| `RayFan.AtMostOneStart` | opencl/intel/GodRays/GodRaysNative.cpp:86-202 | the rays through a pixel form a single run: only one of them has a predecessor that misses the pixel |
| `RayFan.SomeRayStarts` | opencl/intel/GodRays/GodRaysNative.cpp:86-202 | every pixel of the image has such a first ray |
| `GodRays.RaysEnumerateBorder` | opencl/intel/GodRays/GodRaysNative.cpp:86-202 | ray numbers below 2(w+h-2) enumerate the border pixels, each once; larger numbers are no rays |
| `GodRays.ShadowIsPreviousRay` | opencl/intel/GodRays/GodRaysNative.cpp:104-192 | the shadow destination of a ray is the destination of the cyclically previous ray |
| `GodRays.ArcIsBorder` | opencl/intel/GodRays/GodRaysNative.cpp:86-202 | seen from any side, the ray numbers run along one arc of the border, the last corner wrapping round to ray 0 |
| `GodRays.WritersStartRuns` | opencl/intel/GodRays/GodRaysNative.cpp:563-694 | off the centre, a ray writes a pixel exactly when it is the first of the run of rays through it |
| `GodRays.SomeRayWrites` | opencl/intel/GodRays/GodRaysNative.cpp:563-694 | every pixel, the centre included, is written by some ray |
| `GodRays.AtMostOneRayWrites` | opencl/intel/GodRays/GodRaysNative.cpp:563-694 | no two rays write the same pixel, so the order of rays does not matter |
| `GodRays.EveryPixelWrittenOnce` | opencl/intel/GodRays/GodRaysNative.cpp:52-696 | over all rays, and any larger range of ray numbers, every pixel is written exactly once |
| `RayColours.WrittenOnTheWay` | opencl/intel/GodRays/GodRaysNative.cpp:581-694 | a ray writes a pixel at the one step at which it is there, so the colour it stores depends on ray and pixel only |
| `RayColours.SummedIsAverage` | opencl/intel/GodRays/GodRaysNative.cpp:550-655 | after k steps the sum lies between 1 - d^(k+1) times the darkest and times the brightest exposed pixel so far, for a decay d from 0 to 1 |
| `RayColours.SummedIsWeighted` | opencl/intel/GodRays/GodRaysNative.cpp:550-655 | the running sum after k steps is the sum over j up to k of (1 - d) d^(k-j) times the exposed pixel of step j |
| `RayColours.ShadeShows` | opencl/intel/GodRays/GodRaysNative.cpp:237-694 | what a ray stores at a pixel, in numbers and positions: three times that sum along the straight line from (w/2, h/2) to the ray's own destination, with the decay of that line, plus the pixel when blending, or the exposed pixel at the centre |
| `RayColours.WritesInNumbers` | opencl/intel/GodRays/GodRaysNative.cpp:563-694 | which rays write a pixel, over positions: the centre the ray to (0, 0), any other pixel the rays whose line passes it while the line of the shadow does not |
| `GodRaysReference.StepRay` | opencl/intel/GodRays/GodRaysNative.cpp:584-603 | one loop step takes position and error term from step k to step k + 1 of the walk |
| `GodRaysReference.SignAndSize` | opencl/intel/GodRays/GodRaysNative.cpp:206-233 | step sign and absolute size of a displacement |
| `GodRaysReference.WriteTest` | opencl/intel/GodRays/GodRaysNative.cpp:658-658 | the test on the two positions and the step count holds exactly when the previous ray does not visit the pixel at that step |
| `GodRaysReference.PaintCentre` | opencl/intel/GodRays/GodRaysNative.cpp:541-578 | the centre is stored to by ray 0 and by no other ray, with the exposed pixel added to the weighted sum; the sum has its first sample |
| `GodRaysReference.PaintStep` | opencl/intel/GodRays/GodRaysNative.cpp:634-694 | one step takes the ray's pixel into the sum, and stores the sum's colour to it exactly when the write rule says so |
| `GodRaysReference.WalkRay` | opencl/intel/GodRays/GodRaysNative.cpp:532-695 | ray and shadow walked side by side: each pixel that the ray writes gets one store, of the ray's colour at that step; no other pixel changes |
| `GodRaysReference.PaintRay` | opencl/intel/GodRays/GodRaysNative.cpp:52-696 | one ray number: destinations, walks, sum and stores together, or no store when the number is no ray |
| `GodRaysReference.EvaluateRay` | opencl/intel/GodRays/GodRaysNative.cpp:34-697 | a bunch of ray numbers stores to every pixel once for each of its writers among them, in their order |
| `GodRaysReference.StoresAreWriters` | opencl/intel/GodRays/GodRaysNative.cpp:52-696 | the number of stores that a range of rays makes to a pixel is the number of its writers among them |
| `GodRaysReference.ColourOfWriter` | opencl/intel/GodRays/GodRaysNative.cpp:563-694 | with one writer, its colour is what the pixel shows, whatever the range |
| `GodRaysReference.ExecuteGodRaysReference` | opencl/intel/GodRays/GodRays.cpp:113-120 | with at least 2(w+h-2)/15+1 work items every pixel is stored to exactly once, and shows the weighted sum along the straight line of the one ray that writes it, with that line's decay |
| `GodRaysReference.PaintEven` | opencl/intel/GodRays/GodRays.cpp:113-120 | an image of three by three pixels of 0.9, diagonal decay 1/4, straight decay 1/2: the corners show 2.8125, the sides 2.25 |
| `ArbiterSpec.StepKeepsSafe` | monitor/monitor.cpp:97-256 | every message the client protocol allows keeps: at most one holder, and `busy` is its pid; a free GPU means nobody waits; registered clients are exactly those with a phase; each grant number counts the client's own grants; a client has asked once more than it was served while it waits; requests = grants + waiting; grants = finishes + holder |
| `ArbiterSpec.GrantIsExclusive` | monitor/monitor.cpp:139-212 | a grant goes to a client that asked and waits for it, while nobody else holds the GPU, and carries the number of its earlier grants |
| `ArbiterSpec.RunIsSafe` | monitor/monitor.cpp:80-259 | every state of every run, under any choice among waiting clients, is safe |
| `PriorityMonitor.ScanPicksLeast` | monitor/monitor.cpp:171-188 | the scan finds a client of least priority, below the sentinel, the smallest pid among equals |
| `PriorityMonitor.ScanFindsIff` | monitor/monitor.cpp:171-188 | it finds none exactly when every priority is infinite, no number, or at or above the sentinel |
| `PriorityMonitor.FinishFindsWinner` | monitor/monitor.cpp:170-189 | a finish finds a winner exactly when some waiting client has a priority below the sentinel, and then the least |
| `PriorityMonitor.HandledIffRunnable` | monitor/monitor.cpp:113-212 | every message is handled, whatever its time and rate, except a finish that finds all waiting clients' priorities at or above the sentinel, infinite or no number: exactly then the code uses the unset pointer |
| `PriorityMonitor.RequestKeepsConsistent` | monitor/monitor.cpp:113-137 | a request at any time and with any rate keeps the queue ascending and its clients registered |
| `PriorityMonitor.HandleRefines` | monitor/monitor.cpp:97-256 | every runnable message from a client that does not wait for the GPU, whoever holds it, at any time and with any rate, and a finish from any client, is a step of the abstract arbiter and keeps the server consistent |
| `PriorityMonitor.EveryRunIsSafe` | monitor/monitor.cpp:80-259 | after any run from the start that does not use the unset pointer, with any times and rates: one grant at a time, a free GPU only when nobody waits, the holder not queued, requests = grants + queue length |
| `PriorityMonitor.RequestsAreConserved` | monitor/monitor.cpp:139-227 | requests accepted = grants sent + queue length; a free GPU means an empty queue; the holder is not queued |
| `PriorityMonitor.FinishGrantsLeast` | monitor/monitor.cpp:170-207 | a finish grants the GPU to the waiting client of least priority and the erase by pid removes exactly that client |
| `PriorityMonitor.MeasuredIsRunnable` | monitor/monitor.cpp:113-212 | if every request leaves waiting priorities below the sentinel, every later message is handled |
| `PriorityMonitor.MeasuredRunIsAdmissible` | monitor/monitor.cpp:80-259 | so runs of such requests never use the unset pointer |
| `PriorityRequests.LastRequestIsStored` | monitor/monitor.cpp:114-137 | after any run from the start the registered clients, and the rate and time stored of each that has asked, are those of the messages: its last request since it was registered |
| `PriorityRequests.FinishGrantsLeastAsked` | monitor/monitor.cpp:113-207 | after any run, with any times and rates, a finish grants the waiting client whose last request has the least rate / (1 + T - ts), T the time of the last request of all, compared as doubles, with ties to the smaller pid |
| `PriorityRequests.FinishInOrder` | monitor/monitor.cpp:113-207 | the same in real numbers when the times of the requests are in order |
| `PriorityRequests.ServeThree` | monitor/monitor.cpp:80-259 | a run: 1 asks with rate 1, is served, asks again with rate 30 while 3 holds the GPU; 2 asks with rate 5 and is served next |
| `BackwardsClock.ClockRunsBack` | monitor/monitor.cpp:116-189 | for every rate: a protocol-following run with a request one second before another client's last time ends in a finish whose scan finds nobody |
| `BackwardsClock.ExactlyOneSecondBack` | monitor/monitor.cpp:124-124 | that request is handled; it leaves the other client with an infinite priority, or no number for rate 0 |
| `BackwardsClock.PassedOverIff` | monitor/monitor.cpp:116-181 | after an update the scan passes over a client, with a rate from 0 up to the sentinel, exactly when it last asked one second after the time of the update |
| `BackwardsClock.FindsNobodyIff` | monitor/monitor.cpp:113-189 | after any run from the start with such rates and any times: a finish with waiting clients finds nobody exactly when every one of them last asked one second after the time of the last handled request |
| `BackwardsClock.MeasuredIff` | monitor/monitor.cpp:116-131 | a request leaves all waiting priorities below the sentinel exactly when no waiting client last asked one second after it |
| `PriorityAgeing.DominatedPriority` | monitor/monitor.cpp:124-124 | who asks with a lower rate or asked earlier never has the larger priority at a later update |
| `PriorityAgeing.PriorityFalls` | monitor/monitor.cpp:124-124 | a waiting client's priority never rises and never exceeds its rate |
| `PriorityAgeing.OrderPersists` | monitor/monitor.cpp:124-124 | a client with no larger rate and no larger priority keeps both through every later update |
| `PriorityAgeing.OrderPersistsIff` | monitor/monitor.cpp:124-124 | one client stays at or below another for ever exactly when it is so now and its rate is not the larger |
| `PriorityAgeing.PunctualIsMeasured` | monitor/monitor.cpp:113-137 | times that do not run backwards and rates below the sentinel leave priorities below the sentinel |
| `PriorityAgeing.PunctualRunIsAdmissible` | monitor/monitor.cpp:80-259 | runs of such requests are handled to the end, with every stored priority the discounted rate |
| `PriorityAgeing.EarlierWaitsAhead` | monitor/monitor.cpp:178-187 | who asked earlier with no larger rate waits ahead; an exact tie goes to the smaller pid |
| `PriorityAgeing.NoOvertakingStep` | monitor/monitor.cpp:113-212 | while a waits ahead of b, no message grants b, and a goes on waiting ahead until it is granted |
| `PriorityAgeing.NoOvertaking` | monitor/monitor.cpp:80-259 | over any run with times in order, b is not granted the GPU before a client that waits ahead of it |
| `PriorityMonitor.Monitor.ReceiveAtGate` | monitor/monitor.cpp:303-380 | the gate thread registers a pid on its first message and removes it on the next |
| `PriorityMonitor.Monitor.Receive` | monitor/monitor.cpp:97-256 | the fields after a message, and the grant sent, are what the specification of the handler says |
| `PriorityMonitor.Monitor.UpdatePriorities` | monitor/monitor.cpp:118-131 | every registered client gets its discounted rate, whatever the order of the map |
| `PriorityMonitor.Monitor.RecordRequest` | monitor/monitor.cpp:114-137 | the refresh of all priorities, then the asking client's own rate and time |
| `PriorityMonitor.Monitor.Send` | monitor/monitor.cpp:143-150 | the grant carries the client's count, which goes up by one, and the client becomes the holder |
| `PriorityMonitor.Monitor.PickWinner` | monitor/monitor.cpp:171-188 | the loop finds what the recursive scan finds |
| `RateMonitor.InsertShape` | monitor/monitor_hb_from_cli.cpp:150-150 | the multimap puts an entry behind all entries with rates up to its own and before all others |
| `RateMonitor.HandleRefines` | monitor/monitor_hb_from_cli.cpp:89-187 | every message of the protocol is a step of the abstract arbiter and keeps the server consistent |
| `RateMonitor.StepRefines` | monitor/monitor_hb_from_cli.cpp:89-187 | every message from a client that does not wait for the GPU, and a finish from any client, is a step of the abstract arbiter |
| `RateMonitor.FinishGrantsLeastRate` | monitor/monitor_hb_from_cli.cpp:131-141 | a finish grants the client of least rate and removes that client alone |
| `RateMonitor.EveryRunIsSafe` | monitor/monitor_hb_from_cli.cpp:72-190 | after any run from the start: one grant at a time, a free GPU only when nobody waits, requests = grants + queue length |
| `RateMonitor.RequestsAreConserved` | monitor/monitor_hb_from_cli.cpp:101-158 | requests accepted = grants sent + queue length; the holder is not queued |
| `RateMonitor.NewcomerStandsBehind` | monitor/monitor_hb_from_cli.cpp:150-150 | who asks stands behind every waiting client with a rate up to its own |
| `RateMonitor.NoOvertaking` | monitor/monitor_hb_from_cli.cpp:72-190 | over any run, who stands behind is not granted the GPU before who stands in front |
| `RateRequests.LastRequestIsQueued` | monitor/monitor_hb_from_cli.cpp:150-150 | after any run from the start every queue entry carries the rate of its client's last request in the messages |
| `RateRequests.NewcomerFitsIn` | monitor/monitor_hb_from_cli.cpp:150-150 | who asks goes behind all waiting clients that asked with rates up to its own, and before all others |
| `RateRequests.FinishGrantsLeastAsked` | monitor/monitor_hb_from_cli.cpp:131-141 | after any run a finish grants the waiting client that asked with the least rate, and among equals the one that asked first |
| `RateMonitor.ServeThree` | monitor/monitor_hb_from_cli.cpp:72-190 | a run: 2 asks with rate 5, then 3 with rate 3; 3 is served first |
| `RateMonitor.Monitor.Receive` | monitor/monitor_hb_from_cli.cpp:89-187 | the fields after a message, and the grant sent, are what the specification of the handler says |
| `RateMonitor.Monitor.ReceiveAtGate` | monitor/monitor_hb_from_cli.cpp:219-308 | registration on the first message of a pid, removal on the next |
| `MatrixInverse.Inverse` | opencl/openclcuda/shared/inc/nvMatrix.h:183-274 | an inverse is returned exactly for invertible matrices and is a two-sided inverse; the division by zero happens exactly when no row is zero and the first three columns are dependent; the early returns give the identity |
| `MatrixInverse.InverseInNumbers` | opencl/openclcuda/shared/inc/nvMatrix.h:183-274 | an inverse, entry by entry: rows times columns, in both orders, are 1 on the diagonal and 0 elsewhere |
| `MatrixInverse.IdentityInNumbers` | opencl/openclcuda/shared/inc/nvMatrix.h:183-274 | what the early returns hand back is 1 on the diagonal and 0 elsewhere |
| `MatrixInverse.ScaleOf` | opencl/openclcuda/shared/inc/nvMatrix.h:202-204 | the scale of a row is the largest magnitude among its first four entries |
| `MatrixInverse.Scales` | opencl/openclcuda/shared/inc/nvMatrix.h:200-206 | the scan stops exactly at a row of zeros; otherwise all scales are positive |
| `MatrixInverse.SelectPivot` | opencl/openclcuda/shared/inc/nvMatrix.h:211-220 | the pivot is the first row at or below i with the largest scaled magnitude in column i |
| `MatrixInverse.PivotRow` | opencl/openclcuda/shared/inc/nvMatrix.h:211-230 | row and scale swapped together: the chosen pivot leads its column, and R m = L survives |
| `MatrixInverse.EliminateRow` | opencl/openclcuda/shared/inc/nvMatrix.h:235-238 | one inner loop is one row operation, although it starts right of the pivot, and clears the column entry |
| `MatrixInverse.EliminateColumn` | opencl/openclcuda/shared/inc/nvMatrix.h:234-239 | column i is cleared below the diagonal, rows up to i unchanged, R m = L and both kernels kept |
| `MatrixInverse.Eliminate` | opencl/openclcuda/shared/inc/nvMatrix.h:208-240 | forward elimination ends upper triangular with three pivots, or at a division by zero that proves the first columns dependent |
| `MatrixInverse.BackColumn` | opencl/openclcuda/shared/inc/nvMatrix.h:261-265 | column i is cleared above the diagonal without disturbing columns to its right |
| `MatrixInverse.BackSubstitute` | opencl/openclcuda/shared/inc/nvMatrix.h:259-266 | the left half ends diagonal with nonzero entries, R m = L kept |
| `MatrixInverse.Divide` | opencl/openclcuda/shared/inc/nvMatrix.h:268-270 | each row of the result is the right half divided by the diagonal entry |
| `MatrixInverse.MinusKeepsReduced` | opencl/openclcuda/shared/inc/nvMatrix.h:235-238 | a row operation keeps R m = L, the kernel of the left half and the trivial kernel of the right half |
| `MatrixInverse.SwapKeepsReduced` | opencl/openclcuda/shared/inc/nvMatrix.h:222-224 | so does a swap of row pointers |
| `MatrixInverse.NullVector` | opencl/openclcuda/shared/inc/nvMatrix.h:208-241 | a column without a pivot yields a nonzero vector that the matrix maps to zero |
| `MatrixInverse.TriangularKernel` | opencl/openclcuda/shared/inc/nvMatrix.h:241-241 | with three pivots only the last pivot decides whether the matrix is singular |
| `MatrixInverse.SolvedIsInverse` | opencl/openclcuda/shared/inc/nvMatrix.h:268-270 | the divided right half is a left and a right inverse of the input |
| `MatrixInverse.LeftInverseIsRight` | opencl/openclcuda/shared/inc/nvMatrix.h:268-270 | a left inverse without kernel is a right inverse |
| `MatrixInverse.ZeroRowSingular` | opencl/openclcuda/shared/inc/nvMatrix.h:205-205 | the first early return is right: a row of zeros rules out an inverse |
| `MatrixInverse.LastPivotSingular` | opencl/openclcuda/shared/inc/nvMatrix.h:241-241 | so is the second: a vanishing last pivot rules out an inverse |
| `MatrixInverse.EqualColumnsDependent` | opencl/openclcuda/shared/inc/nvMatrix.h:235-235 | two equal first columns make the first three columns dependent, the condition of the division by zero |
| `MatrixInverse.OnesDivideByZero` | opencl/openclcuda/shared/inc/nvMatrix.h:235-235 | the all-ones matrix has no zero row and dependent columns |
| `MatrixInverse.InverseOfOnes` | opencl/openclcuda/shared/inc/nvMatrix.h:183-274 | on it the code divides by zero instead of returning early |
| `BoundedBuffer.GetBufferSize` | ipc/shm/example/sysv/shared.c:6-15 | the count of 0xFF slots, which is k for a buffer of k items followed by clear slots |
| `BoundedBuffer.ClearBuffer` | ipc/shm/example/sysv/shared.c:53-56 | all slots clear |
| `BoundedBuffer.InsertItem` | ipc/shm/example/sysv/producer.c:3-6 | the first clear slot is written, nothing else |
| `BoundedBuffer.RemoveItem` | ipc/shm/example/sysv/consumer.c:7-12 | the last taken slot is read and cleared, nothing else |
| `BoundedBuffer.MarksFilled` | ipc/shm/example/sysv/shared.c:9-13 | a scan of n slots counts min(n, k) items |
| `BoundedBuffer.StepKeepsInv` | ipc/shm/example/sysv/producer.c:27-37 | every step of every process keeps the invariant: prefix of items, semaphore accounts, what each process remembers |
| `BoundedBuffer.StoreKeepsInv` | ipc/shm/example/sysv/producer.c:33-33 | a store lands in the first clear slot, which exists |
| `BoundedBuffer.ClearKeepsInv` | ipc/shm/example/sysv/consumer.c:24-24 | a removal clears the last taken slot, which exists |
| `BoundedBuffer.MutualExclusion` | ipc/shm/example/sysv/producer.c:32-35 | no two processes are between the two mutex operations |
| `BoundedBuffer.RoomToStore` | ipc/shm/example/sysv/producer.c:31-33 | a producer past downEmpty has room |
| `BoundedBuffer.ItemToTake` | ipc/shm/example/sysv/consumer.c:22-24 | a consumer past downFull has an item |
| `BoundedBuffer.InitialInv` | ipc/shm/example/sysv/shared.c:70-82 | the initial semaphore values and the cleared buffer establish the invariant for any number of processes |
| `BoundedBuffer.EveryRunIsSafe` | ipc/shm/example/sysv/consumer.c:21-30 | under every interleaving: exclusion, items stored minus removed fill a prefix of the buffer, no access outside it |
| `BoundedBuffer.EveryRunEnds` | ipc/shm/example/sysv/producer.c:26-37 | no schedule runs for ever: at most 1729 steps for each producer |
| `BoundedBuffer.StuckMeansFinished` | ipc/shm/example/sysv/producer.c:26-37 | with a consumer present, a run that can go no further has stored 11 items for each producer and removed them all, and the five slots are clear |
| `Heartbeat.IntervalsTelescope` | opencl/heartbeat_python_lib.c:315-318 | the intervals of a stretch sum to the difference of its end times |
| `Heartbeat.MeanTelescopes` | opencl/heartbeat_python_lib.c:312-339 | the mean of the last min(i, W) intervals is (t_i - t_(i-min(i,W))) / min(i,W) |
| `Heartbeat.FillingStep` | opencl/heartbeat_python_lib.c:312-325 | while the window fills the code averages all intervals so far, across the switch to the steady state |
| `Heartbeat.AverageStep` | opencl/heartbeat_python_lib.c:326-330 | dropping the oldest and adding the newest share gives the mean of the last W intervals |
| `Heartbeat.SteadyStep` | opencl/heartbeat_python_lib.c:326-339 | the cyclic slots hold the last W intervals before and after a steady step |
| `Heartbeat.NewestStep` | opencl/heartbeat_python_lib.c:279-284 | writing a record overwrites only the one that falls out of the last D |
| `Heartbeat.RingStep` | opencl/heartbeat_python_lib.c:285-296 | buffer_index = b mod D and read_index = (b-1) mod D after b beats, out of range exactly for the second beat into a log of one record |
| `Heartbeat.RingOfOne` | opencl/heartbeat_python_lib.c:264-296 | in a log of one record all beats but the second go to slot 0 |
| `Heartbeat.GlobalRate` | opencl/heartbeat_python_lib.c:273-275 | for any times: the global rate differs from the rate of the mean of all intervals by one beat in the whole time, unless that time is zero and both are infinite; the first beat has rate 0 |
| `Heartbeat.TwoBeats` | opencl/heartbeat_python_lib.c:273-277 | two beats a second apart: instant rate 1, global rate 2 |
| `Heartbeat.RecordInNumbers` | opencl/heartbeat_python_lib.c:271-284 | the record of beat i over the beat times alone: window rate 10^9 n / (t_i - t_(i-n)) with n = min(i, W), instant rate 10^9 / (t_i - t_(i-1)), global rate 10^9 (i+1) / (t_i - t_0), infinite over no time |
| `Heartbeat.Heart.HbWindowAverage` | opencl/heartbeat_python_lib.c:305-343 | the returned rate is that of the mean of the last min(k, W) intervals, and the window is kept |
| `Heartbeat.Heart.FillWindow` | opencl/heartbeat_python_lib.c:312-325 | the warm-up branch |
| `Heartbeat.Heart.SlideWindow` | opencl/heartbeat_python_lib.c:326-339 | the steady-state branch |
| `Heartbeat.Heart.Beat` | opencl/heartbeat_python_lib.c:244-302 | for any times, equal and falling ones included: every slot of the log holds the record of the latest beat of its residue; the write is out of bounds exactly for the second beat into a log of one record, and later beats are in range again |
| `Heartbeat.Heart.Measure` | opencl/heartbeat_python_lib.c:271-284 | the record of a beat: window, global and instant rate as functions of the beat times, infinite where the time between is zero |
| `Heartbeat.Heart.Append` | opencl/heartbeat_python_lib.c:279-296 | the record goes to its slot unless the index is out of range; both indices and the counter move on |
| `Heartbeat.Caller.HeartbeatBeat` | opencl/heartbeat.py:39-42 | the ring index kept by the Python side equals read_index after every beat |
| `Heartbeat.Caller.GetNewest` | opencl/heartbeat.py:43-51 | the getters read number, tag, time and the three rates of the newest beat, over the beat times alone; after the first beat, and after the second into a log of one record, the record of the first, without rates |
| `Heartbeat.ThreeBeats` | opencl/heartbeat.py:39-51 | beats at 0, 1 and 3 seconds: window rate 2/3, instant rate 1/2, global rate 1 |
| `MedianFilter.ExchangeLane` | opencl/intel/MedianFilter/MedianFilter.cpp:58-86 | c4min and c4max on two words are a compare-and-exchange in every byte lane |
| `MedianFilter.FourOfSorts` | opencl/intel/MedianFilter/MedianFilter.cpp:116-144 | the first six exchanges order four words in every lane and keep their values |
| `MedianFilter.FiveOfSorts` | opencl/intel/MedianFilter/MedianFilter.cpp:146-189 | the next nine order the other five |
| `MedianFilter.SelectedCounts` | opencl/intel/MedianFilter/MedianFilter.cpp:191-206 | the selection reaches a threshold exactly when five of the nine values do |
| `MedianFilter.NetworkIsMedian` | opencl/intel/MedianFilter/MedianFilter.cpp:116-206 | in every lane the result is the fifth smallest of the nine bytes |
| `MedianFilter.MedianIsUnique` | opencl/intel/MedianFilter/MedianFilter.cpp:206-206 | only one byte is |
| `MedianFilter.SortFour` | opencl/intel/MedianFilter/MedianFilter.cpp:116-144 | the in-place exchanges on the first four words |
| `MedianFilter.SortFive` | opencl/intel/MedianFilter/MedianFilter.cpp:146-189 | the in-place exchanges on the last five words |
| `MedianFilter.Select` | opencl/intel/MedianFilter/MedianFilter.cpp:191-206 | the final selection |
| `MedianFilter.Median` | opencl/intel/MedianFilter/MedianFilter.cpp:101-206 | the network on an aperture returns its median word |
| `MedianFilter.ClearBytes` | opencl/intel/MedianFilter/MedianFilter.cpp:90-90 | the memset clears as many bytes as the buffer has words, and no others |
| `MedianFilter.ClearedByte` | opencl/intel/MedianFilter/MedianFilter.cpp:90-90 | byte 4 i + l of the buffer is cleared exactly when it lies before the end given to the memset |
| `MedianFilter.ApertureHoldsNeighbours` | opencl/intel/MedianFilter/MedianFilter.cpp:95-117 | the nine places of the aperture hold the words i rows and j columns away, for i and j from -1 to 1, each once |
| `MedianFilter.FilterRow` | opencl/intel/MedianFilter/MedianFilter.cpp:93-207 | every pixel of a row becomes the median of its nine neighbours in memory; other words stay |
| `MedianFilter.ExecuteMedianFilterReference` | opencl/intel/MedianFilter/MedianFilter.cpp:88-209 | all pixels between the padding rows are filtered, with all reads inside the padded buffer; of the padding rows, the bytes in the first quarter of the buffer are cleared and the others stay |
| `MedianFilter.FilterRowOfThree` | opencl/intel/MedianFilter/MedianFilter.cpp:88-209 | the numbers 1 to 9 around a pixel in some order: it becomes 5 |
| `DrawLine.TraceError` | opencl/intel/MotionEstimation/main.cpp:308-329 | the error says how far the walk is from the ideal line and stays in [0, nDeltaX) |
| `DrawLine.DrawnFromEitherEnd` | opencl/intel/MotionEstimation/main.cpp:295-310 | the line is the same pixel sequence when drawn from its other end |
| `DrawLine.LineEnds` | opencl/intel/MotionEstimation/main.cpp:317-317 | max(|dx|,|dy|)+1 pixels, from one end point to the other |
| `DrawLine.LineIsConnected` | opencl/intel/MotionEstimation/main.cpp:317-330 | consecutive pixels touch |
| `DrawLine.LineIsNear` | opencl/intel/MotionEstimation/main.cpp:310-330 | every pixel is at most half a pixel from the ideal line, for any slope and direction |
| `DrawLine.FlatLineInNumbers` | opencl/intel/MotionEstimation/main.cpp:295-330 | pixel k of a line that is not steep, from its left end: k to the right and k |dy| / |dx| towards the other end, rounded to the nearest, halves down |
| `DrawLine.SteepLineInNumbers` | opencl/intel/MotionEstimation/main.cpp:295-330 | the same for a steep line, from its end with the smaller y |
| `DrawLine.ShortLine` | opencl/intel/MotionEstimation/main.cpp:291-331 | the pixels of the line from (0, 0) to (3, 1) |
| `DrawLine.DrawPixel` | opencl/intel/MotionEstimation/main.cpp:281-289 | one pixel changes if it is inside the frame, none otherwise |
| `DrawLine.Orient` | opencl/intel/MotionEstimation/main.cpp:295-307 | the swaps bring the line into first-octant form |
| `DrawLine.DrawStep` | opencl/intel/MotionEstimation/main.cpp:317-330 | one round draws the pixel of step k and moves to step k + 1 |
| `DrawLine.DrawLine` | opencl/intel/MotionEstimation/main.cpp:291-331 | exactly the pixels of the line that lie in the frame change |
| `SplitRatio.RawRatio` | opencl/intel/ToneMappingMultiDevice/ToneMappingMultiDevice.cpp:406-406 | an estimate from positive times and a ratio in (0,1) is in (0,1) |
| `SplitRatio.SumOfBuffer` | opencl/intel/ToneMappingMultiDevice/ToneMappingMultiDevice.cpp:413-418 | the slots in use sum to the last min(k, 10) estimates, whatever the rotation |
| `SplitRatio.MeanIsProper` | opencl/intel/ToneMappingMultiDevice/ToneMappingMultiDevice.cpp:419-419 | the average of estimates stays in (0,1) |
| `SplitRatio.MeanOfLast` | opencl/intel/ToneMappingMultiDevice/ToneMappingMultiDevice.cpp:410-419 | min(k, 10) times the ratio is the sum of the last min(k, 10) estimates |
| `SplitRatio.RawOfProportional` | opencl/intel/ToneMappingMultiDevice/ToneMappingMultiDevice.cpp:406-406 | times proportional to share over speed give the estimate s1/(s1+s2) |
| `SplitRatio.Converges` | opencl/intel/ToneMappingMultiDevice/ToneMappingMultiDevice.cpp:403-434 | with such times from any frame on, the ratio is s1/(s1+s2) once ten such estimates are made; with them from the second frame on, that is from the eleventh call |
| `SplitRatio.SplitHeight` | opencl/intel/ToneMappingMultiDevice/ToneMappingMultiDevice.cpp:430-432 | the heights sum to the total, the first is a multiple of 16 within one block of its share, the second is not empty |
| `SplitRatio.Balancer.Put` | opencl/intel/ToneMappingMultiDevice/ToneMappingMultiDevice.cpp:410-411 | the estimate goes into its slot |
| `SplitRatio.Balancer.Average` | opencl/intel/ToneMappingMultiDevice/ToneMappingMultiDevice.cpp:412-425 | the mean of the last min(k, 10) estimates; the buffer wraps after the tenth |
| `SplitRatio.Balancer.ComputeSplittingRatio` | opencl/intel/ToneMappingMultiDevice/ToneMappingMultiDevice.cpp:403-436 | the new ratio is that mean, stays in (0,1), and is split into heights |
| `SplitRatio.TwoFrames` | opencl/intel/ToneMappingMultiDevice/ToneMappingMultiDevice.cpp:403-436 | from equal times and then times 3 and 1: the ratio is 3/8, and 100 rows are split into 32 and 68 |
| `UsageText.WordsSplit` | opencl/intel/common/cmdparser.cpp:268-276 | breaking a text at a space keeps its words |
| `UsageText.LineEnd` | opencl/intel/common/cmdparser.cpp:248-266 | the next line is not empty, ends at a space or the end, and exceeds the width only as a single word; before more text it stays below the width or is a single word, and would not stay below it with the next word |
| `UsageText.Wrap` | opencl/intel/common/cmdparser.cpp:229-277 | the loop ends; the lines are the layout of the text, with all words in order; a line exceeds the width only as a single word; each line followed by another is as full as a line below the width can be |
| `UsageText.LayoutIsUnique` | opencl/intel/common/cmdparser.cpp:229-277 | a text has one layout only: leading spaces go, a text up to the width is one line, a longer one is cut at the last space before the width, or at the first space when there is none |
| `UsageText.WrapShort` | opencl/intel/common/cmdparser.cpp:248-276 | a text without leading spaces and no longer than the width is one line, itself |
| `UsageText.WrapExample` | opencl/intel/common/cmdparser.cpp:229-277 | at width 5 "ab cd efgh" becomes "ab", "cd", "efgh" |
| `UsageText.TakeLine` | opencl/intel/common/cmdparser.cpp:246-276 | one round cuts off a line at a space and keeps the words |
| `UsageText.LineOfExactWidth` | opencl/intel/common/cmdparser.cpp:248-251 | at width 5 "ab cd efgh" is cut to "ab", although "ab cd" fits |
| `CommandLine.AnswerCauses` | opencl/intel/common/cmdparser.cpp:95-138 | an option that recognizes a token: duplicate exactly when parsed; value missing, not convertible or not allowed exactly when so; otherwise an index |
| `CommandLine.RecognizesIff` | opencl/intel/common/cmdparser.cpp:87-101 | a token is for an option exactly when it begins with - and the short name, or is -- and the long name |
| `CommandLine.AttachedValue` | opencl/intel/common/cmdparser.cpp:131-136 | the text behind - and the short name is the value: the option takes the token and holds that text, or fails because it does not convert or is not allowed |
| `CommandLine.NextValue` | opencl/intel/common/cmdparser.cpp:112-130 | a short name alone or a long name takes the next token as the value, and fails when there is none |
| `CommandLine.SwitchToken` | opencl/intel/common/cmdparser.cpp:112-130 | a switch takes its short name alone or its long name and gets the opposite of its default |
| `CommandLine.MarkedWithoutToken` | opencl/intel/common/cmdparser.cpp:112-137 | an option becomes parsed without taking a token exactly when it is an unparsed switch that recognizes the token with text attached |
| `CommandLine.NobodyTakes` | opencl/intel/common/cmdparser.cpp:342-349 | a token that no option takes ends the run, as a duplicate or as unrecognized |
| `CommandLine.StuckSwitch` | opencl/intel/common/cmdparser.cpp:328-349 | a switch with text attached that no option takes: the run fails with that token unrecognized and the switch is parsed |
| `CommandLine.StuckHelp` | opencl/intel/common/cmdparser.cpp:319-350 | `prog -hx` with the one option -h |
| `CommandLine.PlainHelp` | opencl/intel/common/cmdparser.cpp:319-350 | `prog -h` succeeds |
| `CommandLine.SucceedsIffSplit` | opencl/intel/common/cmdparser.cpp:319-350 | parsing succeeds exactly when the tokens split into segments, each with an acceptable value for the first option that takes its start, and no option recognizes two tokens it is asked about |
| `CommandLine.FailsIffExplained` | opencl/intel/common/cmdparser.cpp:319-350 | parsing fails with an error exactly when, after such segments up to some token, the first option that does not leave that token alone answers with it, or all leave it alone |
| `CommandLine.EveryTokenOwned` | opencl/intel/common/cmdparser.cpp:322-350 | every token belongs to a segment |
| `CommandLine.TokenOwnedOnce` | opencl/intel/common/cmdparser.cpp:322-350 | and to one segment only |
| `CommandLine.OwnersDiffer` | opencl/intel/common/cmdparser.cpp:104-110 | no option owns two segments |
| `CmdParser.CmdOption.ParseValues` | opencl/intel/common/cmdparser.hpp:243-299 | a switch flips its default and takes no token; a valued option takes one token that converts and is allowed, or fails; a text that does not convert leaves the old value, one that is not allowed replaces it |
| `CmdParser.CmdOption.Parse` | opencl/intel/common/cmdparser.cpp:75-142 | the answer is that of the specification; recognizing a token always marks the option as parsed; the value after every outcome |
| `CmdParser.CmdParser.ParseToken` | opencl/intel/common/cmdparser.cpp:328-340 | the options are asked in order up to the first that does not leave the token alone, and exactly those are marked |
| `CmdParser.CmdParser.Parse` | opencl/intel/common/cmdparser.cpp:319-350 | outcome and marks are those of the run on values; on success the tokens are split among different options, each holding its value |
| `CmdParser.ParseStuckHelp` | opencl/intel/common/cmdparser.cpp:319-350 | on `prog -hx` the parser reports token 1 as unrecognized and leaves -h parsed |
| `CmdParser.ParseAttached` | opencl/intel/common/cmdparser.cpp:319-350 | `prog -ofile` leaves "file" in the option -o |
| `CmdParser.ParseNext` | opencl/intel/common/cmdparser.cpp:319-350 | so does `prog -o file` |
| `CmdParser.ParseLong` | opencl/intel/common/cmdparser.cpp:319-350 | and `prog --out file` |

## Left out

- MedianFilter.ExecuteMedianFilterReference: asks for a width above zero, as `main` does.
- Heartbeat.Heart.Beat: a first time of -1, which marks an empty history, and a window of size zero are not modelled, nor what the write outside a log of one record overwrites.
- GodRaysReference.ExecuteGodRaysReference: one colour channel stands for the four, and the decay of a ray, an exponential of its length over its steps, is a function of its displacement. The empty rays in images of width or height 2, whose decay divides by zero, store nothing.
- PriorityAgeing.NoOvertaking: takes handled requests in order of time, with rates from 0 up to the sentinel 9999999, and equal `pri_index` (always 1 in the code).
- PriorityMonitor.Monitor.Receive: the rate of a request is a real number; two beats in the same nanosecond, which make it infinite, are left to the heartbeat model.
- CmdParser.CmdParser.Parse: every option registers once, as its constructor does. An accepted value is kept as text; the conversion `str_to` and the list of alternatives are predicates on texts, and `finishParsing`, which only marks default alternatives, is not modelled.
- UsageText.Wrap: covers the loop over the help text; the header, the indentation and the single-line form are not modelled.
- The ray-cropping branches of `EvaluateRay`: the light is always the centre of the image, so they never run, and the steps omitted at the beginning of a shadow are always zero.
- Loops of one source function are several methods here, one for each nesting level.
- Shifts and masks act on unbounded naturals, and index products do not overflow: the sizes that `main` admits fit 32-bit integers.
- In the matrix code an array entry holds a whole row as a value, so exchanging entries stands for exchanging row pointers.
- Arbiter behaviour outside the client protocol (a finish from a client that holds nothing, a close while queued), failed sends, failing shared-memory calls, and the order in which the two message queues deliver.
- The five slots of the bounded buffer are five integers, while shared.c asks for five bytes of shared memory and relies on the system to round up to a page: "inside the buffer" means inside the five slots.
- Re-initialization of the semaphores when a second process starts: setup is complete before the first step. System V semaphores are counters without ownership or undo.
- The semaphore-guarded ring of ipc/shm/cli.cpp, which repeats the bounded buffer with an index on each side.
- The aligned partition of a buffer among devices (multi.cpp, system.cpp, shared.cpp) and the buffer regions of `PrepareResources`: plain address arithmetic.
- Wall-clock times, sockets, message queues, shared memory, docker, OpenCL and OpenCV calls: times and messages are inputs, grants are outputs.
- The OpenCL kernels; only the host reference implementations are modelled.
- nvQuaternion, nvVector and the other operations of nvMatrix.
- Rounding in rates, priorities, ratios, colours and matrices, which are exact reals.
