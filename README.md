# HPCure tumour-volume app: a verified model of its core logic

HPCure is an Android app that estimates the volume of a breast tumour from an
MRI study. A home screen loads DICOM slices. A ROI screen runs a box detector
on every slice. A seed screen runs a point detector inside each ROI. A fuzzy
screen grows a fuzzy-connectedness region from each seed, counts the cells
whose connectedness passes the alpha cut and sums those counts over the slices.
A network module can hand the slices to other devices. A coordinator splits
the study into contiguous slice ranges, keeps per-worker success and failure
metrics, and merges the answers back by global slice index.

This project models the deterministic logic under the user interface, the
TFLite networks and the gRPC plumbing, and proves what that logic promises.
The modules are:

- `NativeOps`: the native summation stub.
- `CoordinatorStrategy`: the split, the sub-requests, the merge and the checks in `start`.
- `Coordinators`: the worker pool and its metrics state machine.
- `Fuzzy` and `SerialFuzzy`: max–min propagation and the alpha-cut volume.
- `DicomUtils`: sample decoding and grey levels.
- `DicomFiles`, `UtilsFiles` and `AppFiles`: the two slice cursors and their file filters.
- `Detection`, `RoiPredictors` and `SeedPredictors`: argmax, box clamping and per-slice prediction.
- Screen logic: `ResultScreen`, `RoiScreen`, `SeedScreen`, `ScreenViews`, `ModelScreen` and `UploadBrowser`.
- `NetworkMonitor`: the view-model's log feeds.
- Shared modules: Kotlin integer semantics, decimal text, string order, sorting and association lists.

Objects the source updates in place are classes whose methods carry
`modifies` clauses. Examples are the coordinator, the propagation engine, the
file managers and the screens. Pure computations are functions, each with
lemmas about it. In-place algorithms keep their arrays, for example the
bitmap fill, the `loadBinSlice` grid and the merge of worker results.

Floating-point values are modelled as exact reals. Kotlin `Int` and `Long`
arithmetic is modelled explicitly with `WrapInt`, `IsInt` and `IsLong`.
`Float.toInt` truncates and saturates. `coerceIn` is partial, because it
throws when its bounds are inverted.

## Model

| member | source | states |
|---|---|---|
| NativeOps.DoOps | app/src/main/cpp/demoapp.cpp:22-28 | With an `int` counter (ops ≤ 2³¹−1), the result is 0 for ops ≤ 0 and ops·(ops−1)/2 otherwise, and it fits in a 64-bit long. The loop invariant is sum = i(i−1)/2. |
| NativeOps.SumBelowClosedForm | app/src/main/cpp/demoapp.cpp:23-26 | The sum of 0..n−1 is n(n−1)/2. |
| NativeOps.SumBelowFitsLong | app/src/main/cpp/demoapp.cpp:23-27 | For every count the int counter can reach, the sum stays within Long range. |
| CoordinatorStrategy.SlicesPerWorker | network/src/main/java/com/example/network/coordinator/VolumeEstimateCoordinatorStrategy.kt:61-62 | k = ⌈total/n⌉: n·k covers total, and one fewer per worker would not. |
| CoordinatorStrategy.DistributeTasks | network/src/main/java/com/example/network/coordinator/VolumeEstimateCoordinatorStrategy.kt:51-73 | No workers gives no assignment. Otherwise, with distinct workers, worker i gets the range [i·k, min((i+1)·k−1, total−1)]. |
| CoordinatorStrategy.RangeOwner | network/src/main/java/com/example/network/coordinator/VolumeEstimateCoordinatorStrategy.kt:67-71 | Worker i's range holds a slice s exactly when 0 ≤ s < total and s div k = i. |
| CoordinatorStrategy.RangesPartition | network/src/main/java/com/example/network/coordinator/VolumeEstimateCoordinatorStrategy.kt:67-71 | Every slice 0..total−1 lies in exactly one worker's range, and no range holds anything else. |
| CoordinatorStrategy.RangesAscending | network/src/main/java/com/example/network/coordinator/VolumeEstimateCoordinatorStrategy.kt:67-71 | Ranges are ascending: every slice of a lower worker is below every slice of a higher one. |
| CoordinatorStrategy.RangeSize | network/src/main/java/com/example/network/coordinator/VolumeEstimateCoordinatorStrategy.kt:67-71 | Each range holds at most k slices. A worker whose start is at or past total gets an empty range. |
| CoordinatorStrategy.BuildSubRequest | network/src/main/java/com/example/network/coordinator/VolumeEstimateCoordinatorStrategy.kt:75-90 | It succeeds exactly when the range is empty or lies inside the request. The sub-request keeps the alpha cut and holds exactly the request's slices at the range's indices, in order. |
| CoordinatorStrategy.MaxOrZero | network/src/main/java/com/example/network/coordinator/VolumeEstimateCoordinatorStrategy.kt:96-97 | The greatest index of the list, or 0 for an empty list. |
| CoordinatorStrategy.TotalSize | network/src/main/java/com/example/network/coordinator/VolumeEstimateCoordinatorStrategy.kt:96-98 | One more than the largest assigned index over all results, or 0 with no results. |
| CoordinatorStrategy.TotalSizeNonNegative | network/src/main/java/com/example/network/coordinator/VolumeEstimateCoordinatorStrategy.kt:96-98 | With non-negative ranges the merged list size is never negative. |
| CoordinatorStrategy.Aggregate | network/src/main/java/com/example/network/coordinator/VolumeEstimateCoordinatorStrategy.kt:101-183 | The merged response has TotalSize ROIs and seeds and status COMPLETED. |
| CoordinatorStrategy.WritePart | network/src/main/java/com/example/network/coordinator/VolumeEstimateCoordinatorStrategy.kt:114-126 | The j-th item lands at start+j when that is inside the array. Positions past the end are dropped, and every other cell is unchanged. |
| CoordinatorStrategy.MergeResults | network/src/main/java/com/example/network/coordinator/VolumeEstimateCoordinatorStrategy.kt:152-161 | Each position holds the last result covering it, or the default ROI or seed. The worker info and name maps keep the last entry per worker. |
| CoordinatorStrategy.AggregateResults | network/src/main/java/com/example/network/coordinator/VolumeEstimateCoordinatorStrategy.kt:92-184 | It fails exactly when some assigned range is empty, because `first()` throws. Otherwise ROI p and seed p come from the last result whose range covers p. |
| CoordinatorStrategy.WorkerInfoOfLastResult | network/src/main/java/com/example/network/coordinator/VolumeEstimateCoordinatorStrategy.kt:137-139 | The workerInfo entry for a worker is the assigned range of its last result. |
| CoordinatorStrategy.CoveringAgree | network/src/main/java/com/example/network/coordinator/VolumeEstimateCoordinatorStrategy.kt:152-158 | When every part covering a position agrees on its value, the merge yields that value. |
| CoordinatorStrategy.DistributedRangesNonNegative | network/src/main/java/com/example/network/coordinator/VolumeEstimateCoordinatorStrategy.kt:67-71 | Every distributed range starts at a non-negative index. |
| CoordinatorStrategy.CollectedNonNegative | network/src/main/java/com/example/network/coordinator/VolumeEstimateCoordinatorStrategy.kt:206-233 | The results collected from the answers keep the non-negative ranges they were sent. |
| CoordinatorStrategy.CollectedAllAnswered | network/src/main/java/com/example/network/coordinator/VolumeEstimateCoordinatorStrategy.kt:225-233 | When every worker answers, one result is collected per assignment, in order. |
| CoordinatorStrategy.Start | network/src/main/java/com/example/network/coordinator/VolumeEstimateCoordinatorStrategy.kt:192-300 | It fails exactly when the distribution is empty, no answer arrives, a range is empty or the counts differ from the slice count. Otherwise it returns the merged ROIs and seeds, one per slice. |
| CoordinatorStrategy.IdleWorkerBreaksStart | network/src/main/java/com/example/network/coordinator/VolumeEstimateCoordinatorStrategy.kt:67-71 | As written, a worker whose range start is past the last slice makes `start` fail even when every worker answers. |
| CoordinatorStrategy.FiveSlicesFourWorkers | network/src/main/java/com/example/network/coordinator/VolumeEstimateCoordinatorStrategy.kt:62-71 | Concrete case: 5 slices over 4 workers fails even with all four answers. |
| CoordinatorStrategy.StartSkippingIdle | network/src/main/java/com/example/network/coordinator/VolumeEstimateCoordinatorStrategy.kt:192-300 | Corrected `start`, which leaves idle workers out of the merge. Failure and success are characterised as in `Start`. |
| CoordinatorStrategy.SkippingIdleSucceeds | network/src/main/java/com/example/network/coordinator/VolumeEstimateCoordinatorStrategy.kt:192-300 | With every busy worker answering one ROI and seed per slice, the corrected `start` succeeds. Slice s then gets answer ⌊s/k⌋'s item s mod k. |
| Coordinators.MetricsAfter | network/src/main/java/com/example/network/coordinator/Coordinator.kt:243-280 | On success: one more success, the response time recorded, failures reset and the worker available. On failure: one more failure, and the worker stays available only while under 3 failures. |
| Coordinators.FailuresInARow | network/src/main/java/com/example/network/coordinator/Coordinator.kt:260-280 | k failures in a row add k to the failure count, leave successes alone and keep the worker available only while the count is under 3. |
| Coordinators.ThirdFailureCutsOff | network/src/main/java/com/example/network/coordinator/Coordinator.kt:47-53 | A fresh worker survives two failures and is cut off by the third. |
| Coordinators.Preserved | network/src/main/java/com/example/network/coordinator/Coordinator.kt:506-519 | The reset entry keeps availability and the failure count, and zeroes the other counters. |
| Coordinators.ResetMetrics | network/src/main/java/com/example/network/coordinator/Coordinator.kt:502-529 | After a reset, metrics exist for exactly the current workers' addresses. |
| Coordinators.ResetIdempotent | network/src/main/java/com/example/network/coordinator/Coordinator.kt:502-529 | Resetting twice is the same as resetting once. |
| Coordinators.ResetKeepsAvailability | network/src/main/java/com/example/network/coordinator/Coordinator.kt:515-519 | A worker's availability and failure count survive the reset. |
| Coordinators.WithoutAddresses | network/src/main/java/com/example/network/coordinator/Coordinator.kt:414-414 | Keeps exactly the workers whose address is not excluded, in order and without new duplicates. |
| Coordinators.RedistributionOrder | network/src/main/java/com/example/network/coordinator/Coordinator.kt:414-422 | The other available workers, a permutation of them, sorted by last response time (missing counts as Long.MAX_VALUE). Workers with the same time keep their listed order, as the stable `sortedBy` keeps them. |
| Coordinators.RedistributionKeepsTiedOrder | network/src/main/java/com/example/network/coordinator/Coordinator.kt:414-422 | When every candidate has the same last response time (for instance, none has metrics), the order is the listed order with the failed address removed. |
| Coordinators.RedistributionTarget | network/src/main/java/com/example/network/coordinator/Coordinator.kt:424-425 | There is no target exactly when only the failed address is available. Otherwise the target is an available worker other than the failed one: element `index mod n` of the redistribution order. |
| Coordinators.RedistributionPeriodic | network/src/main/java/com/example/network/coordinator/Coordinator.kt:424-425 | Task k and task k+size go to the same worker (round robin). |
| Coordinators.RedistributionFastestFirst | network/src/main/java/com/example/network/coordinator/Coordinator.kt:420-425 | The first redistributed task goes to a worker at least as fast as any other candidate. |
| Coordinators.Coordinator.constructor | network/src/main/java/com/example/network/coordinator/Coordinator.kt:40-44 | The pool starts as the local worker alone, with no stubs and no metrics. |
| Coordinators.Coordinator.FindWorker | network/src/main/java/com/example/network/coordinator/Coordinator.kt:475-475 | Finds a worker with the address exactly when one exists. |
| Coordinators.Coordinator.RegisterWorkerInternal | network/src/main/java/com/example/network/coordinator/Coordinator.kt:94-120 | Adds the pair to the set (new exactly when absent) and gives the address fresh, available metrics. |
| Coordinators.Coordinator.RegisterWorker | network/src/main/java/com/example/network/coordinator/Coordinator.kt:69-92 | An empty handshake changes nothing. Otherwise the worker is registered with fresh metrics. |
| Coordinators.Coordinator.UpdateWorkerMetrics | network/src/main/java/com/example/network/coordinator/Coordinator.kt:234-282 | Metrics become MetricsAfter. The failure that cuts a worker off removes one worker with that address and its stub. |
| Coordinators.Coordinator.AddWorker | network/src/main/java/com/example/network/coordinator/Coordinator.kt:466-470 | Set insertion, reporting whether the pair was new. |
| Coordinators.Coordinator.MarkWorkerUnavailable | network/src/main/java/com/example/network/coordinator/Coordinator.kt:473-488 | No-op for an unknown address. Otherwise the worker and its stub are removed and the metrics flag is cleared. |
| Coordinators.Coordinator.MarkWorkerAvailable | network/src/main/java/com/example/network/coordinator/Coordinator.kt:491-500 | Re-adds the pair only when no worker has that address, and sets the flag when metrics exist. |
| Coordinators.Coordinator.ResetState | network/src/main/java/com/example/network/coordinator/Coordinator.kt:502-529 | Metrics become ResetMetrics of the current workers. Workers and stubs are unchanged. |
| Coordinators.Coordinator.PruneUnavailable | network/src/main/java/com/example/network/coordinator/Coordinator.kt:128-132 | Removes exactly the workers whose metrics flag them unavailable. |
| Coordinators.Coordinator.AvailableWorkers | network/src/main/java/com/example/network/coordinator/Coordinator.kt:143-152 | The unflagged workers, each once, sorted by address. |
| Coordinators.Coordinator.PickAvailable | network/src/main/java/com/example/network/coordinator/Coordinator.kt:143-151 | The unflagged workers, each once. |
| Coordinators.Coordinator.PreparePool | network/src/main/java/com/example/network/coordinator/Coordinator.kt:126-159 | Reset, prune, then the pool sorted by address without repeats. It returns none exactly when no worker remains. |
| Fuzzy.Neighbors | app/src/main/java/com/example/demoapp/Core/FuzzyConnectedness.kt:33-44 | At most four neighbours, clipped to the ROI. |
| Fuzzy.NeighborsAt | app/src/main/java/com/example/demoapp/Core/FuzzyConnectedness.kt:33-44 | The same neighbour list from explicit coordinates, at most four. |
| Fuzzy.NeighborsInImage | app/src/main/java/com/example/demoapp/Core/FuzzyConnectedness.kt:33-44 | With the ROI inside the image, every neighbour is a cell of the image. |
| Fuzzy.NeighborsKeepRow | app/src/main/java/com/example/demoapp/Core/FuzzyConnectedness.kt:34-39 | Left exists iff x > xMin and right iff x < xMax, and both stay on the cell's row. |
| Fuzzy.BoxClosed | app/src/main/java/com/example/demoapp/Core/FuzzyConnectedness.kt:33-44 | The ROI box is closed under taking neighbours. |
| Fuzzy.ImageClosed | app/src/main/java/com/example/demoapp/Core/FuzzyConnectedness.kt:33-44 | The whole image is closed under taking neighbours. |
| Fuzzy.StartIsPropagating | app/src/main/java/com/example/demoapp/Core/FuzzyConnectedness.kt:17-31 | The start state (seeds at 1.0 and queued, the rest at 0) satisfies the propagation invariant. |
| Fuzzy.StartIsConfined | app/src/main/java/com/example/demoapp/Core/FuzzyConnectedness.kt:17-31 | Nonzero cells and queued cells of the start state lie in any region holding the seeds. |
| Fuzzy.PollKeeps | app/src/main/java/com/example/demoapp/Core/FuzzyConnectedness.kt:104-107 | Removing a maximal entry keeps the invariant. A stale entry (value below the cell) is skipped without loss. |
| Fuzzy.RaiseKeeps | app/src/main/java/com/example/demoapp/Core/FuzzyConnectedness.kt:109-115 | Raising a neighbour to min(cell, affinity) and enqueuing it keeps the invariant and confinement. |
| Fuzzy.CellDone | app/src/main/java/com/example/demoapp/Core/FuzzyConnectedness.kt:109-116 | Once every neighbour of the polled cell is served, the invariant holds again. |
| Fuzzy.DrainedIsFixpoint | app/src/main/java/com/example/demoapp/Core/FuzzyConnectedness.kt:104-120 | With an empty queue every cell satisfies conScene[e] ≥ min(conScene[c], affinity(c,e)). |
| Fuzzy.PotDecreases | app/src/main/java/com/example/demoapp/Core/FuzzyConnectedness.kt:112-114 | Raising a cell to a larger attainable value lowers the termination potential. |
| Fuzzy.FuzzyConnectedness.constructor | app/src/main/java/com/example/demoapp/Core/FuzzyConnectedness.kt:13-31 | Seeds hold 1.0, all other cells 0, and the queue holds the seed entries. |
| Fuzzy.FuzzyConnectedness.InitializeSeeds | app/src/main/java/com/example/demoapp/Core/FuzzyConnectedness.kt:25-31 | Seed cells are set to 1.0 and enqueued, and other cells are unchanged. |
| Fuzzy.FuzzyConnectedness.Poll | app/src/main/java/com/example/demoapp/Core/FuzzyConnectedness.kt:18-18 | Removes and returns an entry of maximal value. |
| Fuzzy.FuzzyConnectedness.Run | app/src/main/java/com/example/demoapp/Core/FuzzyConnectedness.kt:101-120 | Terminates with an empty queue. Values stay in [0,1], never decrease and are drawn from the start values and the affinities. Every cell is a fixpoint, and the cells outside the region stay 0. |
| Fuzzy.FuzzyConnectedness.ProcessCell | app/src/main/java/com/example/demoapp/Core/FuzzyConnectedness.kt:107-116 | Serving a polled cell restores the invariant, and either changes nothing or lowers the potential. |
| SerialFuzzy.CountAtLeast | app/src/main/java/com/example/demoapp/Core/SerialFuzzySystem.kt:43-43 | The alpha-cut count is at most the number of cells. |
| SerialFuzzy.CountAntitone | app/src/main/java/com/example/demoapp/Core/SerialFuzzySystem.kt:43-43 | A higher alpha cut never counts more cells. |
| SerialFuzzy.CountExtremes | app/src/main/java/com/example/demoapp/Core/SerialFuzzySystem.kt:43-43 | All cells count when all pass the cut, and none when none do. |
| SerialFuzzy.TotalCountBounds | app/src/main/java/com/example/demoapp/Core/SerialFuzzySystem.kt:19-27 | The volume over all slices is antitone in the cut and at most the total cell count. |
| SerialFuzzy.SerialFuzzySystem.constructor | app/src/main/java/com/example/demoapp/Core/SerialFuzzySystem.kt:16-16 | The alpha cut starts at 0. |
| SerialFuzzy.SerialFuzzySystem.CalculateVolume | app/src/main/java/com/example/demoapp/Core/SerialFuzzySystem.kt:38-44 | The count is the cells at or above alphaCut/100 in a fuzzy segmentation of the slice, between 0 and the slice size. With the seed inside the ROI, cells outside the ROI are 0. |
| SerialFuzzy.SerialFuzzySystem.EstimateVolume | app/src/main/java/com/example/demoapp/Core/SerialFuzzySystem.kt:17-36 | Records the cut, segments every slice and returns the summed alpha-cut counts with the sequence. |
| SerialFuzzy.StartValues | app/src/main/java/com/example/demoapp/Core/SerialFuzzySystem.kt:41-41 | Every segmented value is 0, 1 or an affinity value. |
| DicomUtils.Word | app/src/main/java/com/example/demoapp/Utils/DicomUtils.kt:65-66 | Little-endian assembly: the low byte is w mod 256 and the high byte is w div 256. |
| DicomUtils.ToShort | app/src/main/java/com/example/demoapp/Utils/DicomUtils.kt:67-67 | Two's-complement reinterpretation into [−32768, 32767], congruent mod 65536. |
| DicomUtils.StoredValue | app/src/main/java/com/example/demoapp/Utils/DicomUtils.kt:61-73 | A sample exists exactly when its bytes do. Pixel Representation 1 gives a signed 16-bit value, otherwise an unsigned one. |
| DicomUtils.WordRoundTrip | app/src/main/java/com/example/demoapp/Utils/DicomUtils.kt:62-68 | Encoding a value in range and decoding it gives the value back. |
| DicomUtils.BytesRoundTrip | app/src/main/java/com/example/demoapp/Utils/DicomUtils.kt:62-67 | Decoding two bytes and re-encoding gives the same bytes. |
| DicomUtils.SampleValues | app/src/main/java/com/example/demoapp/Utils/DicomUtils.kt:60-73 | One value per pixel, missing bytes defaulting to 0. |
| DicomUtils.LowestIsLeast | app/src/main/java/com/example/demoapp/Utils/DicomUtils.kt:57-75 | The running minimum bounds all samples and is one of them (or Double.MAX_VALUE for none). |
| DicomUtils.HighestIsGreatest | app/src/main/java/com/example/demoapp/Utils/DicomUtils.kt:58-76 | The running maximum bounds all samples and is one of them (or Double.MIN_VALUE for none). |
| DicomUtils.DisplayRange | app/src/main/java/com/example/demoapp/Utils/DicomUtils.kt:57-82 | min < max always, both bound every sample, and a flat image gets max = min + 1. |
| DicomUtils.ValueRange | app/src/main/java/com/example/demoapp/Utils/DicomUtils.kt:56-82 | The loop computes DisplayRange of the samples. |
| DicomUtils.GreyLevel | app/src/main/java/com/example/demoapp/Utils/DicomUtils.kt:105-106 | The grey level is clamped to 0..255: at or below the minimum it is 0, at or above the maximum 255. |
| DicomUtils.GreyMonotone | app/src/main/java/com/example/demoapp/Utils/DicomUtils.kt:105-106 | A brighter sample never gets a darker grey. |
| DicomUtils.Rgb | app/src/main/java/com/example/demoapp/Utils/DicomUtils.kt:107-107 | The packed colour fits an Int. |
| DicomUtils.RgbChannels | app/src/main/java/com/example/demoapp/Utils/DicomUtils.kt:107-107 | The packed colour is opaque and its red, green and blue channels are the given bytes. |
| DicomUtils.Paint | app/src/main/java/com/example/demoapp/Utils/DicomUtils.kt:86-109 | The fresh height × width bitmap holds at (y,x) the grey colour of sample y·width+x. |
| DicomUtils.ConvertDicomToBitmap | app/src/main/java/com/example/demoapp/Utils/DicomUtils.kt:18-117 | It fails exactly when the file is missing or unreadable, or has no dataset, no positive dimensions or no pixel data. Otherwise it gives the painted bitmap over the display range. |
| DicomFiles.DicomNameLetters | app/src/main/java/com/example/demoapp/Utils/FileManager.kt:128-131 | A name is accepted exactly when its last characters are ".dcm" or ".dicom", each letter in either case, with 'ı' and 'İ' also matching 'i'. |
| DicomFiles.DicomSuffixAccepted | app/src/main/java/com/example/demoapp/Utils/FileManager.kt:128-131 | Any text followed by ".dcm" or ".dicom", ignoring case, is accepted. |
| UtilsFiles.DcmEntriesMembers | app/src/main/java/com/example/demoapp/Utils/FileManager.kt:43-57 | Exactly the listing's entries ending in `.dcm` (any case), in order. |
| UtilsFiles.CopiedBeforeFailure | app/src/main/java/com/example/demoapp/Utils/FileManager.kt:52-65 | The number of entries copied before the first one whose copy throws. |
| UtilsFiles.Copies | app/src/main/java/com/example/demoapp/Utils/FileManager.kt:52-53 | The cached copy of every entry, in order. |
| UtilsFiles.Uris | app/src/main/java/com/example/demoapp/Utils/FileManager.kt:51-54 | The document URI of every entry, in order. |
| UtilsFiles.Reloaded | app/src/main/java/com/example/demoapp/Utils/FileManager.kt:226-241 | Only valid DICOM files fetched from the stored URIs are kept. |
| UtilsFiles.CopyFails | app/src/main/java/com/example/demoapp/Utils/FileManager.kt:62-65 | When the copy loop stops early, it has copied exactly the prefix before the failing entry. |
| UtilsFiles.CopiedAll | app/src/main/java/com/example/demoapp/Utils/FileManager.kt:43-61 | When the copy loop completes, every entry was copied and its URI recorded. |
| UtilsFiles.LoadedSortedPermutation | app/src/main/java/com/example/demoapp/Utils/FileManager.kt:59-61 | The loaded files are a permutation of the copies, sorted by name. |
| UtilsFiles.UtilsFileManager.constructor | app/src/main/java/com/example/demoapp/Utils/FileManager.kt:13-15 | No files, no URIs, cursor at 0. |
| UtilsFiles.UtilsFileManager.LoadDirectory | app/src/main/java/com/example/demoapp/Utils/FileManager.kt:24-66 | Cursor reset. The URIs of the copied prefix are appended. On full success the files are the copies sorted by name and the result says whether any was found. On a failed copy the result is false and the partial copies stay unsorted. |
| UtilsFiles.UtilsFileManager.ReloadFiles | app/src/main/java/com/example/demoapp/Utils/FileManager.kt:226-241 | The file list becomes Reloaded of the stored URIs, and the URIs and cursor are unchanged. |
| UtilsFiles.UtilsFileManager.GetCurrentFile | app/src/main/java/com/example/demoapp/Utils/FileManager.kt:170-174 | The file under the cursor, or none when the cursor is out of range. |
| UtilsFiles.UtilsFileManager.MoveToNext | app/src/main/java/com/example/demoapp/Utils/FileManager.kt:201-207 | Moves exactly when not at the last file, by one, and the files are unchanged. |
| UtilsFiles.UtilsFileManager.MoveToPrevious | app/src/main/java/com/example/demoapp/Utils/FileManager.kt:209-215 | Moves exactly when not at the first file, by one, and the files are unchanged. |
| UtilsFiles.UtilsFileManager.GetCurrentIndex | app/src/main/java/com/example/demoapp/Utils/FileManager.kt:217-217 | The 1-based position, between 1 and the file count for a valid non-empty list. |
| UtilsFiles.UtilsFileManager.GetTotalFiles | app/src/main/java/com/example/demoapp/Utils/FileManager.kt:219-219 | The number of files. |
| UtilsFiles.UtilsFileManager.Cleanup | app/src/main/java/com/example/demoapp/Utils/FileManager.kt:247-251 | Empties the file list and resets the cursor. |
| AppFiles.Accepted | app/src/main/java/com/example/demoapp/FileManager.kt:63-87 | At most one file per entry. |
| AppFiles.AcceptedExactly | app/src/main/java/com/example/demoapp/FileManager.kt:63-87 | A file is accepted iff it is the valid copy of an entry with a DICOM name. |
| AppFiles.AppFileManager.constructor | app/src/main/java/com/example/demoapp/FileManager.kt:14-15 | No files, cursor at 0. |
| AppFiles.AppFileManager.LoadDirectory | app/src/main/java/com/example/demoapp/FileManager.kt:24-44 | The list is reset to the accepted files of a permitted, readable listing, and the result says whether any was found. |
| AppFiles.AppFileManager.ProcessDirectory | app/src/main/java/com/example/demoapp/FileManager.kt:46-88 | Appends exactly the accepted files, in listing order. |
| AppFiles.AppFileManager.GetCurrentFile | app/src/main/java/com/example/demoapp/FileManager.kt:135-139 | The file under the cursor, or none when out of range. |
| AppFiles.AppFileManager.MoveToNext | app/src/main/java/com/example/demoapp/FileManager.kt:161-167 | Moves exactly when not at the last file. |
| AppFiles.AppFileManager.MoveToPrevious | app/src/main/java/com/example/demoapp/FileManager.kt:169-175 | Moves exactly when not at the first file. |
| AppFiles.AppFileManager.GetCurrentIndex | app/src/main/java/com/example/demoapp/FileManager.kt:177-177 | The 1-based position. |
| AppFiles.AppFileManager.Cleanup | app/src/main/java/com/example/demoapp/FileManager.kt:185-189 | Empties the list and resets the cursor. |
| Sorting.SortByString | app/src/main/java/com/example/demoapp/Utils/FileManager.kt:60-60 | Sorted by the key's `compareTo` order, a permutation of the input, and stable: elements whose keys tie keep their order. |
| Sorting.SortByStable | network/src/main/java/com/example/network/coordinator/Coordinator.kt:420-422 | `sortedBy` is stable: for every key, the elements tied with it appear in the result in their input order. |
| Sorting.SortBySorted | network/src/main/java/com/example/network/coordinator/Coordinator.kt:420-422 | Sorting a sequence already in key order returns it unchanged. |
| Text.StrLeAntisymmetric | app/src/main/java/com/example/demoapp/Utils/FileManager.kt:60-60 | Two strings that are each `compareTo`-below the other are equal, since different strings have different UTF-16 encodings. |
| Text.Utf16OrderNotCodePoint | app/src/main/java/com/example/demoapp/Utils/FileManager.kt:60-60 | `compareTo` orders by UTF-16 unit, not by code point: U+1F600 sorts before U+FF21. |
| Detection.BestIsFirstGreatest | app/src/main/java/com/example/demoapp/Core/SequentialRoiPredictor.kt:74-83 | The best value bounds every confidence and is positive exactly when some confidence is. Its index is the first strictly greatest one, or 0. |
| Detection.ArgMax | app/src/main/java/com/example/demoapp/Core/SequentialRoiPredictor.kt:74-83 | The loop computes Best: the first strictly greatest positive confidence, or (0, 0). |
| Detection.ClampBox | app/src/main/java/com/example/demoapp/Core/SequentialRoiPredictor.kt:99-107 | Corners are clamped into the image, and a corner already inside is kept. |
| Detection.ClampMayInvert | app/src/main/java/com/example/demoapp/Core/SequentialRoiPredictor.kt:104-107 | A box centred off the image clamps to xMin > xMax. |
| Detection.PixelCoordinates | app/src/main/java/com/example/demoapp/Core/SequentialRoiPredictor.kt:158-178 | Four corners clamped into the original image. |
| Detection.RescaleWithin | app/src/main/java/com/example/demoapp/Core/SequentialSeedPredictor.kt:110-117 | A seed fraction in [0,1] rescales into the ROI's span. |
| RoiPredictors.SequentialRoi | app/src/main/java/com/example/demoapp/Core/SequentialRoiPredictor.kt:57-116 | The ROI is clamped into the slice. Its score is the best confidence, bounding all of them and attained when positive. |
| RoiPredictors.ParallelRoi | app/src/main/java/com/example/demoapp/Core/ParallelRoiPredictor.kt:62-123 | The ROI is clamped into the slice, and its score is left at the default 0. |
| RoiPredictors.ParallelDropsScore | app/src/main/java/com/example/demoapp/Core/ParallelRoiPredictor.kt:117-122 | The parallel ROI is the sequential one with its score reset to 0. |
| RoiPredictors.RoiMatchesPixelCoordinates | app/src/main/java/com/example/demoapp/Core/SequentialRoiPredictor.kt:99-115 | The ROI's corners are `convertToPixelCoordinates` of the best anchor's box. |
| RoiPredictors.PredictSliceRoi | app/src/main/java/com/example/demoapp/Core/SequentialRoiPredictor.kt:57-116 | Computes SequentialRoi of the slice. |
| RoiPredictors.ParallelPredictSliceRoi | app/src/main/java/com/example/demoapp/Core/ParallelRoiPredictor.kt:62-123 | Computes ParallelRoi of the slice. |
| RoiPredictors.ParallelRois | app/src/main/java/com/example/demoapp/Core/ParallelRoiPredictor.kt:47-59 | One ROI per slice. |
| RoiPredictors.SequentialRois | app/src/main/java/com/example/demoapp/Core/SequentialRoiPredictor.kt:44-50 | One ROI per slice. |
| RoiPredictors.PredictRois | app/src/main/java/com/example/demoapp/Core/SequentialRoiPredictor.kt:44-54 | The loop yields ROI i = SequentialRoi of slice i, for every slice, in order. |
| RoiPredictors.ParallelPredictRois | app/src/main/java/com/example/demoapp/Core/ParallelRoiPredictor.kt:47-60 | The result list is ordered by slice: ROI i = ParallelRoi of slice i. |
| SeedPredictors.SeedInsideRoi | app/src/main/java/com/example/demoapp/Core/SequentialSeedPredictor.kt:71-117 | With outputs in the crop's range, the seed lies in the ROI and the slice. |
| SeedPredictors.PredictSliceSeed | app/src/main/java/com/example/demoapp/Core/SequentialSeedPredictor.kt:66-118 | Computes the seed of the best anchor rescaled into the ROI. |
| SeedPredictors.SequentialSeeds | app/src/main/java/com/example/demoapp/Core/SequentialSeedPredictor.kt:49-60 | One seed per slice. |
| SeedPredictors.PredictSeeds | app/src/main/java/com/example/demoapp/Core/SequentialSeedPredictor.kt:49-63 | The loop yields seed i for slice i with ROI i, or (0,0) where the ROI is missing or the crop fails. |
| NetworkMonitor.DevicePretty | network/src/main/java/com/example/network/ui/MainViewModel.kt:52-54 | "online" exactly for an online event, "offline" otherwise. |
| NetworkMonitor.JoinToString | network/src/main/java/com/example/network/ui/MainViewModel.kt:57-59 | Empty exactly for no portions. |
| NetworkMonitor.JoinAppend | network/src/main/java/com/example/network/ui/MainViewModel.kt:57-57 | Appending a portion appends ", " and its decimal text. |
| NetworkMonitor.FixedLines | network/src/main/java/com/example/network/ui/MainViewModel.kt:58-60 | Errors and unassigned tasks print fixed lines regardless of their fields. |
| NetworkMonitor.DeviceFeedIsMap | network/src/main/java/com/example/network/ui/MainViewModel.kt:26-35 | The scanned device feed equals the map built from its name/line pairs. |
| NetworkMonitor.WorkFeedIsMap | network/src/main/java/com/example/network/ui/MainViewModel.kt:37-49 | The scanned work feed equals the map built from its name/line pairs. |
| NetworkMonitor.DeviceFeedLastWins | network/src/main/java/com/example/network/ui/MainViewModel.kt:26-35 | The feed has an entry for exactly the devices seen, and each holds its last event's line. |
| NetworkMonitor.WorkFeedLastWins | network/src/main/java/com/example/network/ui/MainViewModel.kt:37-49 | The feed has an entry for exactly the workers seen, and each holds its last event's line. |
| Decimal.LongRoundTrip | app/src/main/java/com/example/demoapp/Screen/RoiScreen.kt:249-249 | `toLong` of a Long's decimal text gives it back. |
| TimeLabels.TimeLabel | app/src/main/java/com/example/demoapp/Screen/RoiScreen.kt:236-236 | The label starts with "Time Taken: " and goes on past it. |
| TimeLabels.ParseTimeLabel | app/src/main/java/com/example/demoapp/Screen/RoiScreen.kt:249-249 | A parsed time is always a Long. |
| TimeLabels.TimeLabelRoundTrip | app/src/main/java/com/example/demoapp/Screen/RoiScreen.kt:236-249 | Reading the label back gives the time it was written from. |
| TimeLabels.EmptyLabelRefused | app/src/main/java/com/example/demoapp/Screen/RoiScreen.kt:249-249 | An empty label, or one with no number, makes `toLong` throw (none). |
| ScreenViews.FileArrows | app/src/main/java/com/example/demoapp/Screen/RoiScreen.kt:327-332 | The previous arrow shows exactly when the cursor can move back, and the next arrow exactly when it can move on. |
| ScreenViews.CountTextParses | app/src/main/java/com/example/demoapp/Screen/RoiScreen.kt:323-325 | The "i/n" counter splits at its first '/' into the two numbers. |
| ScreenViews.OverlayAt | app/src/main/java/com/example/demoapp/Screen/SeedScreen.kt:243-255 | ROI and seed, ROI only, or the plain slice, exactly by which lists reach the index. |
| ScreenViews.RoiShownAt | app/src/main/java/com/example/demoapp/Screen/RoiScreen.kt:276-280 | The ROI at the index, or none. |
| ScreenViews.SeedScreenExtendsRoiScreen | app/src/main/java/com/example/demoapp/Screen/SeedScreen.kt:244-255 | With no seeds the seed screen draws what the ROI screen draws. |
| ResultScreen.Kept | app/src/main/java/com/example/demoapp/Screen/FuzzyAndResultScreen.kt:383-388 | Exactly the indices of ROIs scoring above 0.3, ascending. |
| ResultScreen.Pick | app/src/main/java/com/example/demoapp/Screen/FuzzyAndResultScreen.kt:383-388 | One element per index. |
| ResultScreen.KeptFitExactly | app/src/main/java/com/example/demoapp/Screen/FuzzyAndResultScreen.kt:383-385 | The filter succeeds iff every kept index has an image. |
| ResultScreen.FilterImagesAndRois | app/src/main/java/com/example/demoapp/Screen/FuzzyAndResultScreen.kt:377-391 | It throws exactly when a confident ROI has no image. Otherwise images and ROIs are filtered together by the same kept indices. |
| ResultScreen.OneRoiPerSliceFits | app/src/main/java/com/example/demoapp/Screen/FuzzyAndResultScreen.kt:377-391 | With one ROI per slice the filter never throws. |
| ResultScreen.ParallelRecalculationKeepsNothing | app/src/main/java/com/example/demoapp/Screen/FuzzyAndResultScreen.kt:384-406 | As written, the parallel predictor's ROIs all score 0, so the filter keeps none. |
| ResultScreen.ScoredParallelRoi | app/src/main/java/com/example/demoapp/Core/ParallelRoiPredictor.kt:117-122 | Corrected parallel ROI carrying its confidence, clamped into the slice. |
| ResultScreen.ScoredParallelKeepsConfident | app/src/main/java/com/example/demoapp/Core/ParallelRoiPredictor.kt:117-122 | The corrected parallel ROI equals the sequential one, and it passes the filter iff some anchor's confidence exceeds 0.3. |
| ResultScreen.Navigated | app/src/main/java/com/example/demoapp/Screen/FuzzyAndResultScreen.kt:541-545 | Clamped navigation: none for no images (`coerceIn` throws), else an index in range. |
| ResultScreen.ArrowsMatchNavigation | app/src/main/java/com/example/demoapp/Screen/FuzzyAndResultScreen.kt:216-227 | An arrow is shown exactly when pressing it changes the index, by one step. |
| ResultScreen.FuzzyAndResultScreen.SetMode | app/src/main/java/com/example/demoapp/Screen/FuzzyAndResultScreen.kt:324-330 | Records the mode and picks the serial fuzzy system for "Serial", else the parallel one. Nothing else changes. |
| ResultScreen.FuzzyAndResultScreen.NavigateImage | app/src/main/java/com/example/demoapp/Screen/FuzzyAndResultScreen.kt:541-552 | The index becomes Navigated, or the call throws with no images. Nothing else changes. |
| ResultScreen.FuzzyAndResultScreen.CurrentOverlay | app/src/main/java/com/example/demoapp/Screen/FuzzyAndResultScreen.kt:229-245 | The overlay at the current index. |
| ResultScreen.FuzzyAndResultScreen.Calculate | app/src/main/java/com/example/demoapp/Screen/FuzzyAndResultScreen.kt:643-651 | Runs the selected fuzzy system exactly when ROIs, seeds and a system are present. |
| ResultScreen.FuzzyAndResultScreen.Recalculate | app/src/main/java/com/example/demoapp/Screen/FuzzyAndResultScreen.kt:354-505 | Stops when the full study is missing or empty. Otherwise, by mode, predicts the ROIs, filters images with them, predicts the seeds and resets the index. The remote mode replaces the sequence only. |
| ResultScreen.ParallelRecalculationEmpties | app/src/main/java/com/example/demoapp/Screen/FuzzyAndResultScreen.kt:393-406 | Parallel recalculation leaves no image and no ROI. |
| RoiScreen.Activity.constructor | app/src/main/java/com/example/demoapp/Screen/RoiScreen.kt:60-82 | Parallel mode and predictor, no ROIs, no label. |
| RoiScreen.Activity.SelectParallel | app/src/main/java/com/example/demoapp/Screen/RoiScreen.kt:180-185 | Parallel mode with the parallel predictor. |
| RoiScreen.Activity.SelectSerial | app/src/main/java/com/example/demoapp/Screen/RoiScreen.kt:186-191 | The mode reads "Serial" and the predictor stays parallel. |
| RoiScreen.Activity.Predict | app/src/main/java/com/example/demoapp/Screen/RoiScreen.kt:222-243 | The held predictor's ROIs for every slice, and a label that reads back as the time taken. |
| RoiScreen.Activity.Confirm | app/src/main/java/com/example/demoapp/Screen/RoiScreen.kt:245-253 | The time read back from the label, none when there is no number. |
| RoiScreen.Activity.ShownRoi | app/src/main/java/com/example/demoapp/Screen/RoiScreen.kt:276-280 | The ROI at the cursor, or none. |
| RoiScreen.Activity.PressPrevious | app/src/main/java/com/example/demoapp/Screen/RoiScreen.kt:309-314 | Moves back exactly when the arrow was shown. |
| RoiScreen.Activity.PressNext | app/src/main/java/com/example/demoapp/Screen/RoiScreen.kt:315-320 | Moves on exactly when the arrow was shown. |
| SeedScreen.Activity.constructor | app/src/main/java/com/example/demoapp/Screen/SeedScreen.kt:82-91 | Parallel mode, the ROIs received (or none), no seeds, no label. |
| SeedScreen.Activity.SelectParallel | app/src/main/java/com/example/demoapp/Screen/SeedScreen.kt:351-356 | Parallel mode and predictor. |
| SeedScreen.Activity.SelectSerial | app/src/main/java/com/example/demoapp/Screen/SeedScreen.kt:357-362 | "Sequential" mode and the sequential predictor. |
| SeedScreen.Activity.Predict | app/src/main/java/com/example/demoapp/Screen/SeedScreen.kt:184-212 | Nothing happens without ROIs. Otherwise the selected predictor's seeds are stored, with a label that reads back as the time. |
| SeedScreen.Activity.Confirm | app/src/main/java/com/example/demoapp/Screen/SeedScreen.kt:214-227 | The time read back from the label. |
| SeedScreen.Activity.CurrentOverlay | app/src/main/java/com/example/demoapp/Screen/SeedScreen.kt:243-264 | ROI and seed, ROI only, or the slice, by the cursor. |
| SeedScreen.Activity.PressPrevious | app/src/main/java/com/example/demoapp/Screen/SeedScreen.kt:322-327 | Moves back exactly when the arrow was shown. |
| SeedScreen.Activity.PressNext | app/src/main/java/com/example/demoapp/Screen/SeedScreen.kt:328-333 | Moves on exactly when the arrow was shown. |
| ModelScreen.ExtractRoi | app/src/main/java/com/example/demoapp/Screen/ModelScreen.kt:132-144 | Returns a block exactly when array sizes are non-negative and the reads stay inside the slice. The block is (yMax−yMin) rows of (xMax−xMin) values. |
| ModelScreen.ExtractCoversBox | app/src/main/java/com/example/demoapp/Screen/ModelScreen.kt:132-144 | The block is the slice's half-open box, cell by cell. |
| ModelScreen.FixedRoiExtracts | app/src/main/java/com/example/demoapp/Screen/ModelScreen.kt:36-39 | On a 512 × 512 slice the fixed ROI gives 43 rows of 28 values. |
| ModelScreen.SliceNumber | app/src/main/java/com/example/demoapp/Screen/ModelScreen.kt:45-45 | Page p shows slice p+52, within 52..72. |
| ModelScreen.SliceFileNameNumber | app/src/main/java/com/example/demoapp/Screen/ModelScreen.kt:45-46 | The file name carries the slice number between its fixed prefix and suffix. |
| ModelScreen.PagesReadDistinctFiles | app/src/main/java/com/example/demoapp/Screen/ModelScreen.kt:45-46 | Different pages read different files. |
| ModelScreen.LoadBinSlice | app/src/main/java/com/example/demoapp/Screen/ModelScreen.kt:82-99 | Row-major fill: cell (y,x) is double y·512+x. Too few doubles give no slice. |
| ModelScreen.SlicePagerAdapter.constructor | app/src/main/java/com/example/demoapp/Screen/ModelScreen.kt:173-173 | No cached pages. |
| ModelScreen.SlicePagerAdapter.UpdateImage | app/src/main/java/com/example/demoapp/Screen/ModelScreen.kt:193-197 | The list grows with nulls up to the position, stores the bitmap there and keeps the other entries. A negative position throws and changes nothing. |
| ModelScreen.PredictionInsideFixedRoi | app/src/main/java/com/example/demoapp/Screen/ModelScreen.kt:59-64 | Output fractions in [0,1] mark a point inside the fixed ROI. |
| UploadBrowser.IndexOf | app/src/main/java/com/example/demoapp/HomeScreenUpload.kt:93-93 | The first position holding the URI, or −1 exactly when it is absent. |
| UploadBrowser.NeighbourCases | app/src/main/java/com/example/demoapp/HomeScreenUpload.kt:91-101 | Null in gives null out. An unlisted URI has no previous, and its next is the first URI. A listed one has a previous iff it is not first, and a next iff it is not last. |
| UploadBrowser.NeighboursInverse | app/src/main/java/com/example/demoapp/HomeScreenUpload.kt:91-101 | In a list without repeats, next undoes previous and previous undoes next. |
| UploadBrowser.HomeScreenUpload.constructor | app/src/main/java/com/example/demoapp/HomeScreenUpload.kt:31-36 | The passed URI and the gallery list. |
| UploadBrowser.HomeScreenUpload.ShowPrevious | app/src/main/java/com/example/demoapp/HomeScreenUpload.kt:38-44 | Moves to the previous URI when there is one, else stays. |
| UploadBrowser.HomeScreenUpload.ShowNext | app/src/main/java/com/example/demoapp/HomeScreenUpload.kt:46-52 | Moves to the next URI when there is one, else stays. |

## Left out

- Android UI is not modelled: drawing, toasts, layouts, intents, ViewPager views and `setImageURI`. Screen methods model only the state those views read.
- TFLite inference is not modelled: each network's output is a function parameter.
- `ParallelSeedPredictor` is a parameter: its seeds are passed in as `parallelSeeds`.
- Clocks and timing are not modelled: the measured time is a parameter.
- Coroutines, locks and concurrency are not modelled: the coordinator and the parallel predictors are sequential, with results in slice order.
- gRPC calls, stub creation (`getOrCreateStub`), retries and the execution of redistributed tasks are not modelled. Worker answers are parameters, and redistribution models only the choice of target.
- `averageResponseTime` is not modelled: it is a floating-point running mean that no decision reads.
- The Gaussian affinity of `FuzzyConnectedness` is not modelled. It is an arbitrary function into [0,1].
- Floating-point rounding, NaN and infinities are not modelled. Floats and doubles are exact reals.
- `SerialFuzzy.SerialFuzzySystem.CalculateVolume` returns the segmentation as ghost. The proofs state what the count is about, not the real-valued scene.
- `ResultScreen.FuzzyAndResultScreen.Recalculate` does not model the volume estimate or the timing. Seed prediction and the remote call are function parameters.
- `ResultScreen.FuzzyAndResultScreen.Calculate` reports which fuzzy system runs, not the volume it computes.
- The alpha-cut slider and its text formatting are not modelled.
- The private `setMode` that nothing calls (FuzzyAndResultScreen.kt:131-136) is not modelled.
- The byte-to-double decoding in `loadBinSlice` is not modelled: the file is given as its doubles.
- The MediaStore gallery query (`getImageUris`) is not modelled: the gallery list is given.
- Logging is not modelled.
- The DICOM window centre and width are not modelled, because the conversion never uses them.
- dcm4che parsing is not modelled: the attributes are given.
- Cache-directory handling, temp-file naming and file deletion are not modelled.
- `getProcessedImage`, `getAllFiles`, `cleanupTemporary` and `getFileName` are not modelled, because they are I/O.
- The app's own `Model.ROI` class is not part of this model. ROIs use the domain ROI, whose score and slice index default to 0.
- Fuzzy.NeighborsInImage and the fuzzy connectedness proofs require the ROI to lie inside the image. The source bounds neighbours by the ROI only, so a ROI past the edge would read another row or throw. Every caller clamps its boxes first, so this case is not modelled.
- Decimal.ParseLong accepts the ASCII digits only. Kotlin's `toLong` also accepts other Unicode decimal digits, which the app's own labels never contain.
- CoordinatorStrategy.DistributeTasks does not model 32-bit wrap-around of `(index + 1) * slicesPerWorker - 1`. It would only wrap for a study near 2³¹ slices.
- NativeOps.DoOps: requires ops ≤ 2³¹−1, because beyond that the `int` counter overflows, which is undefined behaviour in C++.

## Findings

| source | as written | input that shows it | evidently intended | confidence | as-written member | corrected member |
|---|---|---|---|---|---|---|
| network/src/main/java/com/example/network/coordinator/VolumeEstimateCoordinatorStrategy.kt:62-111 | Ranges use k = ⌈total/n⌉, so trailing workers can get an empty range, and `aggregateResults` calls `first()` on every range | 5 slices, 4 workers: k = 2, worker 3 gets 6..4, so `start` fails even though all four answer | Idle workers are left out of the merge, and the study is answered in full | not executed | CoordinatorStrategy.FiveSlicesFourWorkers | CoordinatorStrategy.SkippingIdleSucceeds |
| app/src/main/java/com/example/demoapp/Core/ParallelRoiPredictor.kt:117-122 | The parallel ROI is built without its confidence, so its score is the default 0, and the result screen keeps only ROIs scoring above 0.3 | Any study recalculated in Parallel mode: every ROI has score 0 and the filtered study is empty | The ROI carries the best anchor's confidence, as the sequential predictor does | not executed | ResultScreen.ParallelRecalculationKeepsNothing | ResultScreen.ScoredParallelKeepsConfident |
