# A Dafny model of the CLEV2ER land-ice chain

CLEV2ER runs radar-altimetry files through a chain of algorithms. This project models the parts of
that framework whose correctness is not visible in any one function, and proves what they promise:

- `GridLookup`, `TiledStore`: the two ways of interpolating a gridded DEM (whole flipped grid in
  memory; tiled, pre-flipped store read through a window) give the same answer, and exactly when the
  two ways of loading a raster feed them the same grid.
- `Chain`, `ChainObjects`, `Chunks`, `ChainProcesses`: the chain controller. The sequential run is
  proved against a specification; the multi-process run is a state machine over its steps with any
  interleaving, and it ends with the sequential run's counts.
- `StableSort`, `LogOrder`, `ProcessLog`: the interleaved log of the processes, written by a log
  process of its own and sorted back by file number.
- `SharedSegments`: the attach-or-create, close-or-unlink protocol of the shared-memory segments.
- `Axes`, `DemCrop`, `Lepta`: the LEPTA geolocation, from the DEM crop to the height.
- `Corrections`: surface type, CATS tide and geo-corrections, which pass data through the shared
  dictionary.
- `LeapSeconds`, `Breakpoints`, `MaskGrid`, `Smoothing`, `Uncertainty`: leap seconds, the breakpoint
  file's dimension registry, mask lookup, the smoothing filter and the uncertainty table.

Arithmetic is over exact reals and unbounded integers. `Num` is a float cell that may be NaN. Code
that updates objects or arrays in place is modelled with classes, arrays and loops; pure code with
functions. Behaviour that comes from outside (an algorithm's `process()`, map projections, medians,
the interpolation kernel, square root) is a parameter.

Where a promise does not hold of the code, the code is kept as it is. Each of these has a failing
input and the exact condition under which the promise holds:

- `load_geotiff` tests `np.any` on the index arrays of the void cells, so a raster whose only void
  cell is its first one is not cleaned (`CornerVoidIsKept`; exactly when: `LoadersAgree`).
- `get_segment` always drops the DEM's last row and column (`LastColumnIsLost`; `PostingKeptIff`).
- An `init()` that fails is ignored in sequential mode and ends the file in a child process, and a
  `finalize()` that raises spoils a child's result, and the end of a sequential run: the two modes agree on every file, and on every
  run's counts, exactly when every `init()` and `finalize()` succeeds (`OneFailureSeparatesModes`;
  `SameResultIff`, `SameCountsIff`).
- A `finalize()` that raises after a refused file makes the child queue two results
  (`RefusedFileQueuesTwice`; `QueueIsResultIff`).
- A child whose file raised finalises nothing (`CrashedChildFinalizesNothing`; the last clause of
  `RunChainOnSingleFile`).
- An `init()` that raises while a sequential run loads leaves the instances before it initialised and
  never finalised, unless there are none (`ThrowingInitLeaksInstance`; the last clause of
  `RunSequential`).
- An empty file list raises in multi-process mode, and only that (`SplitFiles`).
- The log is sorted when every child is joined, but nobody waits for the log process: a schedule can
  leave the sorted log empty, and it is whole exactly when everything was written by then
  (`LogCanBeEmpty`; `SortedLogIff`).
- A log message of several lines has its file number on the first one only, so the traceback of a
  crashed file leaves its place when the log is sorted (`CrashBreaksOrder`; `SortedLogIff`, and for
  any interleaving of arbitrary streams `SortedForEveryArrivalIff`).
- A second `clean_up` of a creator can unlink another object's live segment
  (`SecondCleanUpStealsSegment`; `CleanUpAgainHarmlessIff`).
- An object that attaches between another's create and its copy maps data that is not there yet
  (`AttachBeforeCopy`; `AttachSeesCompleteDataIff`).
- `tai2utc(utc2tai(u))` loses the leap seconds from before the epoch (`RoundTripLosesPreEpochLeaps`;
  `RoundTripIff`, and over the table itself `TableRoundTripIff`).
- A southern track with Lake Vostok records and no other ice or land is skipped although it has
  grounded ice after renumbering (`VostokTrackIsSkipped`; `SkipMatchesRenumberedTypesIff`).
- `points_inside` counts a point once per listing of its basin (`ListedTwiceCountsTwice`;
  `CountIsRightIff`).
- The breakpoint writer creates a dimension in the group where its extent is first met, where an
  array visited later may not see it (`LaterArrayCannotSeeDimension`; `VisibleIff`).
- `fastsmooth` leaves its last output at 0, except that a width of 1 wraps round to it (`LastOutput`),
  and centres an odd window only for widths 3, 7, 11, ... (`CentredIff`).

## Model

| member | source | states |
|---|---|---|
| `GridLookup.SearchSorted` | src/clev2er/utils/dems/dems.py:934-935 | the insertion point splits the axis into nodes before and after the query |
| `GridLookup.WindowKeepsBounds` | src/clev2er/utils/dems/dems.py:934-950 | the widened window contains a query exactly when the whole axis does |
| `GridLookup.SearchInWindow` | src/clev2er/utils/dems/dems.py:934-950 | searching the window gives the whole axis's insertion point, shifted and clipped |
| `GridLookup.WindowKeepsSlot` | src/clev2er/utils/dems/dems.py:937-959 | the cell chosen inside the window is the cell chosen on the whole axis, under either node convention |
| `GridLookup.WindowLookupAgrees` | src/clev2er/utils/dems/dems.py:929-963 | one query interpolated on the sub-grid equals the same query on the whole grid, for every kernel, on-node and off-grid included |
| `GridLookup.Extremes` | src/clev2er/utils/dems/dems.py:929-931 | the bounding box is attained and bounds every valid query |
| `GridLookup.ChunkedInterpolation` | src/clev2er/utils/dems/dems.py:901-968 | every entry of the filled result array, NaN queries included, is the whole-grid answer |
| `GridLookup.InterpDem` | src/clev2er/utils/dems/dems.py:1005-1020 | in both branches a NaN or off-grid query gives NaN, any other the kernel's value on the raster's own cells around (y, x), and with the nearest kernel a query on a node gives the cell stored there |
| `GridLookup.FlippedAnswers` | src/clev2er/utils/dems/dems.py:1013-1020 | looking a query up in the flipped grid answers it on the raster as stored, rows from the top down |
| `GridLookup.NearestIsNearest` | src/clev2er/utils/dems/dems.py:1013-1020 | the nearest kernel returns the corner that no other is nearer than, the lower one on a tie |
| `GridLookup.NearestReturnsNode` | src/clev2er/utils/dems/dems.py:1013-1020 | a nearest-method query on a grid node returns the cell stored there |
| `TiledStore.WriteTile` | src/clev2er/utils/dems/geotiff_to_zarr.py:126-144 | a tile writes its own elements once in the store and, mirrored, in the flipped store, and nothing else |
| `TiledStore.WriteBands` | src/clev2er/utils/dems/geotiff_to_zarr.py:125-144 | the tiled loops write every element of both stores exactly once |
| `TiledStore.Convert` | src/clev2er/utils/dems/geotiff_to_zarr.py:98-144 | for any raster and chunk sizes of at least 1 each element of both stores is written once with the source cell, NaN where it is masked or void, mirrored in the flipped store; a zero chunk size raises |
| `TiledStore.CleanLoaded` | src/clev2er/utils/dems/dems.py:332-336 | in-place cleaning turns a cell to NaN exactly if it holds the void value, that value is set and not 0, and some void cell is not the first one |
| `TiledStore.LoadersAgree` | src/clev2er/utils/dems/dems.py:332-336 | the in-memory grid equals the converter's grid exactly when there is no void value, or masked cells are void or NaN and the voids are not a lone first cell or the value 0 |
| `TiledStore.CornerVoidIsKept` | src/clev2er/utils/dems/dems.py:333-336 | a raster whose only void cell is its first one keeps it in memory but not in the store |
| `TiledStore.BranchesAgreeIff` | src/clev2er/utils/dems/dems.py:1009-1020 | the two branches answer every query alike, under every kernel, exactly when the loaders cleaned the same cells |
| `Chain.QueueIsResultIff` | src/clev2er/tools/run_chain.py:267-304 | a child queues just its file's result unless a finalize raises after the file ended normally; it queues two exactly when that file was refused |
| `Chain.RefusedFileQueuesTwice` | src/clev2er/tools/run_chain.py:266-296 | a refused file whose clean-up raises puts both its own error and the exception on the queue |
| `Chain.FileEndsAs` | src/clev2er/tools/run_chain.py:244-296 | after m algorithms that each worked on the dictionary the one before left, the next one's init, process and breakpoint decide how the file ends and what was initialised |
| `Chain.EveryFilePasses` | src/clev2er/tools/run_chain.py:244-283 | every file that opens runs in that way up to the algorithm that ends it |
| `Chain.UnopenedFileCrashes` | src/clev2er/tools/run_chain.py:238-299 | a file that cannot be opened crashes with nothing initialised |
| `Chain.ResultSpelledOut` | src/clev2er/tools/run_chain.py:276-304 | the pair each ending gives, and that it is all a child queues if no finalize raises |
| `Chain.QueueSpelledOut` | src/clev2er/tools/run_chain.py:266-304 | what a child queues when finalize of algorithm k is the first that raises |
| `Chain.SameResultIff` | src/clev2er/tools/run_chain.py:244-304 | whatever the algorithms do otherwise, a child queues just the sequential result for every file exactly when every init and finalize succeeds |
| `Chain.OneFailureSeparatesModes` | src/clev2er/algorithms/base/base_alg.py:57-120 | one init that returns False, or one finalize that raises, is a success in sequential mode and an error in a child |
| `Chain.TalliesAgree` | src/clev2er/tools/run_chain.py:534-540 | counting a queued result adds what counting the sequential result adds |
| `Chain.FilesRun` | src/clev2er/tools/run_chain.py:558-589 | the number of files run is all of them, or one past the first error when stopping on errors |
| `Chain.TotalsCountFiles` | src/clev2er/tools/run_chain.py:570-589 | processed counts every file run, and errors is non-zero exactly when a file failed without asking to be skipped |
| `Chain.SaysSkipIff` | src/clev2er/tools/run_chain.py:572-572 | a result asks to skip exactly when its error contains SKIP_OK |
| `Chain.TotalsAreNumbersOfFiles` | src/clev2er/tools/run_chain.py:568-589 | the three counts are the numbers of files that failed, ran, and failed asking to be skipped |
| `Chain.StopsAtFirstError` | src/clev2er/tools/run_chain.py:570-583 | with stop_on_error the processed count is the index of the first error plus one, or all files |
| `ChainObjects.BaseAlgorithm.constructor` | src/clev2er/algorithms/base/base_alg.py:44-58 | an instance is initialised at construction exactly in sequential mode or as a shared-memory instance |
| `ChainObjects.BaseAlgorithm.ProcessSetup` | src/clev2er/algorithms/base/base_alg.py:112-131 | in multi-processing mode set-up initialises, or returns the init error or raises its exception and does not; an input that is not a Dataset fails |
| `ChainObjects.FinalizeInitialized` | src/clev2er/tools/run_chain.py:272-274 | the initialised instances up to and including the first that raises are finalised once, no other is |
| `ChainObjects.EndChild` | src/clev2er/tools/run_chain.py:267-303 | what a child queues, returns and finalises when its file is refused or completed, whether or not a finalize raises |
| `ChainObjects.RunAlgorithms` | src/clev2er/tools/run_chain.py:236-283 | the loop ends a file as specified and leaves exactly the algorithms it set up initialised |
| `ChainObjects.RunChainOnSingleFile` | src/clev2er/tools/run_chain.py:180-304 | the result, the queue, and each instance's finalize calls for every way a file can end; all is finalised as it should be exactly when nothing was initialised, or the file did not raise and no finalize but the last did |
| `ChainObjects.CrashedChildFinalizesNothing` | src/clev2er/tools/run_chain.py:291-299 | a file that raises in its first algorithm leaves it initialised and never finalised |
| `ChainObjects.Load` | src/clev2er/tools/run_chain.py:393-450 | one instance per algorithm, initialised only in sequential mode, plus initialised shared-memory instances; it fails exactly when an init it calls raises, and then finalises the shared-memory instances once |
| `ChainObjects.FinalizeAll` | src/clev2er/tools/run_chain.py:599-605 | every initialised instance of both lists is finalised once, no other instance is |
| `ChainObjects.RunSequential` | src/clev2er/tools/run_chain.py:393-623 | the counts and success flag of a sequential run, one error and no file if an init raises; every instance is finalised once, exactly when loading went through or made no instance |
| `ChainObjects.ThrowingInitLeaksInstance` | src/clev2er/tools/run_chain.py:411-415 | a chain whose second init raises, so that loading stops with one instance made |
| `ChainObjects.RunParentOfProcesses` | src/clev2er/tools/run_chain.py:428-445 | in multi-processing mode the parent finalises its shared-memory instances once and its other instances never, also when loading fails |
| `Chunks.NumChunks` | src/clev2er/tools/run_chain.py:488-488 | the number of chunks is the least that fits the process limit |
| `Chunks.SizesFit` | src/clev2er/tools/run_chain.py:488-490 | chunks are non-empty, within the limit, and differ in size by at most one |
| `Chunks.SplitFiles` | src/clev2er/tools/run_chain.py:488-496 | the chunks concatenate to 0..n-1, cut at the stated bounds, never growing in size; no files at all raises, and nothing else does |
| `ChainProcesses.BoundsAreChunks` | src/clev2er/tools/run_chain.py:488-496 | chunk i of the state machine has just the files of the i-th chunk of the split, never more than the limit |
| `ChainProcesses.AdvanceOk` | src/clev2er/tools/run_chain.py:244-304 | a child's step keeps it on the path of its file run alone, log included |
| `StableSort.LogGrows` | src/clev2er/tools/run_chain.py:344-351 | one more record from any child keeps the log an interleaving of what the children sent |
| `ChainProcesses.NextKeepsInv` | src/clev2er/tools/run_chain.py:492-547 | every step of the parent or of any child keeps the run's invariant |
| `ChainProcesses.NeverStuck` | src/clev2er/tools/run_chain.py:526-540 | a run that has not joined every child can take another step, whatever the log process does |
| `ChainProcesses.OneChunkAlive` | src/clev2er/tools/run_chain.py:492-530 | a child that has started and is not joined belongs to the chunk started last, so the process limit holds at all times |
| `ChainProcesses.RunsEnd` | src/clev2er/tools/run_chain.py:526-540 | every schedule, writing included, is finite and bounded by the work it starts with |
| `ChainProcesses.CompleteWithoutWriting` | src/clev2er/tools/run_chain.py:477-550 | from any reachable state every child can be joined before the log process writes another record |
| `ChainProcesses.SameCountsAsSequential` | src/clev2er/tools/run_chain.py:530-623 | every complete multi-process run has the sequential run's error, processed and skipped counts, and succeeds exactly when no file has an error |
| `ChainProcesses.SameCountsIff` | src/clev2er/tools/run_chain.py:530-623 | all multi-process runs of all such chains have the sequential counts exactly when every init and finalize succeeds |
| `ChainProcesses.RunCountsResults` | src/clev2er/tools/run_chain.py:526-540 | whatever init and finalize do, a complete run counts exactly the results its children queued: errors, all, and those asking to skip |
| `ProcessLog.LogInterleavesTexts` | src/clev2er/tools/run_chain.py:344-351 | the lines of the records that a complete run's children have sent interleave the lines each file logs on its own |
| `ProcessLog.CompletedLogIs` | src/clev2er/tools/run_chain.py:229-289 | a file that gets through logs its greeting, what each algorithm says and what finalize says |
| `ProcessLog.RefusedLogIs` | src/clev2er/tools/run_chain.py:250-275 | a refused file logs the refusal between the two |
| `ProcessLog.CrashedLogIs` | src/clev2er/tools/run_chain.py:250-293 | a file that raises logs the exception and nothing after it |
| `ProcessLog.BreakpointLogIs` | src/clev2er/tools/run_chain.py:278-296 | a file that ends at a breakpoint logs likewise, with finalize's messages or the exception of the write |
| `ProcessLog.UnopenedLogIs` | src/clev2er/tools/run_chain.py:238-293 | a file that cannot be opened logs its greeting and the exception |
| `ProcessLog.RefusalIs` | src/clev2er/tools/run_chain.py:252-265 | the text about a refused file, by whether its error asks to skip |
| `ProcessLog.LastWordsAre` | src/clev2er/tools/run_chain.py:272-289 | without an exception every finalize has its say |
| `ProcessLog.LastWordsStop` | src/clev2er/tools/run_chain.py:272-293 | with one, those up to it have, and the exception follows |
| `ProcessLog.SortedTooEarly` | src/clev2er/tools/run_chain.py:545-551 | a log sorted before the log process is through lacks lines, on every schedule |
| `ProcessLog.SortedLogIff` | src/clev2er/tools/run_chain.py:1250-1259 | on every schedule: if every line a message goes on with carries its file's number, the sorted log is each file's own log in file order exactly when all was written by then; if none carries a later number, exactly when both hold |
| `ProcessLog.LogCanBeEmpty` | src/clev2er/tools/run_chain.py:1250-1259 | every job that logs anything has a complete schedule after which the sorted log is empty |
| `ProcessLog.LogCatchesUp` | src/clev2er/tools/run_chain.py:344-351 | any complete run goes on, by writing alone, to one with everything written and the same counts |
| `ProcessLog.StrayLineBreaksOrder` | src/clev2er/tools/run_chain.py:96-114 | on every schedule, one continuation line with a lower number or none loses the order |
| `ProcessLog.CrashIsLogged` | src/clev2er/tools/run_chain.py:291-293 | the message of a crash, traceback included, is a record of its file's log |
| `ProcessLog.CrashBreaksOrder` | src/clev2er/tools/run_chain.py:291-293 | any run in which a file but the first raises, with an untagged line in the traceback, ends with its sorted log out of order |
| `StableSort.InsertIsStable` | src/clev2er/tools/run_chain.py:111-111 | an insertion keeps the order within every key |
| `StableSort.Sort` | src/clev2er/tools/run_chain.py:111-111 | the result is ordered by key and keeps the order within every key |
| `StableSort.ClassInterleaves` | src/clev2er/tools/run_chain.py:344-351 | the lines of one key in an interleaving interleave those lines of the streams |
| `StableSort.AlikeMergeIsConcat` | src/clev2er/tools/run_chain.py:344-351 | streams whose lines cannot be told apart from one another's have one interleaving |
| `StableSort.StableSortIsUnique` | src/clev2er/tools/run_chain.py:108-114 | key-sorted texts with the same key classes are the same text |
| `StableSort.SortedForEveryArrivalIff` | src/clev2er/tools/run_chain.py:102-114 | every arrival order sorts to the streams in order exactly when those are sorted one after the other and lines of different streams that share a key are the same |
| `StableSort.SortUndoesInterleaving` | src/clev2er/tools/run_chain.py:102-114 | every stable sort of every interleaving of tagged streams is the streams in file order |
| `StableSort.OpenedSortsIffTagged` | src/clev2er/tools/run_chain.py:102-114 | for streams that open with their own key and have none above it, any one interleaving sorts to the streams in order exactly when every line is tagged |
| `StableSort.LowerKeyMovesUp` | src/clev2er/tools/run_chain.py:102-114 | a line whose key is below its stream's first breaks that order in every interleaving |
| `LogOrder.ParseOfDecimal` | src/clev2er/tools/run_chain.py:96-98 | parsing a printed file number returns it |
| `LogOrder.ParsePositional` | src/clev2er/tools/run_chain.py:96-98 | digits are read in positional notation |
| `LogOrder.NoLeadingZero` | src/clev2er/tools/run_chain.py:214-220 | numbers are printed without leading zeros |
| `LogOrder.TagAtIff` | src/clev2er/tools/run_chain.py:96-96 | a tag stands at a position exactly when [f, at least one digit and ] do |
| `LogOrder.NoEarlierTag` | src/clev2er/tools/run_chain.py:96-99 | no match can start in a tag-free prefix and run into the tag that follows |
| `LogOrder.KeyOfTagged` | src/clev2er/tools/run_chain.py:87-99 | the key of a line is the number of its tag, after any prefix without a tag and before any text |
| `LogOrder.NoTagKey` | src/clev2er/tools/run_chain.py:96-99 | a line without a tag has key 0 |
| `LogOrder.FormattedIs` | src/clev2er/tools/run_chain.py:214-214 | the text of a record: header, tag, a blank, message |
| `LogOrder.ReadLinesAppend` | src/clev2er/tools/run_chain.py:108-109 | the lines of a text that ends in a newline do not depend on what follows it |
| `LogOrder.LinesHaveNoBreak` | src/clev2er/tools/run_chain.py:108-109 | no line contains a line break |
| `LogOrder.WrittenOfRead` | src/clev2er/tools/run_chain.py:108-114 | reading a text of newlines and writing the lines back gives the text |
| `LogOrder.ReadCarriageReturn` | src/clev2er/tools/run_chain.py:108-109 | a carriage return ends a line |
| `LogOrder.ReadReturnAndNewline` | src/clev2er/tools/run_chain.py:108-109 | together with a newline after it, it is one line end |
| `LogOrder.LinesInterleave` | src/clev2er/tools/run_chain.py:344-351 | if records interleave, so do the lines they take up in the file |
| `LogOrder.FirstLineIsTagged` | src/clev2er/tools/run_chain.py:214-221 | the first line of a record carries its file's number, whatever the message |
| `LogOrder.SortLog` | src/clev2er/tools/run_chain.py:102-114 | the rewritten log is a stable sort of the file's lines by the number of the first tag |
| `LogOrder.UntaggedContinuation` | src/clev2er/tools/run_chain.py:96-99 | a line without a tag that a message goes on with is a later line of its record and sorts as file 0 |
| `SharedSegments.SharedArray.TryAttach` | src/clev2er/utils/dems/dems.py:301-310 | attaching takes the linked segment and marks the object a child, or is missed |
| `SharedSegments.SharedArray.TryCreate` | src/clev2er/utils/dems/dems.py:316-317 | creating links a new segment, or fails if the name was linked meanwhile |
| `SharedSegments.SharedArray.CopyIn` | src/clev2er/utils/dems/dems.py:319-323 | the copy completes the object's own segment |
| `SharedSegments.SharedArray.CleanUpOnce` | src/clev2er/utils/dems/dems.py:213-229 | an attached object only closes, a creator also unlinks its name |
| `SharedSegments.NextKeepsOneOwner` | src/clev2er/utils/masks/masks.py:580-618 | every step keeps exactly one live creator per linked name, holding the linked segment |
| `SharedSegments.NextKeepsInv` | src/clev2er/utils/masks/masks.py:580-618 | the same, with segments never shared, reused, or filled before their copy |
| `SharedSegments.ExactlyOneCreator` | src/clev2er/utils/dems/dems.py:298-325 | in every state of every run each linked segment has exactly one live creator |
| `SharedSegments.OnlyCreatorsUnlink` | src/clev2er/utils/masks/masks.py:847-859 | a name is unlinked only by the clean-up of its segment's creator |
| `SharedSegments.NothingLeftLinked` | src/clev2er/utils/masks/masks.py:843-869 | once every object is cleaned up nothing remains linked |
| `SharedSegments.CleanUpAgainHarmlessIff` | src/clev2er/utils/dems/dems.py:217-229 | a repeated clean-up keeps the invariant exactly when the object only attached or its name is free |
| `SharedSegments.SecondCleanUpStealsSegment` | src/clev2er/utils/dems/dems.py:217-229 | a run in which a second clean-up unlinks another object's live segment |
| `SharedSegments.AttachSeesCompleteDataIff` | src/clev2er/utils/dems/dems.py:301-323 | an attached object sees complete data exactly when the creator has made its copy |
| `SharedSegments.AttachBeforeCopy` | src/clev2er/utils/dems/dems.py:301-323 | a run in which an object attaches to a segment that is not filled |
| `Axes.LinspaceSteps` | src/clev2er/utils/dems/dems.py:268-270 | the axis of n pixels has steps longer than a pixel and at most twice as long |
| `Axes.LinspaceEnds` | src/clev2er/utils/dems/dems.py:268-270 | the axis starts and ends at the given values |
| `DemCrop.LoadedDemIsValid` | src/clev2er/utils/dems/dems.py:338-343 | the loaders' axes meet the crop's hypotheses for any raster of at least 2 by 2 pixels |
| `DemCrop.IndexKeptIff` | src/clev2er/utils/dems/dems.py:871-881 | a column under the beam is kept exactly when it is not the last one |
| `DemCrop.FallingIndexKeptIff` | src/clev2er/utils/dems/dems.py:873-882 | a row under the beam is kept exactly when it is not the last one |
| `DemCrop.PostingKeptIff` | src/clev2er/utils/cs2/geolocate/geolocate_lepta.py:254-265 | a posting nearer to nadir than half the beam width is lost exactly in the DEM's last row or column |
| `DemCrop.LastColumnIsLost` | src/clev2er/utils/dems/dems.py:871-882 | a posting at nadir in the last of two columns is lost |
| `DemCrop.NothingLostInside` | src/clev2er/utils/cs2/geolocate/geolocate_lepta.py:254-265 | no such posting is lost when the crop bounds lie inside the DEM |
| `Lepta.InBeamIsUnderBeam` | src/clev2er/utils/cs2/geolocate/geolocate_lepta.py:282-290 | the three-dimensional beam test implies the horizontal one |
| `Lepta.ToSatIs` | src/clev2er/utils/cs2/geolocate/geolocate_lepta.py:24-59 | the distance to the satellite is the straight-line one |
| `Lepta.InBeamIff` | src/clev2er/utils/cs2/geolocate/geolocate_lepta.py:282-290 | the beam test is that the squared distance to the DEM surface at nadir is below the squared half width |
| `Lepta.SurvivorIff` | src/clev2er/utils/cs2/geolocate/geolocate_lepta.py:254-319 | a DEM posting survives exactly when it is in the beam, below 5000 m and not in the last row or column |
| `Lepta.SurvivorIsPosting` | src/clev2er/utils/cs2/geolocate/geolocate_lepta.py:263-319 | every survivor is a posting of the DEM |
| `Lepta.SurvivorsAreDistinct` | src/clev2er/utils/cs2/geolocate/geolocate_lepta.py:263-319 | no posting survives twice |
| `Lepta.SurvivesIff` | src/clev2er/utils/cs2/geolocate/geolocate_lepta.py:263-319 | a DEM posting that passes the filters survives exactly when it is not in the last row or column |
| `Lepta.WindowNonEmptyIff` | src/clev2er/utils/cs2/geolocate/geolocate_lepta.py:369-400 | with a surviving posting the possibly moved window is non-empty exactly for a non-negative offset |
| `Lepta.ShiftedWindowHasNearest` | src/clev2er/utils/cs2/geolocate/geolocate_lepta.py:381-424 | after a move, minimum-distance selection returns the nearest of all survivors |
| `Lepta.UnshiftedWindowIsClose` | src/clev2er/utils/cs2/geolocate/geolocate_lepta.py:370-379 | an unmoved window holds only postings within the offset of the retracking point |
| `Lepta.RetrackWindowIs` | src/clev2er/utils/cs2/geolocate/geolocate_lepta.py:369-393 | the window is all survivors within the offset of the retracking point or, if there is none, within twice the offset beyond the nearest |
| `Lepta.RetrackingFixesIff` | src/clev2er/utils/cs2/geolocate/geolocate_lepta.py:369-400 | in retracking-point mode with finite ranges a record with a survivor fails exactly for a negative offset |
| `Lepta.LeadingEdgeWindow` | src/clev2er/utils/cs2/geolocate/geolocate_lepta.py:349-363 | in leading-edge mode the window is the survivors whose range bin lies on the leading edge |
| `Lepta.LeadingEdgeFixesIff` | src/clev2er/utils/cs2/geolocate/geolocate_lepta.py:349-400 | a record is then fixed exactly when some survivor's bin lies on the leading edge |
| `Lepta.LeadingEdgeHeight` | src/clev2er/utils/cs2/geolocate/geolocate_lepta.py:349-482 | with minimum-distance selection its height minus z lies between the leading edge's start and stop, in metres from the reference bin, minus the retracker correction |
| `Lepta.SelectedPoint` | src/clev2er/utils/cs2/geolocate/geolocate_lepta.py:408-466 | which point, height and slope correction each selection switch gives |
| `Lepta.UnusedRecord` | src/clev2er/utils/cs2/geolocate/geolocate_lepta.py:244-252 | a record that is left out keeps its flag and nadir position |
| `Lepta.FailedRecord` | src/clev2er/utils/cs2/geolocate/geolocate_lepta.py:288-400 | a record without survivors, or with none in its window, loses its flag and keeps its nadir position |
| `Lepta.FixRaisesIff` | src/clev2er/utils/cs2/geolocate/geolocate_lepta.py:394-459 | a record raises exactly when it has survivors and no window method, or a filled window and no method for the point |
| `Lepta.LocateRecord` | src/clev2er/utils/cs2/geolocate/geolocate_lepta.py:244-466 | the staged loop body with its early exits gives the record's fix, or raises |
| `Lepta.FillTrack` | src/clev2er/utils/cs2/geolocate/geolocate_lepta.py:468-496 | heights, positions and slope_ok of every record follow from its fix |
| `Lepta.Geolocate` | src/clev2er/utils/cs2/geolocate/geolocate_lepta.py:134-546 | the track raises exactly when some record does, otherwise every record gets its height and position |
| `Lepta.MinDistanceFix` | src/clev2er/utils/cs2/geolocate/geolocate_lepta.py:418-466 | with minimum-distance selection the POCA is the window's posting nearest to the satellite |
| `Lepta.SlopeCorrectionBounds` | src/clev2er/utils/cs2/geolocate/geolocate_lepta.py:461-466 | the slope correction lies between 0 and W*W / (8 * (altitude - z)) |
| `Lepta.RecordSlopeBounds` | src/clev2er/utils/cs2/geolocate/geolocate_lepta.py:244-466 | the same for every fixed record of the track |
| `Lepta.HeightOfFix` | src/clev2er/utils/cs2/geolocate/geolocate_lepta.py:369-482 | the height is z plus distance minus retracked range; within the offset of z if the window was not moved, and from the nearest survivor if it was |
| `Lepta.HeightIff` | src/clev2er/utils/cs2/geolocate/geolocate_lepta.py:474-496 | a record has height h exactly on grounded ice with a projected fix, and h is altitude minus retracked range plus slope correction |
| `Lepta.PlaceIs` | src/clev2er/utils/cs2/geolocate/geolocate_lepta.py:468-496 | its position is the projected fix, or nadir without one |
| `Corrections.Renumber` | src/clev2er/algorithms/cryotempo/alg_surface_type.py:193-212 | the successive in-place writes map every source type once, as if simultaneously |
| `Corrections.SurfaceType` | src/clev2er/algorithms/cryotempo/alg_surface_type.py:171-250 | when it fails, skips or succeeds, and for each location array which mask values its records have |
| `Corrections.LocationsPartition` | src/clev2er/algorithms/cryotempo/alg_surface_type.py:240-250 | with source values 0..4 each record is in exactly one location array |
| `Corrections.SkipMatchesRenumberedTypesIff` | src/clev2er/algorithms/cryotempo/alg_surface_type.py:208-232 | a skipped track has no ice or land after renumbering unless it is southern and has Lake Vostok records |
| `Corrections.VostokTrackIsSkipped` | src/clev2er/algorithms/cryotempo/alg_surface_type.py:208-232 | a southern track with a Lake Vostok record alone counts as without ice, though it is renumbered to grounded ice |
| `Corrections.CatsTide` | src/clev2er/algorithms/cryotempo/alg_cats2008a_tide_correction.py:121-214 | exactly when it succeeds, fails and raises; the tide is required exactly on success over southern SIN water, and its array is then the file's, NaN as 0 |
| `Corrections.AddOverWater` | src/clev2er/algorithms/cryotempo/alg_geo_corrections.py:165-176 | the two masked additions add each water record's terms once and leave the others |
| `Corrections.AddOceanTerms` | src/clev2er/algorithms/cryotempo/alg_geo_corrections.py:158-191 | each sum is base plus one copy of its ocean terms; it succeeds exactly when every array that water calls for was loaded |
| `Corrections.BaseAddsUp` | src/clev2er/algorithms/cryotempo/alg_geo_corrections.py:126-152 | the base part is the sum of the dry, wet, ionospheric, solid earth and pole terms at the record's 1 Hz index and its load tide, NaN exactly if one of them is |
| `Corrections.SumSpelledOut` | src/clev2er/algorithms/cryotempo/alg_geo_corrections.py:145-191 | a record's sum as the list of its terms, by the mask value, hemisphere and mode |
| `Corrections.GeoCorrections` | src/clev2er/algorithms/cryotempo/alg_geo_corrections.py:100-205 | exactly when it succeeds, fails and raises, and the stored sums and invalid locations |
| `Corrections.TideThenSum` | src/clev2er/algorithms/cryotempo/alg_geo_corrections.py:115-191 | the same for the last two algorithms on a track whose types are stored |
| `Corrections.RunCorrections` | src/clev2er/algorithms/cryotempo/alg_geo_corrections.py:115-191 | exactly when the three algorithms in a row succeed, skip and raise; the CATS tide is required exactly for southern SIN water; every record's sum is that of its six base terms and one copy of the DAC, FES or tide-file values its mask value, hemisphere and mode call for |
| `LeapSeconds.Grain.Load` | src/clev2er/utils/time/grain.py:35-51 | the parsed table is stored as times with changes of offset |
| `LeapSeconds.EntriesAppend` | src/clev2er/utils/time/grain.py:37-44 | entries are kept in file order and comments add none |
| `LeapSeconds.TableOffsetIs` | src/clev2er/utils/time/grain.py:37-51 | the table's offset at an instant is that of the last entry not later, 0 before the first |
| `LeapSeconds.Utc2TaiIs` | src/clev2er/utils/time/grain.py:66-73 | utc2tai is the whole seconds of UTC since the epoch plus leaps, for any instant, and raises exactly before the epoch |
| `LeapSeconds.Tai2UtcRaisesIff` | src/clev2er/utils/time/grain.py:75-85 | tai2utc raises exactly before the NTP epoch |
| `LeapSeconds.SumTelescopes` | src/clev2er/utils/time/grain.py:46-64 | summing the changes up to a date gives the table's cumulative offset there |
| `LeapSeconds.InvertsCumulativeOffsetIff` | src/clev2er/utils/time/grain.py:75-85 | tai2utc inverts UTC plus cumulative offset exactly when no leap lies between the two instants |
| `LeapSeconds.RoundTripExact` | src/clev2er/utils/time/grain.py:66-85 | the exact value of tai2utc(utc2tai(u)) for whole-second u from the epoch on |
| `LeapSeconds.RoundTripIff` | src/clev2er/utils/time/grain.py:66-85 | it is u minus the pre-epoch offset exactly when no leap is between, and u exactly when none is before the epoch either |
| `LeapSeconds.InvertsTableOffsetIff` | src/clev2er/utils/time/grain.py:46-85 | for any table with offsets that never fall, tai2utc inverts UTC plus the table's offset exactly when the table has the same offset at both instants |
| `LeapSeconds.TableRoundTripIff` | src/clev2er/utils/time/grain.py:46-85 | both round trip conditions, stated on the table's own offsets |
| `LeapSeconds.RoundTripLosesPreEpochLeaps` | src/clev2er/utils/time/grain.py:75-85 | with the real table's first entry the epoch comes back 10 seconds early |
| `Breakpoints.VisitsAll` | src/clev2er/utils/breakpoints/breakpoint_files.py:42-168 | the walk raises exactly on an unsupported value or an array without dimensions, and otherwise visits each array of one to three dimensions |
| `Breakpoints.AddAllIsFirstVisits` | src/clev2er/utils/breakpoints/breakpoint_files.py:55-63 | the registry holds exactly the distinct extents, each as first met, in order of first visit |
| `Breakpoints.Registry.DimensionFor` | src/clev2er/utils/breakpoints/breakpoint_files.py:55-62 | an extent gets its one registered dimension of that size, named by its position and created in the group at hand |
| `Breakpoints.Registry.CreateVariable` | src/clev2er/utils/breakpoints/breakpoint_files.py:69-102 | the new variable has its group, key and shape, dimensions of those sizes, and the registry stays consistent |
| `Breakpoints.Registry.CreateVariables` | src/clev2er/utils/breakpoints/breakpoint_files.py:28-168 | the recursive writer creates one variable per supported array, with its group and key, in visit order and raises exactly on an unsupported value |
| `Breakpoints.CreateFile` | src/clev2er/utils/breakpoints/breakpoint_files.py:170-174 | the variables are exactly the arrays of one to three dimensions, in visit order; the dimensions are their distinct extents in first-visit order named dim1, dim2, ...; every variable's dimensions match its shape, and are visible to it exactly when each extent is first met in its group or above |
| `Breakpoints.VisibleIff` | src/clev2er/utils/breakpoints/breakpoint_files.py:46-62 | with one registry for all groups, a variable sees its dimensions exactly when each extent is first met in its group or above |
| `Breakpoints.LaterArrayCannotSeeDimension` | src/clev2er/utils/breakpoints/breakpoint_files.py:46-62 | an array after a nested one of the same length is given a dimension it cannot see |
| `MaskGrid.CellIsNearest` | src/clev2er/utils/masks/masks.py:748-750 | the chosen cell's centre is within half a bin of the point |
| `MaskGrid.CellOfPoint` | src/clev2er/utils/masks/masks.py:748-756 | a point within half a bin of a cell centre has that row's and column's value, and one more than half a bin outside is off the grid |
| `MaskGrid.TieGoesToEven` | src/clev2er/utils/masks/masks.py:748-750 | a point halfway between two centres goes to the even cell |
| `MaskGrid.OccurrencesAre` | src/clev2er/utils/masks/masks.py:758-762 | a point adds to n_inside as often as its value is listed |
| `MaskGrid.PointsInside` | src/clev2er/utils/masks/masks.py:746-770 | a point is inside exactly when the value of the row and column it belongs to is listed, or positive for an empty list, and never off the grid; n_inside is the number of points inside exactly when none is listed twice, so for distinct or no basins; a NaN raises |
| `MaskGrid.GridMaskValues` | src/clev2er/utils/masks/masks.py:815-833 | each value is that of the row and column the point belongs to, or the unknown value off the grid or for a NaN x; a NaN y with a finite x raises |
| `MaskGrid.LookupsAgreeIff` | src/clev2er/utils/masks/masks.py:746-770 | points_inside is true exactly where grid_mask_values is listed, unless the unknown value is listed and a point is off the grid |
| `MaskGrid.CountIsRightIff` | src/clev2er/utils/masks/masks.py:758-766 | n_inside is the number of points inside exactly when no point's value is listed twice |
| `MaskGrid.DistinctBasinsCountRight` | src/clev2er/utils/masks/masks.py:746-766 | for distinct basins, or none, n_inside is the number of true entries |
| `MaskGrid.ListedTwiceCountsTwice` | src/clev2er/utils/masks/masks.py:758-762 | a basin listed twice counts its one point twice |
| `Smoothing.SlideWindow` | src/clev2er/utils/cs2/retrackers/fastsmooth.py:30-31 | dropping the oldest sample and adding the next gives the next window's direct sum |
| `Smoothing.RunningSums` | src/clev2er/utils/cs2/retrackers/fastsmooth.py:23-33 | every write is in range and stores the direct sum of its window |
| `Smoothing.FastSmooth` | src/clev2er/utils/cs2/retrackers/fastsmooth.py:17-45 | every output: window means, the end write and both tapers, for every width; a single sample raises |
| `Smoothing.InteriorIsWindowMean` | src/clev2er/utils/cs2/retrackers/fastsmooth.py:28-34 | an interior output is its window's mean and lies within any bounds on the window |
| `Smoothing.HeadOutputs` | src/clev2er/utils/cs2/retrackers/fastsmooth.py:38-41 | the taper at the start: means of the first 2, 3, 5, 7, ... samples |
| `Smoothing.TailOutputs` | src/clev2er/utils/cs2/retrackers/fastsmooth.py:42-44 | the taper at the end: means of the 1, 3, 5, ... samples before the last one |
| `Smoothing.EndOutput` | src/clev2er/utils/cs2/retrackers/fastsmooth.py:33-34 | the end write, where no taper covers it: the sum of the last w - 1 samples over w |
| `Smoothing.EveryOutputIsCovered` | src/clev2er/utils/cs2/retrackers/fastsmooth.py:26-45 | every output is the first, the last, in a taper, interior, or the end write |
| `Smoothing.LastOutput` | src/clev2er/utils/cs2/retrackers/fastsmooth.py:27-45 | the last output is 0 whatever the input, or the first sample for a width of 1 |
| `Smoothing.CentredIff` | src/clev2er/utils/cs2/retrackers/fastsmooth.py:26-29 | an odd window is centred on its output exactly for widths 3, 7, 11, ... |
| `Uncertainty.EndsAgree` | src/clev2er/utils/uncertainty/calc_uncertainty.py:54-65 | the overlapping writes agree at both ends of the slope range |
| `Uncertainty.CalcUncertainty` | src/clev2er/utils/uncertainty/calc_uncertainty.py:44-66 | the three masked writes give every slope its uncertainty, the first table value up to min_slope and the last from max_slope on |
| `Uncertainty.UncertaintyIsLinear` | src/clev2er/utils/uncertainty/calc_uncertainty.py:44-58 | in each band it runs in a straight line from the band's value to the next one's |
| `Uncertainty.ResultInTableRange` | src/clev2er/utils/uncertainty/calc_uncertainty.py:54-66 | only a NaN slope gives NaN, every other result lies within the table's range |
| `Uncertainty.UncertaintyMonotone` | src/clev2er/utils/uncertainty/calc_uncertainty.py:44-66 | a non-decreasing table gives a result non-decreasing in slope |

## Left out

- Reading and writing of NetCDF, GeoTIFF, Zarr, XML and YAML, log handlers, the command line: rasters, tables, messages and configurations are given values.
- Floating-point rounding: everything is over exact reals, so the `n * binsize / (n - 1)` axis and the re-centred window are exact.
- Map projections, scipy kernels beyond the choice of cell, medians, the median filter, dh/dt and Doppler terms: parameters, or switched off.
- `slopes.py` and `roughness.py`: their lookup code repeats that of `dems.py`.
- Retrackers, SIN and Roemer geolocation, waveform quality, backscatter, product output, areas and plotting.
- Exceptions of classes the chain does not catch, process kills, timers, and algorithms that cannot be imported.
- Resource-tracker behaviour of shared memory; a size mismatch between an attached segment and the expected array.
- `Breakpoints.Registry.CreateVariables`: an array is its shape alone; what the NetCDF library does with an element type it cannot store, or with a dimension that is not visible in the variable's group, is left to it (`VisibleIff` says when the latter comes up).
- `LogOrder.TagAt`: only ASCII digits count as digits, because the tags are printed by the chain itself.
- `Smoothing.FastSmooth`: widths are whole numbers, so rounding them changes nothing.
- `MaskGrid.PointsInside`: rectangular-limit masks are not modelled.
- `Corrections.GeoCorrections`: location arrays that are there are those of the track's types, and FES arrays have one value per record.
- `ProcessLog.SortedLogIff`: one log file that takes records of every level; a continuation line that quotes the number of a later file can be in order by luck of the schedule, so the second clause does not speak of it. `SortedForEveryArrivalIff` covers such lines over all interleavings of lines, of which the schedules realise only those that keep records and chunks together.
