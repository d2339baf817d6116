# Pyroclast: verified models

Pyroclast records profiles with perf, replays the recording and folds it into flamegraphs. This
project states in Dafny what its most intricate parts must do and proves it: every result below is
for all inputs, all runs or all reachable states. `dafny verify dfyconfig.toml` checks everything.

## What is modelled

**The address-map table** (`MappingRows`, `MappingFacts`, `MappingArenas`, `MappingOrders`,
`MmapIndexes`, `MmapSteps`, `MmapTables`, `FrameLookups`, `KernelRows`, `KernelPublications`,
`KernelRuns`). mmap, fork and release records are replayed twice. The simple form is a flat list of
rows: an insert keeps the survivors, appends the fragments of what it overlaps and then itself. The
real form is a slot arena with a free list and an intrusive insertion-order list, per-process
buckets sorted by start with running maximum ends, presence flags, slot caches that may be stale,
and per-sample hints and gap proofs. The classes refine the list over whole runs, the list is shown
to let the newest insert win address by address, and no cache, hint or gap proof ever changes an
answer. Publication of kernel modules has its own form on the flat list; it may break disjointness
while it runs and restores it, and runs may mix records and publications in any order.

**The owned-process supervisor and the request/response session** (`Cancellation`, `Supervisor`,
`OwnedPipes`, `OwnedRuns`, `Sessions`). The child, its pipes, the clock and the signal handlers are
scripts of arbitrary observations. Signals are sent in a disciplined order, every wait is bounded,
the group is killed before the leader is reaped, and a session answers in full or closes for good.

**Captured words from objects** (`DsoMemories`, `DsoSources`, `MappedMemories`, `Bytes`). A
4096-byte block cache under a queue of open descriptors with a limit. Each open meets the condition
next in a script: room for some number of descriptors, or a failure of another kind. Where every
condition leaves some room, eviction is invisible: all reads are the files' own words.

**The flamegraph sweep** (`FlamegraphSweep`, `FlamegraphProfile`, `Sorting`). Event sorting and an
active set charge each position to its deepest frame; inclusive weights are sizes of unions;
categories partition samples.

**Parsers that must agree** (`SampleLayouts`, `SampleParsers`, `PerfRecords`, `PerfFeatures`,
`BuildIds`, `SampleRoundTrips`, `BuildIdRoundTrips`, `FoldedStacks`, `MergeDiffs`, `LineWriters`).
Strict, metadata and folding sample parsers; whole-file and streaming build-id lookups; the literal
fast path and the full symbol normalization; streamed and map differences; bytes chopped into writes
in any way. Samples, build-id records, headers and folded entries written out are read back.

## How to read it

Code that changes state is a class or a loop, and its `ensures` ties the new state to a function of
the old one; lemmas then say what that function means. Each module is in the file of its name.
Machine widths are explicit: 64-bit wrap and saturation in `Basics`, little-endian words in `Bytes`.
Anything outside the program is a parameter: the conditions that opens meet, pipe events, clock
readings, text decoding, file names.

Two results are about where two parts of the program differ, each with a concrete input and its
exact condition:

- A reader of the feature table accepts a file without features whose table offset overflows a
  machine word; the whole-file parser refuses it (`BuildIds.OverflowingTable`). They agree on every
  other file (`PerfFeatures.SectionsAgree`, `BuildIds.FeaturesAgree`).
- The streamed difference of two folded profiles reports an entry with a zero count that the other
  side does not have; the difference of the two maps does not, since an absent stack counts as zero
  there (`MergeDiffs.EmptyExtra`). They agree exactly when there is no such entry
  (`MergeDiffs.MergeIsMapDifference`).

## Model

| member | source | states |
|---|---|---|
| `MappingArenas.MappingArena.Insert` | src/perfdata/mappings.rs:851-877 | A map takes the last freed slot or a new one and joins the end of the insertion order under the next insertion id; links, free list, live slots and slot count stay consistent with that order |
| `MappingArenas.MappingArena.Remove` | src/perfdata/mappings.rs:879-896 | The map in a slot leaves the insertion order at its own place, wherever that is, and its slot becomes free; everything else keeps its place and id |
| `MappingArenas.MappingArena.GetCursor` | src/perfdata/mappings.rs:845-850 | A cursor yields a map only if its slot is live under the very insertion id the cursor holds |
| `MappingArenas.MappingArena.Walk` | src/perfdata/mappings.rs:908-912 | Following the next links from the first slot yields exactly the live maps, in increasing insertion id |
| `MappingArenas.InsertConsistent` | src/perfdata/mappings.rs:851-877 | Linking a slot in at the end keeps: both link directions agree with one strictly id-ordered list, free and live slots partition the storage, and slot count is the peak number of live maps |
| `MappingArenas.RemoveConsistent` | src/perfdata/mappings.rs:879-896 | Unlinking any slot, first, last, only or inner, keeps the same invariant, with the slot at the end of the free list |
| `MappingOrders.RestIsSurvivors` | src/perfdata/mappings.rs:1263-1306 | Removing the overlapped slots one by one leaves exactly the survivors of the flat list, in order |
| `MappingOrders.ChosenIsFragments` | src/perfdata/mappings.rs:1263-1306 | The fragments of removed maps, taken by insertion id, are those of the flat list in its order |
| `MappingOrders.ChosenIsRowsOfPid` | src/perfdata/mappings.rs:1138-1205 | The maps a fork copies, taken by insertion id, are the parent rows of the flat list in its order |
| `MappingFacts.SplitPart` | src/perfdata/mappings.rs:1263-1306 | A split fragment lies inside the old map, ends or starts exactly at the new map, and translates every address as the old map did, 64-bit wrap included |
| `MappingFacts.SplitCovers` | src/perfdata/mappings.rs:1263-1306 | Every address of a split map outside the new map lies in some fragment: a zero-length new map inside it loses none |
| `MappingFacts.InsertOverrides` | src/perfdata/mappings.rs:1207-1261 | After an insert the new map answers at each of its own addresses of its process; every other lookup, of any process, finds the same path, identity and relative address as before |
| `MappingFacts.InsertLeavesOtherPids` | src/perfdata/mappings.rs:1207-1261 | The rows of every other process keep their contents and order |
| `MappingFacts.InsertKeepsDisjoint` | src/perfdata/mappings.rs:1207-1261 | Rows of one process never overlap, zero-length and saturating ends included, if they did not before the insert |
| `MappingFacts.RemovePidLookup` | src/perfdata/mappings.rs:1129-1136 | Removing a process unmaps exactly its addresses |
| `MappingFacts.ForkCopies` | src/perfdata/mappings.rs:1138-1205 | After a fork the child resolves as the parent does, whatever it mapped before; every other process resolves as it did |
| `MappingFacts.RunKeepsDisjoint` | src/perfdata/mappings.rs:1129-1261 | Rows stay disjoint per process over every run of mmap, fork and release records |
| `MappingFacts.NewestInsertWins` | src/perfdata/mappings.rs:1207-1261 | Over every run, a lookup finds what the newest insert covering the address in the owner chain recorded, with that insert's translation; forks and releases included |
| `MappingFacts.UserFrameFromHistory` | src/perfdata/mappings.rs:1778-1796 | A user frame is found exactly when the newest covering insert was recorded in user CPU mode; it shows that insert's object, as far from the insert's file offset as the address is from its start, modulo 2^64 |
| `MappingFacts.ScanResolves` | src/perfdata/mappings.rs:1877-1898 | With disjoint rows a resolved frame lies in the candidate that starts last, the process's own if two start together, and nothing resolves only where no candidate covers the address; its relative address is the address's distance from the map's start plus the map's file offset, modulo 2^64, or the address itself in a bracketed kernel map |
| `MappingFacts.ScanUserResolves` | src/perfdata/mappings.rs:1778-1796 | A user frame lies in a user-mode map of the process that covers the address, at the same relative address, and none is missed |
| `MappingFacts.TranslatesOnce` | src/perfdata/mappings.rs:2109-2122 | The relative address is determined by that equation alone |
| `MappingRows.MayExecuteIs` | src/perfdata/mappings.rs:2144-2182 | A map may execute unless its recorded protection lacks the execute bit or the last part of its path is perf.data or begins with perf.data and a dot |
| `MmapTables.MmapTable.SearchBucket` | src/perfdata/mappings.rs:2024-2044 | The descending search finds a map containing the address, or no map of the process contains it: then the running maximum before the insertion point is at most the address |
| `MmapTables.MmapTable.ResolveIndexForPid` | src/perfdata/mappings.rs:1933-1958 | The interval index gives what a scan of the plain list gives for one process |
| `MmapTables.MmapTable.HasOverlapping` | src/perfdata/mappings.rs:1311-1346 | The indexed overlap test holds exactly when some live map of the process overlaps the range |
| `MmapTables.MmapTable.IndexRow` | src/perfdata/mappings.rs:1348-1393 | Inserting a row into a sorted bucket, with the running-maximum update stopping early, leaves order and exact running maxima for every row |
| `MmapTables.MmapTable.RebuildPidIndex` | src/perfdata/mappings.rs:1395-1423 | A rebuilt bucket has exact running maxima and exact presence and executable flags |
| `MmapTables.MmapTable.UpdatePresence` | src/perfdata/mappings.rs:1425-1441 | The presence sets and the global flags become exactly what the process now has |
| `MmapTables.MmapTable.RemoveOverlapping` | src/perfdata/mappings.rs:1263-1309 | The table keeps the flat list's survivors, and returns its fragments in old insertion order |
| `MmapTables.MmapTable.InsertMapping` | src/perfdata/mappings.rs:1207-1261 | An insert turns the rows into survivors, fragments, then the new map, and keeps the whole representation invariant |
| `MmapTables.MmapTable.RemovePidMappings` | src/perfdata/mappings.rs:1129-1136 | A release leaves exactly the rows of the other processes, in order |
| `MmapTables.MmapTable.ClonePidMappings` | src/perfdata/mappings.rs:1138-1205 | A fork replaces the child's rows by relabelled parent rows in the parent's insertion order; a fork onto itself changes nothing |
| `MmapTables.MmapTable.Replay` | src/perfdata/mappings.rs:1129-1306 | Over every run of records the arena walked in order is the flat list's rows, and the representation invariant holds throughout |
| `MmapTables.MmapTable.HasExecutableMappingsForPid` | src/perfdata/mappings.rs:1862-1865 | The executable flags answer exactly whether the process or the global bucket has a map that may execute |
| `MmapIndexes.PrefixStops` | src/perfdata/mappings.rs:2024-2044 | A running maximum at or below the address proves that no earlier row of the bucket reaches past it |
| `MmapIndexes.SearchMisses` | src/perfdata/mappings.rs:2024-2044 | When no row before the insertion point reaches past the address, and those after it start beyond it, no live map of the process contains it |
| `MmapIndexes.NewestIsLookup` | src/perfdata/mappings.rs:1877-1898 | With disjoint rows, the row the index finds is the one the plain scan finds |
| `FrameLookups.ResolveFrame` | src/perfdata/mappings.rs:1877-1898 | The uncached lookup equals the plain scan, and with disjoint rows gives the covering candidate that starts last, local before global, at its translated address |
| `FrameLookups.ResolveFrameCached` | src/perfdata/mappings.rs:1900-1931 | Whatever a cache holds, freed or reused slots included, the cached lookup equals the plain scan: the covering candidate that starts last, at its translated address |
| `FrameLookups.ResolveUserFrameCached` | src/perfdata/mappings.rs:1778-1796 | The user-only cached lookup equals the user-only scan for every cache value: the covering user-mode map of the process, at its translated address |
| `FrameLookups.GapUnmapped` | src/perfdata/mappings.rs:2046-2057 | The gap a failed search proves contains the address searched for and is wholly unmapped |
| `FrameLookups.FrameMappingContext.ResolveBucketMiss` | src/perfdata/mappings.rs:426-457 | The answer is the bucket's. A search that finds no map leaves a gap proof around the address and the hint as it was; one that finds a map leaves a hint on that very map and the gap proof as it was, and caches its slot only when the frame is returned |
| `FrameLookups.FrameMappingContext.ResolveBucket` | src/perfdata/mappings.rs:391-424 | A hint, a gap proof or a search all answer as the bucket does |
| `FrameLookups.FrameMappingContext.ResolveUser` | src/perfdata/mappings.rs:339-352 | User probes through borrowed hints and gap proofs equal the user-only scan, translated address included |
| `FrameLookups.FrameMappingContext.Resolve` | src/perfdata/mappings.rs:354-389 | Probes in any order, from any cache, equal the plain scan, local and global buckets and the translated address included |
| `FrameLookups.FrameMappingHint` | src/perfdata/mappings.rs:1003-1012 | A remembered slot seeds a hint only when it now holds a map of the right process |
| `KernelPublications.ClipKernelMaps` | src/perfdata/mappings.rs:1676-1696 | The rows become exactly those of the flat list clipped. A kernel map of the process covers an address afterwards exactly when it did before, or ended at zero, and no kernel map that follows starts at or before the address; nothing else changes, and the index is exact again |
| `KernelRows.ClipContains` | src/perfdata/mappings.rs:1676-1696 | Clipping takes from a kernel map exactly the addresses from the next kernel map's start on, and gives one that ended at zero all those before |
| `KernelRows.ClipLaysOut` | src/perfdata/mappings.rs:1676-1696 | Clipping lays all kernel maps of the process out: each ends at or before every later one starts |
| `KernelRows.LaidOutDisjoint` | src/perfdata/mappings.rs:1676-1696 | For a process of kernel maps alone, laid out means disjoint |
| `KernelPublications.HasKernelName` | src/perfdata/mappings.rs:1637-1674 | The bucket is searched exactly for a kernel map of that display name in the process |
| `KernelPublications.AddSectionMap` | src/perfdata/mappings.rs:1637-1674 | A name already present leaves table and registry as they were; otherwise exactly the section's child is inserted at the end, under a newly registered object |
| `KernelPublications.PublishKernelModule` | src/perfdata/mappings.rs:1608-1709 | A stale cursor changes nothing. A live one turns the rows and the registered objects into exactly those of the flat list's publication, with all that holds of it, and the generation grows by one exactly when a module with symbols is loaded for the first time |
| `KernelRows.PublishAdds` | src/perfdata/mappings.rs:1608-1709 | A module already loaded, or without symbols, changes no row. Otherwise every earlier row keeps its place, start and image and every address of it stays mapped until a later kernel map starts; none grows unless its end was zero; every new row shows an accepted section at its own start, size and file offset up to the next kernel map, no name is given twice, every accepted section has a kernel map, and the kernel maps end laid out |
| `KernelRows.PublishDisjoint` | src/perfdata/mappings.rs:1608-1709 | When the module's process holds kernel maps alone, publication ends with the whole list disjoint again, so that index and scan keep agreeing |
| `KernelPublications.CursorKeepsItsMap` | src/perfdata/mappings.rs:845-850 | A cursor taken at any time yields later that same inserted map or nothing, never a later occupant of its slot |
| `KernelRuns.PrepareKernelCursor` | src/perfdata/fold.rs:3484-3510 | Looking an address up loads the module of its map once: a failed load counts as loaded for good, a frame outside the kernel publishes nothing, and otherwise the rows become those of the publication |
| `KernelRuns.LoadIs` | src/perfdata/fold.rs:3484-3510 | Nothing is loaded unless the address resolves to a named kernel module's map whose module has no projection and is not loaded; a failed load marks the module for good; a successful one is published when the frame lies in the module or, in a bracketed map, in the kernel's half below the context markers |
| `KernelRuns.RunSane` | src/perfdata/mappings.rs:1129-1709 | Over every run that mixes records and publications and keeps kernel maps to their own processes, rows stay disjoint |
| `KernelRuns.ReplaySteps` | src/perfdata/mappings.rs:1129-1709 | Over every such run the table holds exactly the rows of the flat list, its representation invariant holds throughout, and insertion ids are only ever added, so that cursors stay safe |
| `KernelRuns.FrameAfterRun` | src/perfdata/mappings.rs:1900-1931 | After every such run a cached lookup, whatever its cache holds, finds what the plain scan of the flat list finds: the covering candidate that starts last, at its translated address |
| `Bytes.ReadU64Is` | src/perfdata/endian.rs:42-54 | A word is there exactly when its eight bytes are, and is the first byte, 2^8 times the second and so on up to 2^56 times the eighth |
| `Bytes.ReadU32Is` | src/perfdata/endian.rs:24-36 | Likewise for four bytes |
| `Bytes.ReadU16Is` | src/perfdata/endian.rs:6-18 | Likewise for two bytes |
| `DsoMemories.ReadWord` | src/perfdata/memory.rs:208-242 | The word assembled from cached blocks is made of the file's own eight bytes, the lowest first, when they are there, across a block boundary too, and nothing otherwise; cached blocks stay the file's own |
| `DsoSources.DsoMemorySources.OpenWithEviction` | src/perfdata/memory.rs:114-123 | It finds the file exactly when it exists and, for some number of the oldest descriptors, that many opens meet descriptor exhaustion and the next succeeds; it drops exactly as many descriptors as it met exhaustions, and gives up with none left or at a refusal of another kind |
| `DsoSources.TriedExactly` | src/perfdata/memory.rs:114-123 | The retries end at the first attempt that does not meet exhaustion, with the descriptors and conditions used up to there |
| `DsoSources.DsoMemorySources.RegisterOpen` | src/perfdata/memory.rs:125-133 | A new descriptor goes to the back of the queue, and the oldest is dropped exactly when the limit would be reached |
| `DsoSources.DsoMemorySources.CloseOldest` | src/perfdata/memory.rs:135-151 | Exactly the oldest owned descriptor is dropped; selected paths, blocks and failures stay |
| `DsoSources.DsoMemorySources.SelectPath` | src/perfdata/memory.rs:68-112 | The cached copy is selected when it opens, the recorded path when only that does, and nothing otherwise, each by the retrying open |
| `DsoSources.DsoMemorySources.OpenFirst` | src/perfdata/memory.rs:68-112 | A source seen for the first time is bound for good to the path selected, or to none, and goes to the back of the queue; no other binding or failure changes |
| `DsoSources.DsoMemorySources.Reopen` | src/perfdata/memory.rs:68-112 | An evicted source opens its selected path again, never another one, or fails for good, exactly as the retrying open of that path goes |
| `DsoSources.DsoMemorySources.ReadU64` | src/perfdata/memory.rs:68-112 | The answer is made of the eight bytes of the file the source is bound to, or nothing when it is bound to none or has failed, whatever was evicted; a read of an owned source leaves the queue as it is |
| `DsoSources.AmpleOpens` | src/perfdata/memory.rs:114-123 | Where conditions are ample, an existing file opens however many descriptors are in the way |
| `DsoSources.DsoMemorySources.ReadAll` | src/perfdata/memory.rs:67-151 | Over any interleaving of reads of any number of objects, under any limit: when the disk refuses only for want of descriptors and always makes room in time, no read fails, each object is bound by its first read to its first path that exists, and every word is made of that file's own bytes, so eviction is invisible |
| `MappedMemories.ReadMapped` | src/perfdata/memory.rs:40-64 | The word read is made of the bytes of the object that the process's user map shows at the address, at the translated place; where conditions are ample its object is bound to its first path that exists and no other object is touched |
| `MappedMemories.OwnerAnswers` | src/perfdata/memory.rs:40-64 | What the plain scan reads after a run of records is what the record history names as the newest map over the address, at that map's translation |
| `MappedMemories.ReadAfterRun` | src/perfdata/memory.rs:40-64 | On a table that has replayed a run of records, whatever was cached or evicted, the word read is made of the bytes of the object that the newest covering insert shows, at that insert's translation |
| `FlamegraphSweep.DeepestSamples` | src/flamegraph/analysis.rs:553-591 | Each name's count is the number of positions whose deepest covering frame has that name: the least coordinate, or the largest when inverted, and of equals the last read; uncovered positions go to the unattributed name |
| `FlamegraphSweep.ActiveCovers` | src/flamegraph/analysis.rs:553-591 | Between two event positions the active set holds exactly the frames covering that position, though ends come before starts at equal positions |
| `FlamegraphSweep.SelfSamplesConserved` | src/flamegraph/analysis.rs:553-591 | The self counts of all names add up to exactly the total |
| `FlamegraphProfile.CoveredSamples` | src/flamegraph/analysis.rs:514-522 | The running sum is the size of the union of the ranges and never exceeds the largest end, so it cannot overflow |
| `FlamegraphProfile.CoverageIgnoresOrder` | src/flamegraph/analysis.rs:514-522 | The union's size does not depend on the order of the ranges |
| `FlamegraphProfile.RangeEntries` | src/flamegraph/analysis.rs:524-532 | The reported groups are those with positive weight, each with the number of positions its frames cover |
| `FlamegraphProfile.WeightIsCoverage` | src/flamegraph/analysis.rs:95-124 | The size of a group's range union is the number of positions under a frame of the group |
| `FlamegraphProfile.SelfWithinInclusive` | src/flamegraph/analysis.rs:95-124 | Self never exceeds inclusive and inclusive never exceeds the total, for every name but the unattributed one |
| `FlamegraphProfile.SyscallWithinAny` | src/flamegraph/analysis.rs:95-124 | No single syscall outweighs the union of all of them |
| `FlamegraphProfile.SyscallNameIs` | src/flamegraph/analysis.rs:593-597 | The name of a system call is what follows the first of the four entry-point prefixes that matches |
| `FlamegraphProfile.Categorize` | src/flamegraph/analysis.rs:155-195 | Each category holds exactly the samples of its names, and the category totals add up to all samples, for every categorization |
| `FlamegraphProfile.FirstRuleWins` | src/flamegraph/analysis.rs:197-209 | The first rule in order that matches names the category |
| `FlamegraphProfile.CategorizeProfile` | src/flamegraph/analysis.rs:155-209 | With the user's rules before the built-in names, each category holds exactly its names' samples and the totals add up |
| `FlamegraphProfile.Analyze` | src/flamegraph/analysis.rs:72-130 | A profile is accepted exactly when the first aggregate frame has a positive total, all frames lie within it, and it lies on one side of all others; each self count is then the number of positions whose covering frame farthest from the aggregate frame has that name |
| `Cancellation.FirstCauseIsFinal` | src/process/cancellation.rs:50-56 | Under any interleaving of any number of handlers the first cause never changes, a repeat is never taken back, and a repeat implies a cause |
| `Cancellation.CauseArrived` | src/process/cancellation.rs:50-56 | The recorded cause is a signal that some handler really received |
| `Cancellation.RefusalIsFinal` | src/process.rs:363-376 | A command refused after a cancellation stays refused however the handlers go on |
| `Cancellation.LaunchExactly` | src/process.rs:363-376 | After any run of the handlers a launch is allowed exactly while no handler has claimed a cause or, for a command that finalizes, while no two signals have been counted |
| `Supervisor.KeepsDiscipline` | src/process.rs:652-712 | Over every run: one forwarded signal at most, followed by a continue; SIGTERM before SIGKILL unless a second signal came; no escalation of a recording before its leader completes or a second signal comes; a finalizing command ignores the signal before it; no wait while the loop runs |
| `Supervisor.ForwardedWhenSeen` | src/process.rs:656-668 | A cancellation has been forwarded exactly when some turn saw a signal and, for a command that finalizes after one, a second |
| `Supervisor.RunObeys` | src/process.rs:656-689 | The signal forwarded is the one seen at the first such turn, nothing is forwarded without one, and a second signal has put SIGKILL into the log |
| `Supervisor.CancellationIsBounded` | src/process.rs:648-718 | A non-recording loop that sees a cancellation to forward has ended 350 + 350 + 100 ms and two turns later, whatever the child does |
| `Supervisor.CompletionIsBounded` | src/process.rs:648-718 | Any loop has ended 50 + 350 + 350 + 100 ms and three turns after its leader completed, though descendants hold the pipes and a cancellation may still come |
| `Supervisor.RepeatIsBounded` | src/process.rs:677-696 | A second signal ends every loop within 100 ms, recordings included |
| `Supervisor.EndsExactly` | src/process.rs:693-697 | The loop ends exactly when both pipes have closed and the leader is done or SIGKILL was sent, or when 100 ms have passed since the turn that sent SIGKILL |
| `Supervisor.TurnsAfterCompletion` | src/process.rs:648-718 | With a clock that advances by a least amount each turn, few turns follow the leader's completion: their number times that amount stays below the time bound |
| `Supervisor.TurnsAfterCancellation` | src/process.rs:648-718 | Likewise few turns of a non-recording loop follow the cancellation it sees |
| `Supervisor.EscalationWaits` | src/process.rs:656-689 | SIGTERM comes no sooner than the whole grace after the forwarded cancellation or the leader's completion, and SIGKILL without a second signal no sooner than the grace after SIGTERM |
| `OwnedRuns.ReapsOnceAtTheEnd` | src/process.rs:693-711 | The whole log of a finished run has the group's SIGKILL just before its one wait, and nothing after the wait |
| `OwnedRuns.RunOwnedProcess` | src/process.rs:562-719 | The loop takes its turns as specified and ends by its own condition; what it sent answers what it saw, as for every run; its output is what left the pipes, all of it unless SIGKILL ended the loop with a pipe open; the child's input grows to a prefix of the given input: each turn gives what one more write gives, and every turn that leaves the command stopping gives nothing; an error also kills and then waits; paced observations that outlast the leader's completion by the time bound never leave it unfinished |
| `OwnedPipes.DrainPipe` | src/process.rs:583-604 | A drain takes at most 8 reads of 8192 bytes, loses and reorders nothing, stops only when nothing is ready, the stream ends or a read fails, and closes the pipe only at its end |
| `OwnedPipes.WriteChildStdin` | src/process.rs:722-747 | The child receives the input from where it stood, at most 65536 bytes at a time; the pipe closes when the input is complete or the child closed it |
| `Sessions.CommandSession.ExchangeLines` | src/process/session.rs:67-81 | A success returns the reply and records it; replies stay a prefix of the child's output and requests all of its input; the first failure closes the session, after which every exchange fails as closed; each failure has its cause |
| `Sessions.CommandSession.Exchange` | src/process/session.rs:83-161 | A reply has exactly the requested lines, ends with a newline, follows the whole request, and no byte of it was seen before the request's first byte went out; a cooperative child is always answered |
| `Sessions.LinesAre` | src/process/session.rs:133-144 | The lines counted are the newline bytes |
| `Sessions.Judge` | src/process/session.rs:133-176 | A reply is complete only with exactly the requested lines after the whole request; end of output before that is a failure |
| `Sessions.Unsolicited` | src/process/session.rs:117-125 | Output that is there before the request fails the exchange |
| `Sessions.WriteRequest` | src/process/session.rs:178-203 | Bytes go out in order from where the request stood; a write of nothing is an error |
| `SampleLayouts.StrictAgrees` | src/perfdata/samples.rs:150-379 | Whenever the strict parser accepts, the metadata parser accepts with the same address, process, thread and period and the same frames; the folding parser too, except that it gives nothing exactly when there is neither chain nor address |
| `SampleLayouts.NothingMayFollow` | src/perfdata/samples.rs:508-514 | No proper extension of a payload the strict parser accepts is accepted: it consumes the whole payload |
| `SampleLayouts.WalkExtends` | src/perfdata/samples.rs:150-250 | What a walk reads does not depend on bytes after it |
| `SampleRoundTrips.StrictReadsBack` | src/perfdata/samples.rs:150-250 | A payload written field by field in recorded order, as its flag words request, from any values that fit is accepted by the strict parser and gives back exactly the values of the fields it keeps |
| `SampleRoundTrips.MetadataReadsBack` | src/perfdata/samples.rs:271-379 | The metadata parser gives back the event, the chain as its very bytes and their range, and the captured registers and stack |
| `SampleLayouts.CountOnesIs` | src/perfdata/samples.rs:571-583 | The ones counted in a register mask are its set bits |
| `SampleLayouts.SupportedFlags` | src/perfdata/samples.rs:60-86 | The supported flags are exactly the union of the fields' flags |
| `SampleParsers.ParseSampleRecord` | src/perfdata/samples.rs:150-250 | The strict parser accepts exactly the payloads the present fields tile in recorded order, and returns what they hold |
| `SampleParsers.ParseSampleCallchain` | src/perfdata/samples.rs:271-379 | The metadata and folding parsers accept exactly when the fields up to the user stack are complete, and return what they hold |
| `SampleParsers.ParseRecordedSample` | src/perfdata/samples.rs:150-379 | From recorded flag words, the strict parser accepts exactly the payloads of the layout they request, and then the metadata parser gives the same sample |
| `SampleParsers.SampleCursor.SkipReadFormat` | src/perfdata/samples.rs:607-652 | The cursor moves over a read-format block, grouped or not, to exactly its end, or fails |
| `SampleParsers.SampleCursor.SkipBranchStack` | src/perfdata/samples.rs:544-561 | The cursor moves over a branch stack with its optional index and counters; overflow checks refuse nothing that fits |
| `SampleParsers.SampleCursor.TakeRegs` | src/perfdata/samples.rs:571-583 | Registers follow a nonzero ABI word, one for each bit of the mask, in order |
| `SampleParsers.SampleCursor.TakeUserStack` | src/perfdata/samples.rs:585-605 | A captured stack is its bytes and a dynamic size that it must hold; an empty one has neither |
| `SampleParsers.StrictChain` | src/perfdata/samples.rs:195-201 | The chain read word by word is the recorded chain |
| `SampleParsers.EventChain` | src/perfdata/samples.rs:333-350 | The chain taken as one slice covers exactly the recorded chain |
| `SampleParsers.FrameIterator.Next` | src/perfdata/samples.rs:450-461 | Iterating yields the single address first, then the chain's words in order, each once |
| `PerfRecords.IterRecords` | src/perfdata/records.rs:363-404 | The loop accepts exactly when the records from the section's start are well framed up to its end, and lists them |
| `PerfRecords.WalkTiles` | src/perfdata/records.rs:363-404 | The records of an accepted walk, written out again, are exactly the bytes of the section, each at its offset |
| `PerfRecords.WalkReadsBack` | src/perfdata/records.rs:363-404 | Every list of well-sized records written out in a file is read back as that list |
| `PerfFeatures.HeaderReadsBack` | src/perfdata/header.rs:29-50 | A header written out is read back, offsets, sizes and feature words, unless it claims a size below 104 bytes |
| `PerfFeatures.FeaturesAscend` | src/perfdata/header.rs:159-176 | The features are exactly the set bits of the bitmap, ascending, each once |
| `PerfFeatures.FlagsReadBack` | src/perfdata/header.rs:159-176 | A bitmap of four words built from flags has exactly the flagged features |
| `PerfFeatures.FileFeaturesAre` | src/perfdata/header.rs:159-176 | A file has exactly the features below 256 whose bit is set |
| `PerfFeatures.TableReadsBack` | src/perfdata/header.rs:56-76 | A table of offsets and sizes written out after a file's data is read back for its features |
| `PerfFeatures.TableRefused` | src/perfdata/header.rs:56-76 | A table is refused exactly when the file ends before the last entry does |
| `PerfFeatures.ParseFeatureSections` | src/perfdata/header.rs:56-76 | The whole-file parser pairs each feature in order with its table entry, or fails |
| `PerfFeatures.FeatureSectionsFromReader` | src/perfdata/header.rs:77-106 | The reader pairs the same entries, and does not look for a table when no feature is set |
| `PerfFeatures.SectionsAgree` | src/perfdata/header.rs:56-106 | Whole-file and reader parsing agree, except exactly when no feature is set and the table offset overflows |
| `BuildIds.ParseBuildIdEvents` | src/perfdata/build_id.rs:58-79 | The feature payload loop gives the events framed by their size fields, or fails |
| `BuildIds.VisitBuildIdRecordSection` | src/perfdata/build_id.rs:220-296 | The streaming walk sees exactly the events of the section up to where its visitor stops, and fails where a record is badly framed or badly formed |
| `BuildIds.KernelBuildIdFromReader` | src/perfdata/build_id.rs:168-218 | The reader looks at the features in full, then at the data section only up to the kernel's build id |
| `BuildIds.KernelBuildIdFromPerfdata` | src/perfdata/build_id.rs:148-153 | The whole-file lookup takes the first defined kernel build id among feature events, then data events |
| `BuildIds.StreamIsVisit` | src/perfdata/build_id.rs:298-319 | Parsing all records and then their build ids, and streaming over them, accept the same sections with the same events |
| `BuildIds.PayloadIsVisit` | src/perfdata/build_id.rs:58-79 | Parsing a feature payload as a slice, and streaming over the file, accept the same framings with the same events |
| `BuildIds.FeaturesAgree` | src/perfdata/build_id.rs:95-139 | Feature events read by the reader and from the whole file agree, except exactly for a file without features whose table offset overflows |
| `BuildIds.OverflowingTable` | src/perfdata/build_id.rs:95-139 | A file whose own header puts a data section of one byte at the last offset, with an empty bitmap: the reader finds no feature events, the whole-file parser fails |
| `BuildIds.KernelAgrees` | src/perfdata/build_id.rs:148-218 | Whenever whole-file extraction succeeds, the early-stopping lookup gives the same answer; and it finds nothing exactly when whole-file extraction succeeds and finds nothing |
| `BuildIds.PerfKernelAgrees` | src/perfdata/build_id.rs:148-218 | The same for the record formats that perf writes |
| `BuildIds.SameEvent` | src/perfdata/build_id.rs:342-395 | A feature record gives the event that its payload gives as a stream record, unless its build id fills the storage, which only the stream admits |
| `BuildIdRoundTrips.FeatureReadsBack` | src/perfdata/build_id.rs:342-372 | A feature record written from a process, a build id and a file name gives them back, whatever its type and whether or not it is sized |
| `BuildIdRoundTrips.StreamReadsBack` | src/perfdata/build_id.rs:374-395 | So does a build-id record of the data section |
| `BuildIdRoundTrips.MapReadsBack` | src/perfdata/build_id.rs:252-278 | So does a map record with the build-id bit, and one without it says nothing |
| `BuildIdRoundTrips.StreamAccepts` | src/perfdata/build_id.rs:374-395 | A build-id record is refused exactly when it is too short, its size exceeds the storage, or its name is not valid text |
| `BuildIdRoundTrips.FeatureAccepts` | src/perfdata/build_id.rs:342-372 | A feature record is refused exactly when it is too short, its sized build id exceeds 20 bytes, or its name is not valid text |
| `BuildIdRoundTrips.MapAccepts` | src/perfdata/build_id.rs:252-278 | A map record with the build-id bit is refused exactly when it is too short or its build id exceeds 20 bytes |
| `BuildIdRoundTrips.FirstKernelIs` | src/perfdata/build_id.rs:397-401 | The id found is that of the first event whose file name is the kernel's and some byte of whose build id is not zero; none is found when there is no such event |
| `BuildIdRoundTrips.FindSectionIs` | src/perfdata/build_id.rs:320-327 | The first section of a feature is the one found |
| `FoldedStacks.OffsetDropped` | src/folded.rs:60-72 | A plus sign, 0x and hexadecimal digits at the end of a frame are dropped, whatever precedes them |
| `FoldedStacks.OnlyOffsetDropped` | src/folded.rs:60-72 | Nothing else is ever dropped there |
| `FoldedStacks.HashIs` | src/folded.rs:133-138 | A hash is an h and sixteen hexadecimal digits at the end |
| `FoldedStacks.LiteralEndRefines` | src/folded.rs:60-96 | Whenever there is a literal end, the full routine accepts the frame and appends exactly that prefix |
| `FoldedStacks.AppendRawFunction` | src/folded.rs:98-131 | The routine with its fast path appends the separator and the frame's tidied, marked segments; the fast path changes nothing |
| `FoldedStacks.SegmentCount` | src/folded.rs:98-131 | An accepted frame gives one segment more than its fixed-up text has arrows, no segment holds a semicolon, and a frame that starts with a parenthesis gives none |
| `FoldedStacks.SegmentIs` | src/folded.rs:119-131 | Each segment is its part tidied, and behind an arrow it carries the inline mark, once |
| `FoldedStacks.SplitJoins` | src/folded.rs:119 | Splitting at arrows loses nothing |
| `FoldedStacks.SplitSeparates` | src/folded.rs:119 | Splitting leaves no arrow inside a part |
| `FoldedStacks.FixPartiallyDemangledRustSymbol` | src/folded.rs:140-188 | The rewriting loop removes the hash and rewrites escapes and double dots up to the first unknown escape |
| `FoldedStacks.EscapeIsUnique` | src/folded.rs:189-216 | No two escapes of a table match the same text, so the order of the table does not matter |
| `FoldedStacks.TidyGeneric` | src/folded.rs:234-268 | The scan gives the tidied frame |
| `FoldedStacks.TidyCutsParameters` | src/folded.rs:234-268 | The frame is cut at the first place where a parameter list starts: a parenthesis at bracket depth zero, neither after a dot nor at the anonymous namespace; semicolons become colons |
| `FoldedStacks.DepthCounts` | src/folded.rs:234-258 | The bracket depth of a text is the number of its opening brackets and parentheses less that of its closing ones |
| `FoldedStacks.TidyIdempotent` | src/folded.rs:234-268 | Tidying a tidied frame changes nothing |
| `FoldedStacks.RenderRawStack` | src/folded.rs:48-58 | A rendered stack is all its segments, empty ones included, joined once |
| `FoldedStacks.StackReadsBack` | src/folded.rs:48-58 | Separating a rendered stack at semicolons gives its segments back: no frame can forge a boundary |
| `FoldedStacks.RenderInfernoPerfRawStack` | src/folded.rs:48-58 | With the escapes of Rust's mangling, a rendered stack is its segments joined, and separating it at semicolons gives them back |
| `MergeDiffs.EntryReadsBack` | src/benchmarks.rs:970-984 | A stack, a space and a decimal count, perhaps after a plus sign, are read as that stack and count, unless the count does not fit in a machine word |
| `MergeDiffs.EntryIs` | src/benchmarks.rs:970-984 | Whatever is read has that form |
| `MergeDiffs.BelowIs` | src/benchmarks.rs:917-966 | A stack is below another exactly when they agree up to a place where the one ends or has the smaller byte |
| `MergeDiffs.CompareFoldedLines` | src/benchmarks.rs:917-990 | The streamed comparison succeeds exactly when every line of both streams is well formed, and reports the merge with each list cut at 1000 |
| `MergeDiffs.MatchesIffSame` | src/benchmarks.rs:917-966 | It matches exactly when both streams list the same stacks with the same counts in the same order, sorted or not |
| `MergeDiffs.MergeFindsMissing` | src/benchmarks.rs:917-966 | For strictly sorted streams each list holds exactly the entries that the other side lacks or counts differently, in order |
| `MergeDiffs.MergeIsMapDifference` | src/benchmarks.rs:500-505 | The streamed lists equal the difference of the two maps exactly when no entry with a zero count is missing from the other side |
| `MergeDiffs.EmptyExtra` | src/benchmarks.rs:500-505 | An entry with a zero count that the other side lacks is in the streamed difference and not in the map difference |
| `LineWriters.LineChannelWriter.Write` | src/benchmarks.rs:597-643 | After each write the lines sent and the bytes kept are those of everything written; a refused line stops right there |
| `LineWriters.LineChannelWriter.WriteAll` | src/benchmarks.rs:597-643 | However the bytes are chopped into writes, the lines sent are the complete lines of the whole text |
| `LineWriters.ChoppingDoesNotMatter` | src/benchmarks.rs:597-643 | Any two choppings of the same bytes give the same lines and the same rest |
| `LineWriters.CutRebuilds` | src/benchmarks.rs:597-643 | Lines, their newlines and the rest are exactly the bytes written |

## Left out

- The native DSO registry's name comparator, its sort order and its binding of maps to DSOs: maps carry a DSO number and a path as given (`src/perfdata/mappings.rs:468-760`).
- Symbol-source interning, display paths' numbers, path layout and kernel relocation metadata on maps: they do not influence lookups.
- Overflow of the insertion-id and generation counters, and of the bracket depth when a symbol is longer than 2^31 bytes.
- Publication's debug-only checks (`src/perfdata/mappings.rs:1711-1742`): what they assert is proved instead.
- KernelRows.PublishDisjoint: does not claim disjointness for a process that also holds maps of other modes, because publication clips kernel maps only; KernelRuns.RunSane has the same hypothesis.
- How a module's metadata is found and read: each load gives arbitrary metadata or fails (`src/perfdata/fold.rs:3501-3505`).
- MappingFacts.InsertOverrides: is about lookups within one process; the local-over-global choice compares starts, which a split changes, so no pointwise claim is made across the two buckets.
- DsoSources.DsoMemorySources.ReadAll: assumes files that do not change and reads that return all bytes there are; a truncated file shows its cached blocks, which this model does not describe.
- DsoSources.Disk.Open: the file system is not part of this model, so what each open meets is an arbitrary script: room for a number of descriptors, or a failure of another kind; a path that does not exist is refused without using it up.
- A file whose metadata cannot be read after it was opened: counted as a failed open.
- Supervisor.CompletionIsBounded: time is what the turns observe; how long one turn takes, polling included, is a parameter of the bound.
- Signal delivery to the group and to a leader that left it, `waitid`, exit statuses and the terminal's foreground handoff (`src/process.rs:516-560`, `src/process.rs:706-709`).
- OwnedRuns.RunOwnedProcess: a child that never ends gives an unfinished result when its observations run out, and an error while restoring the terminal or waiting after the last kill is not modelled.
- Session start-up, and the kill and reap when a closed session drops its process: its pipes are simply gone (`src/process/session.rs:26-65`).
- Sessions.CommandSession.ExchangeLines: the deadline is the number of turns that begin before it; the turn that finds it passed is the late moment.
- Cancellation.RefusalIsFinal: holds at a fixed depth of finalization scopes, because opening a scope may admit a preparation command.
- SVG reading, percentages, minimum percentages, list limits and the order of reported entries in flamegraph reports; vertical coordinates are integer ranks.
- The built-in category table and lower-casing: parameters of the categorization.
- Sample time ordering, user-stack unwinding and the deferred-callchain cookie.
- SampleLayouts.Decode: flag words are told apart once into the fields they request, so the parsers work on sets of fields; an unused flag of the read format or of the branch type is ignored, as in the program.
- UTF-8 validation, lenient decoding and the test for kernel file names: parameters of the build-id parsers; build ids are bytes rather than hexadecimal text.
- Error messages: a failed parse or a failed read is an absent result.
- Buffering inside the file reader: a reader is a position in unchanging bytes.
- Reading folded text into maps, and how map differences are printed: entries are compared as stack and count.
- Profiler backends, tool resolution, Cargo targets, command-line parsing, artifact writing and benchmark processes: thin wrappers around the operating system.
