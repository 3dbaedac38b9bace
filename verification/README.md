# A verified model of HiChecker and the JS leak watcher

HiChecker warns an application about slow calls, leaks and the like. This project models its two
stateful parts in Dafny and proves what they keep over whole runs.

**JS leak watcher.** A native handler runs GC and DUMP callbacks by timed events. The GC callback takes
stock of the watched objects and forces a garbage collection; the DUMP callback looks at what is still
there and may dump the heap into a directory that is kept small by rotation.

- `EventLoop.dfy`: the timed events, the delays, starting and stopping, and the callback references.
- `LeakRounds.dfy`: the watch map and the rounds of detection. `WatchedObjects.dfy` says what the map and
  the intersection mean for objects. `WatcherRuns.dfy` runs the rounds by the callbacks of the loop.
- `FileNames.dfy`, `Sorting.dfy`, `DumpRotation.dfy`, `HeapDumps.dfy`, `DumpRuns.dfy`,
  `DumpSets.dfy`: file names as strings, the listings and their sort, the rotation, the steps of a dump,
  whole runs over a directory, and the sets of one process in it.
- `RawHeapTrailer.dfy`, `HeapDigest.dfy`: the two byte formats.
- `Registration.dfy`: registering for object life cycles and trying again what failed.

**Rule engine.** `RuleEngine.dfy`: one rule word for the process and one for each thread, changed and read
by any number of threads. The state is proved to be what the history of calls says, rule by rule. A
notification reads without a lock, up to three times, and other threads may change rules in between.

Code that changes state is a class with the fields of the source. Its methods are proved against functions
on values, and the theorems over runs are about those functions. `Common.dfy` has shared types. Check the
project with `dafny verify dfyconfig.toml`.

Where the code does not have a property, a lemma shows an input and another states when it does:

- A negative wait time, or an interval of 2^32 and more, can put the dump delay above the GC delay
  (`NegativeWaitDisorders`, `LongIntervalDisorders`; `DelaysOrdered`).
- The `enable` entry point followed by a new start loses callback references (`EnableEntryLosesReferences`;
  `ReferenceLifeCycle`).
- A start while GC events of an earlier session are pending leaves more than one chain of GC events
  (`RestartLeavesTwoChains`; `LeftoverGcsStay`, `AlternationExactly`).
- A DUMP task whose promise has not settled can dump without a collection of its own, or on a collection that
  an earlier round's promise forced (`LateAnswerDumpsUnforced`, `StaleAnswerStandsIn`; `DumpsAreJustified`).
- A DUMP task whose promise has not settled can report nothing and yet have its objects taken as reported
  (`UnansweredRoundSilences`; `SuppressedExactly`, `RoundDumpsExactly`).
- A null hash defeats the suppression of duplicates (`NullHashDumpsEachRound`; `SameKeys`,
  `NullKeyNeverQuiets`).
- Rotation can split the files of one time stamp, as when two processes dump in the same millisecond
  (`SameMillisecondSplitsSets`; `RotationExactly` for a given limit, `WholeUnderEveryLimit` for all).
- A process that has dumped before never removes the orphaned raw heap of another one that was killed
  (`OrphanOutlivesDump`; `CleanUpPairs`, `DumpIsDone`).
- A process can have two sets in a directory it shares: when another one dumped last, its clean-up removes
  nothing (`TwoSetsOfOne`; `OwnAfterDump`, `OneSetPerProcess`).
- A notification can come to something that was due at no moment, when other threads change rules between its
  reads (`CrashOfNoMoment`; `OneMomentExactly`).
- An asynchronous dump of a heap snapshot writes no leak list, and a synchronous one of a raw heap no heap;
  no caller asks for either (`DumpInner`, `DumpInnerSync`; `LoneSnapshotStays` for what is left behind).
- A read error while the metadata is copied still counts as success, with a trailer that does not fit
  (`ReadErrorGoesUnnoticed`; `AppendMetaData`, `CopiesWhole`).

What comes from outside is a parameter: the clock, the order of directory listings, the sizes of reads, the
success of writes, the answers of the process query, and which event the queue hands out when. Assumed of
it: file operations on existing files succeed; a listing has each matching file once; `Array.sort` is a
stable sort; the queue hands out events in the order of due times; numbers are whole and time stamps below
2^53; a number passed as a 32-bit setting is reduced modulo 2^32; words are stored in little-endian order;
each single read of a rule word is one step, and the methods that notify run no notification of another
thread between their reads, since it changes no rule; the GC and the DUMP event of a round are sent at
one time.

## Model

| member | source | states |
|---|---|---|
| FileNames.ParseIntOfDec | interfaces/js/kits/napi/js_leak_watcher/js_leak_watcher.ts:420-424 | reading a decimal number back gives the number |
| FileNames.RunEnd | interfaces/js/kits/napi/js_leak_watcher/js_leak_watcher.ts:421 | a greedy run of digits ends at the first character that is no digit |
| FileNames.LastIndexFrom | interfaces/js/kits/napi/js_leak_watcher/js_leak_watcher.ts:497 | the position found is the last occurrence, and there is none when it is -1 |
| FileNames.LeftmostMatch | interfaces/js/kits/napi/js_leak_watcher/js_leak_watcher.ts:420-424 | for any name at all, the digits read are those of the leftmost place where digits and one of the suffixes follow, and none if there is no such place |
| FileNames.TimeStampRoundTrip | interfaces/js/kits/napi/js_leak_watcher/js_leak_watcher.ts:420-435 | for all process, thread and time numbers and all three suffixes, the time stamp put into a file name is the one the leftmost match reads out of it, and its decimal text occurs in the name |
| FileNames.DigitsInFileName | interfaces/js/kits/napi/js_leak_watcher/js_leak_watcher.ts:580-581 | `includes` finds a run of digits in a dump file name if and only if it lies within one of the three numbers of the name |
| FileNames.IncludesIsSameStamp | interfaces/js/kits/napi/js_leak_watcher/js_leak_watcher.ts:580-581 | between names whose time stamps have one width, greater than that of process and thread numbers, `includes` of one time stamp is equality of time stamps |
| FileNames.PrefixTellsOwner | interfaces/js/kits/napi/js_leak_watcher/js_leak_watcher.ts:426-428 | a file name starts with a process's prefix if and only if it is a file of that process and thread |
| FileNames.SuffixTellsKind | interfaces/js/kits/napi/js_leak_watcher/js_leak_watcher.ts:497-501 | a name ends with its own suffix and with no other |
| Sorting.Sort | interfaces/js/kits/napi/js_leak_watcher/js_leak_watcher.ts:574-576 | sorting permutes the list into key order |
| Sorting.SortLists | interfaces/js/kits/napi/js_leak_watcher/js_leak_watcher.ts:574-576 | the sorted list is in key order and lists the same files, each once |
| Sorting.SortStable | interfaces/js/kits/napi/js_leak_watcher/js_leak_watcher.ts:574-576 | the sort is stable: for every key, its elements are those of the list in the same order |
| Sorting.SortOfEqualKeys | interfaces/js/kits/napi/js_leak_watcher/js_leak_watcher.ts:574-576 | a list of one key is not reordered |
| DumpRotation.Cut | interfaces/js/kits/napi/js_leak_watcher/js_leak_watcher.ts:577-585 | the loop stops with exactly maxFileNum or maxFileNum - 1 files left, or at once when there are not too many |
| DumpRotation.RotationCuts | interfaces/js/kits/napi/js_leak_watcher/js_leak_watcher.ts:573-586 | the files deleted are a prefix of the sorted listing, none of them newer than a file kept, and their number is the loop's |
| DumpRotation.RotationDropsOldest | interfaces/js/kits/napi/js_leak_watcher/js_leak_watcher.ts:558-587 | for any names: only listed dump files are deleted, no kept one is older than a deleted one, nothing happens up to maxFileNum files, and beyond that maxFileNum or maxFileNum - 1 remain |
| DumpRotation.CutAtBoundary | interfaces/js/kits/napi/js_leak_watcher/js_leak_watcher.ts:577-585 | the double step keeps the loop between time stamps |
| DumpRotation.RotationKeepsSetsWhole | interfaces/js/kits/napi/js_leak_watcher/js_leak_watcher.ts:573-585 | with well-formed names and at most two files per time stamp, rotation deletes all files of a time stamp or none, sets of one and of two files mixed |
| DumpRotation.CutFromBoundary | interfaces/js/kits/napi/js_leak_watcher/js_leak_watcher.ts:577-585 | the loop passes through every edge between time stamps, however many files they have |
| DumpRotation.RotationExactly | interfaces/js/kits/napi/js_leak_watcher/js_leak_watcher.ts:573-585 | for sets of any size: how many files go (the surplus, and one more if it takes an odd number of the stamp it reaches), and that sets stay whole if and only if this is none or all of that stamp |
| DumpRotation.WholeUnderEveryLimit | interfaces/js/kits/napi/js_leak_watcher/js_leak_watcher.ts:573-585 | sets stay whole under every limit if and only if no time stamp has more than two files |
| DumpRotation.RotationKeepsExactly | interfaces/js/kits/napi/js_leak_watcher/js_leak_watcher.ts:573-586 | with at most two files per time stamp a file is kept if and only if at most maxFileNum files are as new or newer, whatever the order of the listing |
| DumpRuns.SameMillisecondSplitsSets | interfaces/js/kits/napi/js_leak_watcher/js_leak_watcher.ts:573-585 | two processes dumping in one millisecond can lose both leak lists and keep both raw heaps |
| HeapDumps.HeapDumper.SetDumpFileSaveAmount | interfaces/js/kits/napi/js_leak_watcher/js_leak_watcher.ts:272-278 | maxFileNum is twice the setting, or 20 for a missing or non-positive one: always even and at least 2 |
| HeapDumps.HeapDumper.GetHeapBaseName | interfaces/js/kits/napi/js_leak_watcher/js_leak_watcher.ts:430-435 | the base name is the prefix and the time stamp, which is renewed on request |
| HeapDumps.HeapDumper.DeleteUnMatchDumpFile | interfaces/js/kits/napi/js_leak_watcher/js_leak_watcher.ts:481-512 | exactly the raw heaps without a leak list are deleted |
| HeapDumps.HeapDumper.DeleteLastOldFile | interfaces/js/kits/napi/js_leak_watcher/js_leak_watcher.ts:437-479 | exactly the set of the newest leak list is deleted, and only if that list carries the process's prefix |
| HeapDumps.HeapDumper.DeleteOldFile | interfaces/js/kits/napi/js_leak_watcher/js_leak_watcher.ts:558-587 | the loop performs the rotation; each file it unlinks is there, so none is unlinked twice, and `files[i + 1]` is always in range |
| HeapDumps.HeapDumper.CleanUp | interfaces/js/kits/napi/js_leak_watcher/js_leak_watcher.ts:515-520 | the first dump of a process removes orphans, a later one the last set |
| HeapDumps.HeapDumper.CreateHeapDumpFile | interfaces/js/kits/napi/js_leak_watcher/js_leak_watcher.ts:514-535 | clean-up, a new time stamp, and the heap file under it, unless a raw heap is asked for synchronously; the callback runs for asynchronous raw heaps only |
| HeapDumps.HeapDumper.GetJsleaklistFile | interfaces/js/kits/napi/js_leak_watcher/js_leak_watcher.ts:200-248 | the leak list under the same time stamp (a new one after a clean-up when dumping is off), then rotation; the names reported and the file hashed, for both settings of needSandBox and isRawHeap; when the file to hash is missing, only the leak list |
| HeapDumps.HeapDumper.DumpInner | interfaces/js/kits/napi/js_leak_watcher/js_leak_watcher.ts:718-740 | an enabled dump of a raw heap, or of no heap, does clean-up, writing and rotation and reports its names; one of a heap snapshot leaves just that, without leak list, rotation and report; a disabled one changes nothing |
| HeapDumps.HeapDumper.DumpInnerSync | interfaces/js/kits/napi/js_leak_watcher/js_leak_watcher.ts:677-716 | a heap snapshot and its leak list, rotation and names; of a raw heap only the leak list and no names, unless a file of its name was there |
| HeapDumps.ReportIsTrue | interfaces/js/kits/napi/js_leak_watcher/js_leak_watcher.ts:233-238 | each file named was written, the empty name aside, if and only if the heap written is of the kind named or, with dumping off, sandbox names are asked for; so nothing is named that is not there, for the arguments that are passed |
| HeapDumps.ReportIsComplete | interfaces/js/kits/napi/js_leak_watcher/js_leak_watcher.ts:233-238 | the names reported include every file written if and only if no heap was written or it is of the kind named, as it is for the two pairs of arguments that are passed: both true, or both false |
| DumpRuns.CleanUpMakesNoOrphans | interfaces/js/kits/napi/js_leak_watcher/js_leak_watcher.ts:437-512 | neither clean-up makes an orphaned raw heap, and the first one leaves none |
| DumpRuns.CleanUpPairs | interfaces/js/kits/napi/js_leak_watcher/js_leak_watcher.ts:437-520 | a clean-up leaves every raw heap with its leak list if and only if it is the process's first or every one had it before; a later one leaves exactly the old orphans |
| DumpRuns.WritingKeeps | interfaces/js/kits/napi/js_leak_watcher/js_leak_watcher.ts:209-224 | a set with a fresh time stamp keeps the directory well formed and at two files per time stamp, makes no orphan and mends none |
| DumpRuns.RotationKeepsPairs | interfaces/js/kits/napi/js_leak_watcher/js_leak_watcher.ts:558-587 | rotation takes a raw heap and its leak list together: the orphans left are the old ones it keeps |
| DumpRuns.RotationLeavesNewest | interfaces/js/kits/napi/js_leak_watcher/js_leak_watcher.ts:573-586 | rotation leaves exactly the files with at most maxFileNum as new or newer, and at most maxFileNum in all |
| DumpRuns.NewestSurvives | interfaces/js/kits/napi/js_leak_watcher/js_leak_watcher.ts:573-586 | a set newer than every other file survives rotation whenever maxFileNum is at least 2 |
| DumpRuns.DumpIsDone | interfaces/js/kits/napi/js_leak_watcher/js_leak_watcher.ts:718-740 | after one dump: exactly the newest files are left, at most maxFileNum; the set just written is among them exactly if at most maxFileNum are as new, as when it is the newest; and every raw heap has its list exactly if this was the first dump of the process or each older orphan is rotated away |
| DumpRuns.DirectoryInvariant | interfaces/js/kits/napi/js_leak_watcher/js_leak_watcher.ts:481-587 | the same for every completed dump of every run: processes with limits of their own taking turns in any order, dumps killed between any two file operations, restarts, from any well-formed directory |
| DumpRuns.TurnsAfterDumpsKeepPairs | interfaces/js/kits/napi/js_leak_watcher/js_leak_watcher.ts:481-587 | if a process that has dumped before takes its turn only after a completed dump, every completed dump leaves each raw heap with its leak list |
| DumpRuns.OrphanOutlivesDump | interfaces/js/kits/napi/js_leak_watcher/js_leak_watcher.ts:515-520 | otherwise not: one process dumps, another is killed between its heap and its leak list, the first dumps again, and the orphan stays |
| DumpRuns.FirstDump | interfaces/js/kits/napi/js_leak_watcher/js_leak_watcher.ts:718-740 | a first dump into an empty directory meets the assumptions of the theorems and leaves its two files |
| DumpSets.CleanUpRemovesOwn | interfaces/js/kits/napi/js_leak_watcher/js_leak_watcher.ts:455-478 | a process's previous set goes before its next dump if and only if its leak list comes first in the sorted listing |
| DumpSets.OwnAfterDump | interfaces/js/kits/napi/js_leak_watcher/js_leak_watcher.ts:437-587 | a dump of a process whose files are all from its last one leaves exactly the new set of it (or none, if newer files fill the directory) if and only if the old files go: there are none, the newest leak list is its own (on a first dump: they are orphans), or rotation takes them |
| DumpSets.OneSetPerProcess | interfaces/js/kits/napi/js_leak_watcher/js_leak_watcher.ts:437-587 | over every run in which other processes dump, are killed, restart and take turns between its dumps: each dump of the process leaves exactly its own set under its prefix if and only if before each the old files go so, and all files under the prefix are then from its last dump |
| DumpSets.SetStaysWhole | interfaces/js/kits/napi/js_leak_watcher/js_leak_watcher.ts:437-587 | in such a run its files are at all times none or its whole last set, unless a process is killed amid a rotation |
| DumpSets.OneDumpSet | interfaces/js/kits/napi/js_leak_watcher/js_leak_watcher.ts:437-479 | so one process dumping alone with rising time stamps always has exactly the set of its last dump in the directory |
| DumpSets.TwoSetsOfOne | interfaces/js/kits/napi/js_leak_watcher/js_leak_watcher.ts:460-463 | a process dumps, another after it, and the first again: two sets of the first are left |
| DumpRuns.ProgressMeets | interfaces/js/kits/napi/js_leak_watcher/js_leak_watcher.ts:437-587 | the file operations of a dump in their order lead from the directory before to that after it |
| DumpRuns.LoneSnapshotStays | interfaces/js/kits/napi/js_leak_watcher/js_leak_watcher.ts:437-535 | a heap snapshot without a leak list is removed by no clean-up of any process |
| EventLoop.EventQueue.SendEvent | interfaces/js/kits/napi/js_leak_watcher/js_leak_watcher_napi.cpp:408 | an event is pending for the present time plus the delay |
| EventLoop.LeakWatcherEventHandler.ProcessEvent | interfaces/js/kits/napi/js_leak_watcher/js_leak_watcher_napi.h:38-51 | nothing while stopped; a DUMP event calls the dump callback; a GC event calls the GC callback, is armed again and followed by a DUMP event |
| EventLoop.LeakWatcherEventHandler.Dispatch | interfaces/js/kits/napi/js_leak_watcher/js_leak_watcher_napi.h:38-51 | taking an event off the queue and processing it |
| EventLoop.LeakWatcherEventHandler.ExecuteJsFunc | interfaces/js/kits/napi/js_leak_watcher/js_leak_watcher_napi.h:99-110 | one call through the reference given |
| EventLoop.LeakWatcherEventHandler.Reset | interfaces/js/kits/napi/js_leak_watcher/js_leak_watcher_napi.h:111-125 | each reference held is deleted once and forgotten |
| EventLoop.LeakWatcherEventHandler.SetJsLeakWatcherStatus | interfaces/js/kits/napi/js_leak_watcher/js_leak_watcher_napi.h:90-96 | stopping resets the references |
| EventLoop.LeakWatcherEventHandler.HandleGCTask | interfaces/js/kits/napi/js_leak_watcher/js_leak_watcher_napi.cpp:400-410 | a new GC reference and a first GC event |
| EventLoop.LeakWatcherEventHandler.HandleDumpTask | interfaces/js/kits/napi/js_leak_watcher/js_leak_watcher_napi.cpp:258-268 | a new dump reference, and the handler runs |
| EventLoop.LeakWatcherEventHandler.HandleShutdownTask | interfaces/js/kits/napi/js_leak_watcher/js_leak_watcher_napi.cpp:412-421 | a new shutdown reference |
| EventLoop.LeakWatcherEventHandler.SetGcDelayAndDumpDelay | interfaces/js/kits/napi/js_leak_watcher/js_leak_watcher.ts:261-270 | the two settings if the guard accepts them, the defaults otherwise |
| EventLoop.LeakWatcherEventHandler.EnableLeakWatcher | interfaces/js/kits/napi/js_leak_watcher/js_leak_watcher.ts:791-870 | no effect when nothing changes; disabling stops the handler; enabling sets the delays and, unless it fails on the way, starts it |
| EventLoop.DelaysOrdered | interfaces/js/kits/napi/js_leak_watcher/js_leak_watcher.ts:261-270 | dumpDelay stays below gcDelay if and only if the settings are refused or keep their order as unsigned 32-bit words; so for all settings without negative wait and below 2^32 |
| EventLoop.DelaysInMilliseconds | interfaces/js/kits/napi/js_leak_watcher/js_leak_watcher.ts:261-270 | without surprises the delays are those asked for if the interval is above 90000 and the wait positive and shorter, and 90000 and 5000 otherwise |
| EventLoop.NegativeWaitDisorders | interfaces/js/kits/napi/js_leak_watcher/js_leak_watcher.ts:261-270 | a negative wait time passes the guard and becomes the longer delay |
| EventLoop.LongIntervalDisorders | interfaces/js/kits/napi/js_leak_watcher/js_leak_watcher.ts:261-270 | an interval of 2^32 passes the guard and becomes a delay of 0 |
| EventLoop.ReferenceLifeCycle | interfaces/js/kits/napi/js_leak_watcher/js_leak_watcher_napi.h:90-125 | over every run a running handler holds its callbacks and calls nothing else, and each reference created is deleted exactly once or still held if and only if the watcher was never started while its handler was running |
| EventLoop.EnableLeakWatcherLosesNothing | interfaces/js/kits/napi/js_leak_watcher/js_leak_watcher.ts:801-808 | without the separate `enable` entry point that always holds |
| EventLoop.EnableEntryLosesReferences | interfaces/js/kits/napi/js_leak_watcher/js_leak_watcher.ts:781-790 | with it, a stop and a start lose references |
| EventLoop.EventsRunTheirCallback | interfaces/js/kits/napi/js_leak_watcher/js_leak_watcher_napi.h:38-51 | over every run: an event that a running handler gets calls, once, the callback that the latest start gave for events of its id; nothing else calls |
| EventLoop.CallsAreOfTheirKind | interfaces/js/kits/napi/js_leak_watcher/js_leak_watcher_napi.h:44-47 | over every run: GC calls go through references created for GC, DUMP calls through those for DUMP |
| EventLoop.StoppedDrains | interfaces/js/kits/napi/js_leak_watcher/js_leak_watcher_napi.h:40-42 | after a stop no callback runs, nothing is sent, and each dispatch takes one pending event away, until the next start |
| EventLoop.GcEventsConserved | interfaces/js/kits/napi/js_leak_watcher/js_leak_watcher_napi.h:38-51 | over every run, GC events pending plus GC events dropped while stopped are the GC events handleGCTask sent |
| EventLoop.PendingDumpsShadowGcs | interfaces/js/kits/napi/js_leak_watcher/js_leak_watcher_napi.h:38-51 | with constant ordered delays, over every run, the due times of pending DUMP events moved by gcDelay - dumpDelay are a sub-multiset of those of pending GC events |
| EventLoop.RoundStep | interfaces/js/kits/napi/js_leak_watcher/js_leak_watcher_napi.h:38-51 | with one round pending, the only event that can be dispatched is the one whose turn it is, and its dispatch leaves one round pending |
| EventLoop.GcAndDumpAlternate | interfaces/js/kits/napi/js_leak_watcher/js_leak_watcher_napi.h:38-51 | in a session started on an empty queue with ordered delays, always one GC and at most one DUMP event are pending, the DUMP first, and the callbacks strictly alternate |
| EventLoop.AlternationExactly | interfaces/js/kits/napi/js_leak_watcher/js_leak_watcher_napi.h:38-51 | every run of a session has one GC and at most one DUMP event pending and strictly alternating callbacks if and only if the session starts on an empty queue with ordered delays |
| EventLoop.SessionKeepsTime | interfaces/js/kits/napi/js_leak_watcher/js_leak_watcher_napi.h:44-50 | in such a session the GC event pending is due gcDelay after the last GC callback and the DUMP event dumpDelay after it, so callbacks never come sooner |
| EventLoop.FirstSessionKeepsTime | interfaces/js/kits/napi/js_leak_watcher/js_leak_watcher_napi.h:131-132 | a first start with a list of kinds: 90 seconds and 3 seconds |
| EventLoop.LeftoverGcsStay | interfaces/js/kits/napi/js_leak_watcher/js_leak_watcher_napi.cpp:400-410 | started on any queue, a session always has exactly one GC event pending if and only if none was left over at the start |
| EventLoop.RestartLeavesTwoChains | interfaces/js/kits/napi/js_leak_watcher/js_leak_watcher_napi.cpp:400-427 | a start, a stop and a start at once leave two GC events pending |
| LeakRounds.WithEntryKeys | interfaces/js/kits/napi/js_leak_watcher/js_leak_watcher.ts:595 | setting an entry replaces the one of its key, and adds its key at the end or keeps the order of keys; all other entries stay |
| LeakRounds.WithoutKeys | interfaces/js/kits/napi/js_leak_watcher/js_leak_watcher.ts:161-165 | deleting removes exactly the entry of one key and keeps the order of the others |
| LeakRounds.LeakDetector.RegisterObject | interfaces/js/kits/napi/js_leak_watcher/js_leak_watcher.ts:589-597 | the entry is set under its hash |
| LeakRounds.LeakDetector.OnFinalized | interfaces/js/kits/napi/js_leak_watcher/js_leak_watcher.ts:161-165 | the entry is deleted if it is there |
| LeakRounds.LeakDetector.StartGCtask | interfaces/js/kits/napi/js_leak_watcher/js_leak_watcher.ts:339-340 | the list of the round is the map as it stands |
| LeakRounds.LeakDetector.OnProcessInformation | interfaces/js/kits/napi/js_leak_watcher/js_leak_watcher.ts:341-368 | how the promise settles: rejected, no list, process not found, too few objects, collection forced or failed |
| LeakRounds.LeakDetector.StartDumptask | interfaces/js/kits/napi/js_leak_watcher/js_leak_watcher.ts:371-414 | suppression of duplicates, intersection, limits, and whether dumpInner is reached |
| LeakRounds.IntersectionExact | interfaces/js/kits/napi/js_leak_watcher/js_leak_watcher.ts:393-395 | the intersection is exactly the entries of the later list whose hash the earlier one has, each once, in map order |
| LeakRounds.DumpsAreJustified | interfaces/js/kits/napi/js_leak_watcher/js_leak_watcher.ts:339-414 | in every run, where dumpInner is reached a promise has forced a collection since the round's GC task if and only if a promise has settled since; with no promise settled but the round's own, if and only if that one forced it; promises that settle in time are the round's own; and the intersection meets the limit |
| LeakRounds.CollectionForcedExactly | interfaces/js/kits/napi/js_leak_watcher/js_leak_watcher.ts:341-363 | a promise forces a collection if and only if its answer lists the bundle, the objects counted at the last GC task meet the limit for the first process of that name, and the collection does not throw |
| LeakRounds.LateAnswerDumpsUnforced | interfaces/js/kits/napi/js_leak_watcher/js_leak_watcher.ts:341-372 | when no promise has settled, a round dumps without a collection of its own |
| LeakRounds.StaleAnswerStandsIn | interfaces/js/kits/napi/js_leak_watcher/js_leak_watcher.ts:341-372 | a promise of an earlier round can force the collection of a later one |
| LeakRounds.FlagAfterAnswer | interfaces/js/kits/napi/js_leak_watcher/js_leak_watcher.ts:341-368 | the flag for the DUMP task is set after an answer if and only if a collection was forced, or the list does not name the process and the flag was set before |
| LeakRounds.RoundDumpsExactly | interfaces/js/kits/napi/js_leak_watcher/js_leak_watcher.ts:339-413 | a round whose promise has settled reaches dumpInner if and only if the answer names the process, the collection does not throw, the objects at the GC task and those still there at the DUMP task meet the limit of its state (1 foreground, 3 background), and the round is not a duplicate, whatever comes and goes meanwhile |
| LeakRounds.FirstRoundExactly | interfaces/js/kits/napi/js_leak_watcher/js_leak_watcher.ts:339-413 | the first round of all, with the limits as they are from the start: any object, or five in the foreground |
| LeakRounds.UnansweredRoundSilences | interfaces/js/kits/napi/js_leak_watcher/js_leak_watcher.ts:371-396 | a first DUMP task before its answer reports nothing, and the next round over the same object is then suppressed |
| LeakRounds.SuppressedExactly | interfaces/js/kits/napi/js_leak_watcher/js_leak_watcher.ts:377-396 | over every run, a round is suppressed if and only if no key is null and the keys at its GC task are, in order, those of the last intersection computed |
| LeakRounds.SameKeys | interfaces/js/kits/napi/js_leak_watcher/js_leak_watcher.ts:377-388 | lists with the same keys count as duplicates if and only if no key is null |
| LeakRounds.ReportingQuiets | interfaces/js/kits/napi/js_leak_watcher/js_leak_watcher.ts:377-413 | once keys and order stay the same, none null, all rounds from then on reach dumpInner at most once, for any answers, states and limits |
| LeakRounds.NullKeyNeverQuiets | interfaces/js/kits/napi/js_leak_watcher/js_leak_watcher.ts:384-386 | with a null key, n rounds whose answers meet the limit reach dumpInner n times, for every n |
| LeakRounds.NullHashDumpsEachRound | interfaces/js/kits/napi/js_leak_watcher/js_leak_watcher.ts:384-386 | one object with a null hash is so reported from the start |
| WatchedObjects.MapTracksObjects | interfaces/js/kits/napi/js_leak_watcher/js_leak_watcher.ts:589-597 | with unique hashes, the map holds exactly the objects registered since the last clear and not finalized, under any interleaving with late and repeated callbacks |
| WatchedObjects.StockOfRound | interfaces/js/kits/napi/js_leak_watcher/js_leak_watcher.ts:340 | the list of a round is the map as it stood at its GC task |
| WatchedObjects.IntersectionOfRound | interfaces/js/kits/napi/js_leak_watcher/js_leak_watcher.ts:393-396 | the intersection is exactly the objects tracked at the GC task that are still tracked at the DUMP task, once each, in map order |
| WatchedObjects.SuppressedTracksSame | interfaces/js/kits/napi/js_leak_watcher/js_leak_watcher.ts:377-396 | a round is suppressed only if the objects tracked at its GC task are exactly those still there in the last intersection; so a round that sees another object is never suppressed |
| WatchedObjects.CollisionForgets | interfaces/js/kits/napi/js_leak_watcher/js_leak_watcher.ts:161-165 | when hashes collide, the callback of one object forgets another |
| WatcherRuns.TasksAreCalls | interfaces/js/kits/napi/js_leak_watcher/js_leak_watcher_napi.h:38-51 | over every run, stops and starts included, the tasks that reach the rounds are the callbacks run, in order |
| WatcherRuns.EveryDumpHasItsRound | interfaces/js/kits/napi/js_leak_watcher/js_leak_watcher.ts:840-861 | event loop and rounds together: in a session each DUMP task has exactly one GC task since the one before it, and a dump reached then is justified by what has settled since that GC task |
| RuleEngine.BitPositions | interfaces/native/innerkits/include/hichecker.h:27-33 | where the seven rules stand in a word |
| RuleEngine.ValidWords | frameworks/native/hichecker.cpp:49-73 | the words that are accepted are those with some bit set and only bits of the seven rules |
| RuleEngine.RuleIsValid | interfaces/native/innerkits/include/hichecker.h:34-36 | each rule by itself is accepted |
| RuleEngine.UnionIsValid | frameworks/native/hichecker.cpp:49-73 | words that are accepted are accepted together |
| RuleEngine.BitsOfMasks | interfaces/native/innerkits/include/hichecker.h:27-40 | the masks hold exactly the rules of their group |
| RuleEngine.CallMoves | frameworks/native/hichecker.cpp:49-73 | one call by one thread moves the last-call answers of exactly the rules it validly names |
| RuleEngine.AddedIsSeen | frameworks/native/hichecker.cpp:49-60 | a rule that one thread adds is seen by it, and by every other thread unless it is a thread rule |
| RuleEngine.RemovedIsGone | frameworks/native/hichecker.cpp:62-73 | a rule that one thread removes is seen only by a thread that has it as its own |
| RuleEngine.AddMatches | frameworks/native/hichecker.cpp:55-59 | the OR updates keep the words and the flag equal to what the history says |
| RuleEngine.RemoveMatches | frameworks/native/hichecker.cpp:68-72 | so do the XOR updates |
| RuleEngine.HiChecker.AddRule | frameworks/native/hichecker.cpp:49-60 | the words, flag and reports remain those of the history with this call added; an invalid rule changes nothing |
| RuleEngine.HiChecker.RemoveRule | frameworks/native/hichecker.cpp:62-73 | the same for removal |
| RuleEngine.HiChecker.GetRule | frameworks/native/hichecker.cpp:75-79 | a rule is returned if and only if the last valid call naming it was an add: by the thread for thread rules, by anyone for process rules, either for cautions |
| RuleEngine.HiChecker.Contains | frameworks/native/hichecker.cpp:81-88 | true if and only if the argument is valid and every rule in it is so visible |
| RuleEngine.HiChecker.NeedCheckSlowEvent | frameworks/native/hichecker.cpp:213-216 | true if and only if the last valid call naming the slow event rule was an add |
| RuleEngine.HiChecker.NotifySlowProcess | frameworks/native/hichecker.cpp:90-100 | one report, a crash or a log, or none, as the thread's own last calls on the rule and on the crash caution say, whatever other threads change between the reads |
| RuleEngine.HiChecker.NotifyNetWorkUsage | frameworks/native/hichecker.cpp:102-109 | the same for network use |
| RuleEngine.HiChecker.NotifySlowEvent | frameworks/native/hichecker.cpp:111-121 | three reads with any calls of other threads between them: one report if and only if the rule was set at the first and the second, a crash if and only if the crash caution was at the third |
| RuleEngine.HiChecker.NotifyAbilityConnectionLeak | frameworks/native/hichecker.cpp:123-129 | the guard is the process rule at the first read, the handling that of the caution's trigger at the later ones |
| RuleEngine.HiChecker.NotifyCaution | frameworks/native/hichecker.cpp:131-160 | the guard is any rule of the mask in either word at the first read, the handling that of the caution's own trigger at the later ones |
| RuleEngine.HiChecker.HandleCaution | frameworks/native/hichecker.cpp:162-175 | the thread word comes before the process word; the rules acted on are those after whatever others changed since the test; at most one report |
| RuleEngine.HiChecker.OnThreadCautionFound | frameworks/native/hichecker.cpp:177-194 | exactly one report: a crash if the crash rule is set, a log otherwise, also by default |
| RuleEngine.EnableBits | interfaces/native/innerkits/include/hichecker.h:48-51 | CautionEnable of a rule is that rule's bit |
| RuleEngine.ThreadsDoNotInterfere | frameworks/native/hichecker.cpp:90-109 | wherever other threads' calls fall, also between its reads, a thread's notifications on thread rules come to the same in the run without the other threads |
| RuleEngine.OneMomentExactly | frameworks/native/hichecker.cpp:111-175 | for any notification and any calls of others during it: wherever the three reads fall, the outcome is that of one moment, if and only if the guard fails at the start, or when the trigger first shows and again when the crash caution first changes after that, guard and trigger both hold |
| RuleEngine.QuietCallsAreOneMoment | frameworks/native/hichecker.cpp:90-175 | so it is when the calls name no rule of the guard, and none of the trigger or not the crash caution |
| RuleEngine.QuietSlowEvent | frameworks/native/hichecker.cpp:111-121 | for a slow event: when they do not name both its rule and the crash caution |
| RuleEngine.ThreadNoticeIsOneMoment | frameworks/native/hichecker.cpp:90-109 | for slow calls and network use: always |
| RuleEngine.CrashOfNoMoment | frameworks/native/hichecker.cpp:111-175 | the slow event rule removed and the crash caution added between the reads: a crash, which at no moment was due |
| RuleEngine.OwnTriggersDoNotInterfere | frameworks/native/hichecker.cpp:162-175 | a caution whose trigger the thread itself has set is handled as without the other threads, whatever they have set for the process |
| RuleEngine.SlowEventsInterfere | frameworks/native/hichecker.cpp:111-121 | for process rules they need not |
| RawHeapTrailer.NumberOfBytes | interfaces/js/kits/napi/js_leak_watcher/js_leak_watcher_napi.cpp:95-96 | a 32-bit word is read back from its four bytes |
| RawHeapTrailer.AppendMetaData | interfaces/js/kits/napi/js_leak_watcher/js_leak_watcher_napi.cpp:88-129 | for any chunking: success appends what the reads yield up to the first that yields nothing, and the two sizes, and then the trailer gives both parts back if and only if each is shorter than 2^32 bytes and no read before the end of the metadata yielded nothing; without open files nothing changes; with no failing write it succeeds |
| RawHeapTrailer.CopiesWhole | interfaces/js/kits/napi/js_leak_watcher/js_leak_watcher_napi.cpp:106-115 | the loop copies the whole file if and only if each read before its end yields a byte |
| RawHeapTrailer.ReadErrorGoesUnnoticed | interfaces/js/kits/napi/js_leak_watcher/js_leak_watcher_napi.cpp:109-128 | a failing first read: success, nothing copied, and a trailer that does not give the parts back |
| RawHeapTrailer.TrailerRoundTrip | interfaces/js/kits/napi/js_leak_watcher/js_leak_watcher_napi.cpp:95-129 | splitting by the trailer gives both parts back if and only if each is shorter than 2^32 bytes and the metadata was read to its end |
| HeapDigest.FoldOne | interfaces/js/kits/napi/js_leak_watcher/js_leak_watcher.ts:546-551 | feeding one byte is one step of the hash |
| HeapDigest.FoldInPieces | interfaces/js/kits/napi/js_leak_watcher/js_leak_watcher.ts:546-551 | feeding a hash in pieces is feeding it the whole |
| HeapDigest.ReadSync | interfaces/js/kits/napi/js_leak_watcher/js_leak_watcher.ts:544 | a read fills the front of the buffer from the offset and leaves the rest as it was |
| HeapDigest.GetHeapDumpSHA256 | interfaces/js/kits/napi/js_leak_watcher/js_leak_watcher.ts:537-554 | for any length, buffer and short reads the digest is fed each byte once, in order, and nothing stale |
| HeapDigest.HexTextRoundTrip | interfaces/js/kits/napi/js_leak_watcher/js_leak_watcher.ts:555 | the text has two digits a byte, only 0-9 and A-F, and decodes to the digest |
| Registration.RetryNamesFailed | interfaces/js/kits/napi/js_leak_watcher/js_leak_watcher.ts:631-674 | the mask to try again names exactly the kinds that failed and is undefined if none did |
| Registration.Registrar.ExecuteRegister | interfaces/js/kits/napi/js_leak_watcher/js_leak_watcher.ts:630-675 | each kind the mask names is tried once, in order, and the failures are noted |
| Registration.Registrar.GcCallbackRetries | interfaces/js/kits/napi/js_leak_watcher/js_leak_watcher.ts:841-844 | the failed kinds are tried again while attempts are left, as the theorems on runs say |
| Registration.BitsOfKinds | interfaces/js/kits/napi/js_leak_watcher/js_leak_watcher.ts:42-47 | the bits by which the kinds are asked for |
| Registration.FailedIsTriedAgain | interfaces/js/kits/napi/js_leak_watcher/js_leak_watcher.ts:630-675 | over every run: enabling tries each kind asked for once; while attempts are left a GC callback tries each kind whose last attempt in the session failed, once, and no other; later ones try nothing |
| Registration.FailingKindIsTried | interfaces/js/kits/napi/js_leak_watcher/js_leak_watcher.ts:841-844 | in the first session a kind that keeps failing is tried exactly 1 + min(n, 2) times in n callbacks |
| Registration.SucceedingKindIsRegistered | interfaces/js/kits/napi/js_leak_watcher/js_leak_watcher.ts:841-844 | one that succeeds at enabling or in one of the first two callbacks is registered then, and not tried again |
| Registration.RetriesAreBounded | interfaces/js/kits/napi/js_leak_watcher/js_leak_watcher.ts:630-675 | over every run executeRegister runs at most once a session and ATTEMPT_COUNT times more (in the first session 1 + ATTEMPT_COUNT times), and within a session no kind is tried after it succeeded |

## Left out

- The separate race between the callback of a raw heap dump and the trailer: the native dump hands its result to the script before it appends the metadata, so the digest may be taken before or after; the model takes each as one step.
- Overlapping dumps of one process, which share the current time stamp: one dump ends before the next starts.
- Failing file operations other than the ones named, and a dump path that does not exist.
- SHA-256 itself, heap contents and the JSON text of leak lists: opaque bytes and an abstract fold.
- The message and stack trace of a caution, and the getters and setters that carry them.
- InitHicheckerParam: reads a parameter and adds at most one rule.
- Watching without a settings object: the GC callback always forces a collection, and the DUMP callback dumps when the map is not empty.
- The white list and the list of monitored identifiers: filters in front of the registration of an object.
- Errors of enableLeakWatcher after the handler has started, when registering life cycle callbacks throws.
- Callbacks that disable the watcher while the handler is still processing the event that called them.
- The shutdown callback is created and deleted here but never run; the handler has no step that calls it.
- The bindings between scripts and native code, event reports, logs and metrics.
- Registration.Registrar.ExecuteRegister: does not model the callbacks that are registered, because the model of the watch map has their effect as registrations of objects.
