# BigDirTracker core, modelled in Dafny

BigDirTracker (`findLargestDirs.js`) walks a directory tree and computes the total byte size of every directory. It skips a fixed list of system file and directory names, case-insensitively. It keeps in a size map every directory whose total reaches 512 MiB (`MIN_SIZE_THRESHOLD`). Finally it reports the `topN` largest entries of that map, largest first. The script also defines a concurrency gate (`enqueue`/`processQueue`) that admits at most 20 tasks at a time and queues the rest in FIFO order.

This project models that core and proves its properties:

- `names.dfy` (module `Names`): the `toLowerCase` applied to entry names, as ASCII lowercasing.
- `ignored_file_list.dfy` (module `IgnoredFileList`): the `IGNORED_FILES` and `IGNORED_DIRS` sets and facts about their contents.
- `ignore_filter.dfy` (module `IgnoreFilter`): the two ignore checks of `getDirectorySize`.
- `aggregator.dfy` (module `Aggregator`): the directory tree as values, `getFileSize`, and `getDirectorySize` as a recursive method with a loop.
  - The method updates a `DirSizes` object, which models the JS `Map` (values plus key insertion order).
  - It is proved against pure functions that define what is counted (`DirTotal`) and what is recorded (`Recorded`).
  - Lemmas prove conservation, order independence, failure isolation and the threshold rules.
- `ranker.dfy` (module `Ranker`): the `sort((a, b) => b[1] - a[1]).slice(0, topN)` chain, as a stable insertion sort followed by a prefix.
- `concurrency_gate.dfy` (module `ConcurrencyGate`): the gate as a class.
  - `Submit` models `enqueue`, `ProcessQueue` the drain loop, and `Complete` the `finally` of a task.
  - Ghost state records the admission history, the running tasks and the outcomes passed to submitters.
- `find_largest_dirs.dfy` (module `FindLargestDirs`): `findLargestDirectories`, which aggregates into a fresh map and then ranks it.

Modelling choices:

- The filesystem is replaced by values. A file entry carries the result of its `fs.stat` (a size, or a failure). A directory entry carries the result of its `fs.readdir` (its entries, or a failure). Any other entry kind (device, socket, symbolic link) is `Other`.
- A directory path is the list of names from the root the caller gives. `path.join(dirPath, name)` becomes `dirPath + [name]`.
- The source runs the children of a directory concurrently. The model processes them one after another, in listing order. Each child only adds its size to the running total, and `SumEntriesPermutation` proves that the order of the additions does not change the total.
- The source's gate is never called by the traversal: `getDirectorySize` calls itself and `getFileSize` directly. The gate is therefore modelled as a standalone component. Nothing here claims that the traversal is bounded by it.
- `topN` is a natural number.

## Model

| member | source | states |
|---|---|---|
| `Names.LowerChar` | findLargestDirs.js:62 | lowercasing one character: an ASCII capital becomes its lowercase letter, any other character is kept, and the result is never a capital |
| `Names.ToLower` | findLargestDirs.js:62 | `toLowerCase`: the result has the same length and lowercases the name character by character |
| `Names.ToLowerFixesExactlyLowerNames` | findLargestDirs.js:62 | lowercasing leaves a name unchanged exactly when it has no capital letter |
| `Names.ToLowerIdempotent` | findLargestDirs.js:62 | lowercasing produces a name without capitals, and lowercasing it again changes nothing |
| `Names.ToLowerEqualIffEqualsIgnoringCase` | findLargestDirs.js:62 | two names lowercase to the same name exactly when they are equal character by character ignoring case |
| `IgnoredFileList.IgnoredFiles` | ignored_file_list.js:3-9 | defines `IGNORED_FILES`: `pagefile.sys`, `hiberfil.sys`, `swapfile.sys`, `dumpstack.log.tmp` and `memory.dmp` |
| `IgnoredFileList.IgnoredDirs` | ignored_file_list.js:11-19 | defines `IGNORED_DIRS`: `perflogs`, `recovery`, `system volume information`, `$recycle.bin`, `program files` and `program files (x86)` |
| `IgnoredFileList.IgnoredFilesAreLower` | ignored_file_list.js:3-9 | every name in `IGNORED_FILES` is already lowercase |
| `IgnoredFileList.IgnoredDirsAreLower` | ignored_file_list.js:11-19 | every name in `IGNORED_DIRS` is already lowercase |
| `IgnoredFileList.IgnoredSetsShape` | ignored_file_list.js:3-19 | the two sets are disjoint and hold exactly 5 file names and 6 directory names |
| `IgnoredFileList.WindowsNotIgnored` | ignored_file_list.js:18 | `windows` is not in the directory set, because its entry is commented out |
| `IgnoredFileList.MembershipIsExact` | ignored_file_list.js:16-17 | `program files` and `program files (x86)` are separate members; `program files old` and `perflogs2` are not members |
| `IgnoreFilter.IsIgnoredFileName` | findLargestDirs.js:62-65 | defines the file check: the lowercased name is in `IGNORED_FILES` |
| `IgnoreFilter.IsIgnoredDirName` | findLargestDirs.js:62-73 | defines the directory check: the lowercased name is in `IGNORED_DIRS` |
| `IgnoreFilter.IgnoredDirNameIffCaseInsensitiveMember` | findLargestDirs.js:62-73 | a directory name is ignored exactly when it equals some `IGNORED_DIRS` member ignoring case (both directions) |
| `IgnoreFilter.IgnoredFileNameIffCaseInsensitiveMember` | findLargestDirs.js:62-68 | a file name is ignored exactly when it equals some `IGNORED_FILES` member ignoring case (both directions) |
| `IgnoreFilter.CaseDoesNotMatter` | findLargestDirs.js:62-73 | names that differ only in case are ignored alike, both as files and as directories |
| `IgnoreFilter.ProgramFilesSpellingsIgnored` | findLargestDirs.js:70-73 | `Program Files`, `PROGRAM FILES` and `program files` are all ignored directory names |
| `IgnoreFilter.NotIgnoredDirNames` | findLargestDirs.js:70-73 | `Windows` and `Program Files Backup` are not ignored directory names |
| `IgnoreFilter.SetsApplyToTheirOwnKind` | findLargestDirs.js:65-73 | no name is both an ignored file name and an ignored directory name, so each set applies only to its own kind; shown on `Program Files` and `PageFile.sys` |
| `IgnoreFilter.LowersTo` | findLargestDirs.js:62 | a name that equals a lowercase name ignoring case lowercases to exactly that name |
| `Aggregator.GetFileSize` | findLargestDirs.js:45-53 | a file's size is its stat size, or 0 when the stat fails |
| `Aggregator.Failed` | findLargestDirs.js:49-52 | an entry whose stat or listing failed keeps its name and contributes 0 |
| `Aggregator.IsSkipped` | findLargestDirs.js:65-73 | defines which entries are skipped: a file with an ignored file name, or a directory with an ignored directory name |
| `Aggregator.Contribution` | findLargestDirs.js:64-91 | defines what one entry adds to its parent: 0 when skipped, the file size for a file, the directory total for a directory, 0 for any other entry |
| `Aggregator.DirTotal` | findLargestDirs.js:101-105 | defines the value `getDirectorySize` returns: 0 when the listing fails, else the sum over the entries |
| `Aggregator.SumEntries` | findLargestDirs.js:56-88 | defines `totalSize`: the sum of the contributions of the entries |
| `Aggregator.Recorded` | findLargestDirs.js:60-104 | defines what a call writes into `dirSizes`: what its entries write, then its own path when its total reaches the threshold; nothing when the listing fails |
| `Aggregator.RecordedEntries` | findLargestDirs.js:60-92 | defines the writes made for a run of entries, later writes overriding earlier ones as with `Map.set` |
| `Aggregator.RecordedEntry` | findLargestDirs.js:70-78 | defines the writes made for one entry: only a directory that is not skipped is visited |
| `Aggregator.DirSizes.constructor` | findLargestDirs.js:109 | a new size map is empty |
| `Aggregator.DirSizes.Set` | findLargestDirs.js:96 | `Map.set` overwrites the size; a new key is appended to the insertion order and an existing key keeps its place |
| `Aggregator.DirSizes.Entries` | findLargestDirs.js:115 | `Array.from(map.entries())` lists every entry of the map exactly once, with its value |
| `Aggregator.GetDirectorySize` | findLargestDirs.js:55-106 | returns `DirTotal` of the listing (0 when the listing fails); the map afterwards is the old map overwritten by `Recorded`; existing keys keep their order |
| `Aggregator.RecordedAtLeastThreshold` | findLargestDirs.js:95-96 | every size written into the map is at least 536,870,912 |
| `Aggregator.RecordedEntriesAtLeastThreshold` | findLargestDirs.js:60-96 | every size written while processing a directory's entries is at least the threshold |
| `Aggregator.RecordedKeysExtend` | findLargestDirs.js:61 | every path written for a directory lies at or below that directory's path |
| `Aggregator.RecordedEntriesKeysBelow` | findLargestDirs.js:61 | every path written for a directory's entries lies strictly below the directory |
| `Aggregator.OwnRecordIffThreshold` | findLargestDirs.js:95-105 | a directory is written under its own path exactly when it could be listed and its total is at least the threshold, and then the value is that total |
| `Aggregator.RecordedUnderChild` | findLargestDirs.js:60-92 | below one child's path, the entries write exactly what that child writes; siblings write elsewhere |
| `Aggregator.RecordedEntriesOwner` | findLargestDirs.js:60-92 | every path written for a directory's entries lies under one of those entries |
| `Aggregator.SiblingWritesElsewhere` | findLargestDirs.js:61 | an entry writes nothing under the path of a sibling with a different name |
| `Aggregator.ChildRecordIffThreshold` | findLargestDirs.js:70-81 | a subdirectory is written exactly when it is not ignored, could be listed and reaches the threshold; nothing below an ignored directory is written |
| `Aggregator.BelowThresholdChildStillCounted` | findLargestDirs.js:76-78 | a below-threshold subdirectory is not written, but its whole total still counts in its parent's total |
| `Aggregator.SumEntriesAppend` | findLargestDirs.js:78 | the total of two runs of entries is the sum of their totals |
| `Aggregator.SplitAt` | findLargestDirs.js:78 | a directory's total splits into the entries before one entry, that entry's contribution, and the entries after it |
| `Aggregator.SumEntriesPermutation` | findLargestDirs.js:60-94 | a directory's total does not depend on the order in which its entries are added |
| `Aggregator.FailureIsolation` | findLargestDirs.js:45-53 | when one entry's stat or listing fails, the total loses exactly that entry's contribution and every sibling still counts |
| `Aggregator.Conservation` | findLargestDirs.js:60-94 | a directory's total equals the sum of the sizes of all files it counts: non-ignored files, reached through non-ignored directories that could be listed |
| `Aggregator.ConservationOf` | findLargestDirs.js:60-94 | the same equality for a run of entries |
| `Aggregator.IgnoredByKind` | findLargestDirs.js:65-73 | a directory named `Program Files` counts 0 and is never visited; a file of that name counts in full; `PageFile.sys` as a file counts 0 |
| `Aggregator.KindDecidesSkipping` | findLargestDirs.js:65-78 | for every name: a file with an ignored directory name counts its full size, and a directory with an ignored file name counts its full total |
| `Aggregator.ThresholdBoundary` | findLargestDirs.js:13 | a directory of threshold minus one byte is not written; a directory of exactly the threshold is written |
| `Aggregator.SingleFileDir` | findLargestDirs.js:83-101 | a directory holding one counted file has that file's size as its total, and is written only at or above the threshold |
| `Aggregator.ScenarioTwoFiles` | findLargestDirs.js:55-106 | two 300 MiB files: `dirA2` is not written, while `dirA` and the root are written with 600 MiB |
| `Aggregator.ScenarioDirA` | findLargestDirs.js:75-101 | the `dirA` level of that scenario: 600 MiB, written under its own path only |
| `Ranker.Insert` | findLargestDirs.js:116 | inserting into a size-descending list keeps it descending, adds exactly that entry and lengthens it by one |
| `Ranker.SortBySizeDesc` | findLargestDirs.js:116 | the result is sorted by size, non-increasing, and is a permutation of the input |
| `Ranker.Rank` | findLargestDirs.js:115-117 | the result has length `min(topN, n)`, is sorted by size, non-increasing, and is a sub-multiset of the entries |
| `Ranker.RankIsTopN` | findLargestDirs.js:115-117 | ranking any listing of a size map gives a sorted list of that map's entries, with no directory twice, of length `min(topN, map size)`; no entry left out is larger than a kept one |
| `Ranker.SortedEntriesBelongToMap` | findLargestDirs.js:115-116 | every sorted entry is an entry of the map |
| `Ranker.LeftOutNoLarger` | findLargestDirs.js:117 | an entry cut off by the slice is no larger than any entry kept |
| `Ranker.DistinctKeysCount` | findLargestDirs.js:115 | a list of map entries with distinct keys has as many keys as entries |
| `Ranker.PermutationKeepsDistinctKeys` | findLargestDirs.js:116 | sorting cannot duplicate a directory |
| `ConcurrencyGate.Admissible` | findLargestDirs.js:23 | one drain starts no more tasks than wait and never exceeds `MAX_CONCURRENT` (20); it stops only when the queue is empty or every slot is taken |
| `ConcurrencyGate.Gate.constructor` | findLargestDirs.js:9-11 | the gate starts with no running tasks and an empty queue |
| `ConcurrencyGate.Gate.ProcessQueue` | findLargestDirs.js:22-34 | starts the oldest `Admissible` waiting tasks in queue order; afterwards the queue is empty or all 20 slots are taken; the count stays at most 20 |
| `ConcurrencyGate.Gate.AdmitOne` | findLargestDirs.js:24-26 | one turn of the drain loop removes the oldest waiting task and starts it |
| `ConcurrencyGate.Gate.Submit` | findLargestDirs.js:15-20 | the task gets the next ticket and joins the back of the queue; it starts at once exactly when a slot was free |
| `ConcurrencyGate.Gate.Complete` | findLargestDirs.js:26-32 | success or failure is passed to the submitter, the slot is released once, and the task can no longer complete; the oldest waiting task, if any, starts |
| `FindLargestDirs.FindLargestDirectories` | findLargestDirs.js:108-117 | the list is a top-`topN` ranking of everything the traversal wrote, and every size in it is at least the threshold |
| `FindLargestDirs.TopTwoOfThree` | findLargestDirs.js:115-117 | with three directories of sizes x > y > z and `topN` 2, the list is the x directory then the y directory, whatever the map's insertion order |
| `FindLargestDirs.OnlyTopTwo` | findLargestDirs.js:115-117 | the top-two promises admit exactly one list for three directories of distinct sizes |
| `FindLargestDirs.TopTwoOfThreeMiB` | findLargestDirs.js:115-117 | directories of 700, 600 and 550 MiB with `topN` 2 give the 700 MiB directory, then the 600 MiB one |

## Left out

- Filesystem I/O is not modelled: `fs.readdir`, `fs.stat`, `fs.writeFile` and `fsSync.appendFile`. Their results are values in the tree, and the report and error log are not written.
- `logError`, console output, the GB formatting with `toFixed(2)` and the `Date.now()` timing are left out. They do not affect any size or the ranking.
- The command-line handling is left out. This includes the `parseInt` quirk where a non-numeric count gives `NaN` and so an empty list; `topN` is a natural number instead.
- `toLowerCase` is modelled as ASCII lowercasing; full Unicode case mapping is not modelled.
- Sizes are unbounded integers. JavaScript adds them as doubles, which are exact only below 2^53 bytes.
- `path.join` normalisation is not modelled. Paths are lists of names, and sibling names are assumed distinct only where a lemma requires `UniqueNames`.
- Symbolic links are `Other` entries and are never followed. Since the tree is finite, cycles cannot occur.
- Promise interleaving is not modelled. Children are summed sequentially. The gate's tasks are events: `Submit`, then `Complete` for a running ticket. A task body that throws synchronously, or that re-enters `enqueue` before its first `await`, is not modelled.
- `Aggregator.GetDirectorySize`: the order in which new keys enter the map is not stated. In the source it is the order in which concurrent calls finish. The ranker's lemmas therefore hold for any insertion order, and they say nothing about the order of ties.
