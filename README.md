# cwalk in Dafny

cwalk walks a directory tree in parallel. It is made of these parts:

- **Walker** (`cwalk.go`). A pool of workers. Each worker keeps a LIFO queue of directory branches. A worker pops the last branch, lstats the directory and lists it. It then makes the optional callbacks (OnLstat, OnReadDir, OnDirectory, OnFileOrSymlink) and pushes every sub-directory except `.snapshot` onto its own queue. When its queue is empty, it steals the last item of the first other worker holding more than one item. It exits when there is nothing to steal.
- **Stats walker** (`pkg/stat/walker.go`). It runs the walker with an OnLstat callback. That callback builds a `FileInfo` for each successful lstat, applies the **filters** (`pkg/stat/filters.go`) and records the entry. Each recorded entry is added to:
  - the per-type count, size and inode maps;
  - a bucket for its modification year;
  - a bucket for its owner, whose user name is looked up once.

  Finally `calculateSummary` folds the type maps into the summary.
- **Flag parsers** (`cmd/cwalk/cmd/root.go`). `parseInodeTypes`, `parseStringList`, `parseUintList`, `parseDuration`, `parseSize` and `parsePerms` turn flag values into filter settings.
- **Formatter** (`pkg/output/formatter.go`). It renders the results as a summary table, a per-year table or a per-UID table. Optional columns appear only when some value in them is positive. Numbers are scaled by `formatAlignedColumn` and `formatBytes`.

## How the model is built

The modules follow those files:

| Module | File | Models |
|---|---|---|
| `Branches` | `branch.dfy` | walkBranch and its paths |
| `Fs` | `fs.dfy` | the filesystem the walk sees, as a tree value |
| `WalkSpec` | `walk_spec.dfy` | processBranch, stealWork and the worker pool, stated over values |
| `WalkTheorems` | `walk_theorems.dfy` | what a complete walk shows |
| `Cwalk` | `cwalk.dfy` | the `Worker` and `Walker` classes |
| `StatFilters` | `filters.dfy` | the filters |
| `Stats` | `stats.dfy` | the `StatsWalker` class and its aggregation |
| `Cli` | `cli.dfy` | the flag parsers |
| `Output` | `output.dfy` | the formatter |
| `Text` | `text.dfy` | the string functions of Go's library that the core calls |
| `Wrappers` | `wrappers.dfy` | `Option`/`Result` |

**Walker classes.**
- The walker and its workers are classes whose methods update queues in place.
- Each method is proved against a function of the old state: `Step` for one iteration of a worker's loop, `StealRule` for stealWork, `ExpandEvents`/`ExpandChildren` for processBranch.
- Goroutines become a sequential interleaving: `Run` lets any unfinished worker take one iteration until all of them have exited.
- The pool invariant `Inv` holds after every step: what has been shown so far, plus the work still queued, equals the work of the root.
- From it, `Run` proves that every reachable directory is processed exactly once.

**Inputs that are parameters.**
- Strings have one character per byte.
- The user database (`users`) is a parameter, and so is the clock (`now`, in nanoseconds).
- The name regex is a predicate on strings.
- Parse errors are a `ParseError` value naming the check that failed, not Go's message text.

**Formatter abstractions.**
- `formatAlignedColumn` yields one `Cell` per value: `Blank` (the empty string), or the value with its unit suffix. The float text, alignment and dimming are not modelled (see "Left out").
- JSON and CSV output is `Encoded(format, mode)`.
- In the grouped tables the source repeats one block for each of its six optional columns: a `has` flag, a header, an `if` per row. The model writes these as one loop over `OptionalFields`. A column is formatted only when it is shown, which gives the same output.
- The key sort (`sort.Sort`, `sort.Slice`) is modelled by repeatedly selecting the first remaining key.

**Behaviours kept exactly as written.**
- `processBranch` calls OnLstat for a file or symlink only inside the `OnFileOrSymlink != nil` branch (`cwalk.go:337-353`). It also calls it after OnFileOrSymlink. The model keeps this.
  - The doc comment at `cwalk.go:37-42` gives the order as OnLstat first, and `cwalk_test.go:348-372` expects eight lstat calls with only OnLstat set.
  - `WalkTheorems.OnlyLstatSeesOnlyDirectories` states the consequence. With only OnLstat set, as the stats walker sets it, every callback is a directory's lstat, so the stats count directories only.
- `Run` returns nil in every case (`cwalk.go:226`).
- The record step of `walkPath` never yields `"other"` (`walker.go:185-192`), unlike `getFileType`.

## Model

| member | source | states |
|---|---|---|
| Branches.IsRoot | cwalk.go:101-104 | a branch is the root iff it has no parent; any other branch is its parent's child under its basename |
| Branches.RootIsNoChild | cwalk.go:101-104 | the root is exactly the branch that is no branch's child |
| Branches.RelPath | cwalk.go:106-109 | the root's path is empty; a child of the root has its basename; a deeper branch has its parent's path, '/', then its basename |
| Branches.RelPathElems | cwalk.go:112-117 | the root has no elements; a child has its parent's elements followed by its basename; there are as many elements as parent links |
| Branches.AbsPath | cwalk_test.go:191-235 | absPath is the root path itself for the root, and otherwise the root path joined with every element of the relative path |
| Branches.RootHasEmptyPath | cwalk.go:102-117 | the branch Run seeds (`&walkBranch{}`) is the root, has no elements and has the empty relative path |
| Branches.ChildRelPath | cwalk.go:316-330 | the path reported for entry name of a branch is the branch's elements followed by name, joined with '/' |
| Branches.ChildRelPathIsRelPath | cwalk.go:316-330 | the relative path processBranch reports for a sub-directory entry is exactly relPath of the branch it pushes for that entry |
| Branches.RelPathSplitsIntoElems | cwalk.go:107-109 | the relative path of a branch whose names hold no '/' splits on '/' back into relPathElems |
| Branches.ExtendsAtDepth | cwalk.go:96-99 | an ancestor sits exactly depth(x) - depth(a) parent links above a branch |
| Branches.SiblingsDisjoint | cwalk.go:326-330 | two children of one branch have a common descendant only if their names agree |
| Branches.NotBelowOwnChild | cwalk.go:326-330 | a branch is never a descendant of the child it pushes |
| Fs.LookupChild | cwalk.go:296-348 | when names in a listing are distinct, following one more listed name reaches exactly that entry's inode |
| Fs.LookupValid | cwalk.go:296-348 | every inode reached from a valid tree roots a valid tree |
| Text.SplitThenJoin | cmd/cwalk/cmd/root.go:232 | joining strings.Split's pieces with the separator gives the string back |
| Text.JoinThenSplit | cwalk.go:107-109 | splitting a join of separator-free pieces gives the pieces back |
| Text.SplitPiecesLackSeparator | cmd/cwalk/cmd/root.go:232 | no piece of a split contains the separator |
| Text.TrimSpace | cmd/cwalk/cmd/root.go:233 | the trimmed string neither starts nor ends with white space |
| Text.TrimSpaceIdempotent | cmd/cwalk/cmd/root.go:334 | trimming a trimmed string changes nothing |
| Text.ToUpper | cmd/cwalk/cmd/root.go:305 | upper-casing keeps the length and maps every character on its own |
| Text.IsDigit | cmd/cwalk/cmd/root.go:411-413 | isDigit holds exactly for the ten characters '0'..'9' |
| Text.DecimalString | cmd/cwalk/cmd/root.go:287 | %d of a natural number is a digit string without leading zeros that denotes that number |
| Cwalk.NormalizeWorkers | cwalk.go:178-181 | a worker count of zero or less becomes one; a positive count is kept |
| Cwalk.Walker.constructor | cwalk.go:178-192 | NewWalker stores the root path and callbacks, normalises the worker count and starts with no workers |
| Cwalk.Worker.QueueLen | cwalk.go:127-131 | queueLen is the length of the queue |
| Cwalk.Worker.QueuePush | cwalk.go:134-138 | queuePush appends the item at the end of the queue |
| Cwalk.Worker.QueuePop | cwalk.go:159-169 | queuePop removes and returns the last item, or returns nil and changes nothing when the queue is empty |
| Cwalk.Worker.ProcessEntry | cwalk.go:307-355 | one entry: a `.snapshot` directory is skipped; a directory is reported and pushed; anything else gets OnFileOrSymlink and then OnLstat, both only when OnFileOrSymlink is set |
| Cwalk.Worker.ProcessEntries | cwalk.go:307-356 | the loop over a listing makes the callbacks of each entry in listing order and pushes the children of the descended entries in that order |
| Cwalk.Worker.ProcessBranch | cwalk.go:281-359 | processBranch: its callbacks, its pushes and its error (lstat failure, then ReadDir failure, each naming the absolute path) are those of the specification functions |
| Cwalk.Walker.FindVictim | cwalk.go:262-275 | the scan finds the first worker other than the thief, in index order, whose queue holds more than one item |
| Cwalk.Walker.TakeLast | cwalk.go:268-273 | a steal moves the victim's last item to the end of the thief's queue |
| Cwalk.Walker.StealWork | cwalk.go:258-278 | stealWork applies the stealing rule to the queues and reports whether it stole |
| Cwalk.Walker.WorkerStep | cwalk.go:233-250 | one iteration of startWorker's loop is exactly one `Step` of the pool: pop and process, or steal, or exit |
| Cwalk.Walker.StealOrExit | cwalk.go:240-245 | with an empty queue the worker steals, and exits when nothing can be stolen |
| Cwalk.Walker.StartWorker | cwalk.go:230-250 | a worker's loop terminates with the worker finished and the pool invariant kept |
| Cwalk.Walker.CreateWorkers | cwalk.go:196-216 | Run creates numWorkers workers with empty queues and pushes the root onto the first |
| Cwalk.Walker.Run | cwalk.go:195-227 | Run terminates, returns nil, leaves every worker finished, and the trace is exactly the root's work; each branch is processed once if reachable and never otherwise |
| Cwalk.Walker.Stop | cwalk.go:361-363 | Stop sets the cancellation flag |
| WalkSpec.EntriesChildren | cwalk.go:307-335 | the branches pushed for a listing are exactly the children named by its descended entries (directories other than `.snapshot`) |
| WalkSpec.ErrorsStopTheBranch | cwalk.go:286-303 | a failed lstat or ReadDir pushes nothing and visits no entry; after a failed lstat only the lstat callback is made; after a failed ReadDir only the lstat and ReadDir callbacks |
| WalkSpec.EntryEventsPaths | cwalk.go:310-355 | every callback for an entry carries the relative path of the branch that would be pushed for it; a skipped `.snapshot` directory gets none; a file gets OnFileOrSymlink and then OnLstat(false) |
| WalkSpec.FirstVictim | cwalk.go:262-276 | the victim is the first worker other than the thief with more than one item; when there is none, no such worker exists |
| WalkSpec.StealRule | cwalk.go:258-278 | a steal succeeds exactly when some other worker has more than one item; on success the first such worker loses its last item to the thief; otherwise nothing changes |
| WalkSpec.MoveKeepsItems | cwalk.go:268-273 | moving one item between queues loses and duplicates nothing |
| WalkSpec.StealKeepsItems | cwalk.go:258-278 | a steal keeps the multiset of queued branches, and the victim's queue stays non-empty |
| WalkSpec.InitialInv | cwalk.go:214-216 | the pool with the root pushed onto the first worker satisfies the invariant |
| WalkSpec.WorkUnfold | cwalk.go:281-356 | the work of a branch is its own expansion and callbacks plus the work of the branches it pushes |
| WalkSpec.PopPreservesInv | cwalk.go:233-238 | processing a popped branch keeps the invariant: shown work plus queued work is the root's work |
| WalkSpec.StepPreservesInv | cwalk.go:230-250 | every step of a running worker keeps the invariant: no branch is lost or processed twice |
| WalkSpec.MoveKeepsWeight | cwalk.go:268-273 | a steal keeps the total queued work |
| WalkSpec.IdleProgress | cwalk.go:240-245 | an idle worker steals or exits: queued work is unchanged and fewer workers are idle |
| WalkSpec.StepProgress | cwalk.go:232-249 | every step consumes queued work or reduces the number of idle running workers, so the walk terminates |
| WalkSpec.FinishedShowsAllWork | cwalk.go:218-219 | once every worker has exited, the walk has shown exactly the work of the root |
| WalkTheorems.WorkAtExpandsOnce | cwalk.go:326-331 | within the work of a branch, a branch is processed at most once, and only if it descends from that branch |
| WalkTheorems.ExpandedAtMostOnce | cwalk.go:326-331 | the walk of a valid tree processes no branch twice |
| WalkTheorems.ReachableWorkIncluded | cwalk.go:307-335 | the work of a reachable directory is part of the root's work |
| WalkTheorems.WorkAtOnlyReachable | cwalk.go:307-335 | every branch processed within a reachable branch's work is reachable |
| WalkTheorems.EachReachableDirectoryOnce | cwalk.go:307-335 | the walk processes each reachable directory exactly once and nothing else |
| WalkTheorems.OnlyLstatSeesOnlyDirectories | cwalk.go:337-353 | with only OnLstat set, every callback of the walk is the lstat of a directory (isDir = true) |
| WalkTheorems.NoEntryEventsWithoutFileCallbacks | cwalk.go:337-353 | with only OnLstat set, no listed entry produces a callback |
| StatFilters.GetFileType | pkg/stat/filters.go:150-161 | "dir" iff a directory; "symlink" iff a non-directory symlink; "file" iff neither and regular; otherwise "other" |
| StatFilters.AfterLastSlash | pkg/stat/filters.go:80-87 | the backward scan finds the text after the last '/', which holds no '/'; nothing when the path has no '/' |
| StatFilters.FileNameOfPath | pkg/stat/filters.go:78-90 | for a path "dir/name" the regex sees name |
| StatFilters.FileNameWholePath | pkg/stat/filters.go:88-90 | a path without '/', or ending in '/', is matched as a whole |
| StatFilters.Matches | pkg/stat/filters.go:42-146 | an entry matches iff it passes every active check: type, both mtime bounds, both size bounds, name, UID list, GID list, permission masks |
| StatFilters.NoFiltersMatchEverything | pkg/stat/filters.go:8-12 | the zero Filters matches every entry |
| StatFilters.TighterFiltersMatchLess | pkg/stat/filters.go:39-41 | checks combine by AND: turning more of them on never admits more entries |
| StatFilters.TypesSelect | pkg/stat/filters.go:44-49 | with a non-empty Types map an entry matches only if its type maps to true, and that check only removes entries |
| StatFilters.OnlyTypesSet | pkg/stat/filters.go:44-49 | with only Types set, an entry matches iff the map is empty or the entry's type maps to true |
| StatFilters.SizeBoundsInclusive | pkg/stat/filters.go:69-75 | with only the size bounds set, an entry matches iff min <= size <= max |
| StatFilters.OwnerListsRequireMembership | pkg/stat/filters.go:98-123 | with only a non-empty UID (resp. GID) list set, an entry matches iff its UID (GID) is in the list |
| StatFilters.NameRegexSeesLastElement | pkg/stat/filters.go:78-95 | with only the regex set, an entry "dir/name" matches iff the regex matches name |
| StatFilters.PermsBeyondPermissionBits | pkg/stat/filters.go:126-138 | a PermsHas mask with a bit outside the nine permission bits matches nothing; a PermsNot mask made only of such bits excludes nothing |
| StatFilters.MtimeBounds | pkg/stat/filters.go:52-66 | OlderThan d keeps exactly the entries at least d old; YoungerThan d keeps exactly the entries at most d old |
| Stats.Name | pkg/stat/walker.go:185-192 | the type keys are "file", "dir", "symlink" and "other" |
| Stats.NamesDistinct | pkg/stat/walker.go:185-192 | distinct types have distinct keys |
| Stats.AddEntryCounts | pkg/stat/walker.go:205-220 | adding an entry raises the inode total and its type's count by one, and the size total and its type's size by its size; nothing else changes; totals stay the sums of the per-type figures |
| Stats.RecordType | pkg/stat/walker.go:184-192 | the record step yields dir, symlink or file, never other |
| Stats.RecordTypeVersusGetFileType | pkg/stat/walker.go:184-192 | the record step agrees with getFileType, except that an "other" entry is counted as a file |
| Stats.FileInfoOf | pkg/stat/walker.go:154-171 | the FileInfo carries the path, size and mode; IsDir and IsSymlink come from the mode; UID/GID come from Stat_t, or are zero without one |
| Stats.MatchesAsWritten | pkg/stat/walker.go:174 | with non-nil filters the call is Matches; with nil filters it panics |
| Stats.NilFiltersPanic | pkg/stat/filters.go:42-44 | calling Matches on nil filters panics for every entry |
| Stats.MatchesOrAll | pkg/stat/walker.go:104-107 | as documented: nil filters admit everything; non-nil filters agree with the as-written call |
| Stats.NilFiltersAreNoFilters | pkg/stat/walker.go:106 | nil filters behave like the zero Filters |
| Stats.AddKeepsRecordTally | pkg/stat/walker.go:205-246 | adding an entry of a record type keeps a tally consistent, non-negative, with "other" empty |
| Stats.TallyOfConsistent | pkg/stat/walker.go:205-246 | every tally of recorded entries is consistent and has no "other" entries |
| Stats.TallyOfSnoc | pkg/stat/walker.go:199-246 | recording an entry adds it to exactly the buckets whose scope covers it |
| Stats.SumValuesRemove | pkg/stat/walker.go:257-263 | the sum over a map is one value plus the sum of the rest, whichever key comes first |
| Stats.TypeMapKeys | pkg/stat/walker.go:194-197 | the type maps have a key for exactly the types with a positive count, holding that type's count and size |
| Stats.CountMapAdd | pkg/stat/walker.go:195 | `TotalFiles[fileType]++` creates the key on first use and leaves the other keys alone |
| Stats.SizeMapAdd | pkg/stat/walker.go:196 | `TotalSize[fileType] += size` likewise |
| Stats.FallbackNameShowsUID | pkg/stat/walker.go:278-284 | when the lookup fails, the name is "uid:" followed by the decimal UID |
| Stats.YearsSnoc | pkg/stat/walker.go:199-229 | recording an entry adds its year and its owner to the occurring years and owners |
| Stats.TypeMapsSnoc | pkg/stat/walker.go:194-197 | recording an entry bumps its type's count by one and its type's size by its size |
| Stats.TypeMapsSum | pkg/stat/walker.go:254-274 | the type maps read back as the tally of all entries; their values sum to the inode and size totals |
| Stats.AddValues | pkg/stat/walker.go:257-263 | the range loop adds exactly the sum of the map's values |
| Stats.AbsentHasZeroTally | pkg/stat/walker.go:199-246 | a year or owner with no recorded entry has the zero tally |
| Stats.YearMapSnoc | pkg/stat/walker.go:199-220 | recording an entry adds it to its year's bucket, creating the bucket on first use; other buckets are unchanged |
| Stats.UIDMapSnoc | pkg/stat/walker.go:222-246 | recording an entry adds it to its owner's bucket, creating the bucket with the looked-up name on first use |
| Stats.EnterMeaning | pkg/stat/walker.go:181-246 | one record step takes the maps of the entries so far to the maps of those entries plus one |
| Stats.NothingRecorded | pkg/stat/walker.go:112-120 | before anything is recorded the maps are empty |
| Stats.SummaryFromTypeMaps | pkg/stat/walker.go:254-274 | calculateSummary adds the map sums to the totals and copies the per-type entries, a missing key reading as zero |
| Stats.FreshSummaryIsTally | pkg/stat/walker.go:254-274 | starting from the zero summary, the summary is the tally of all recorded entries |
| Stats.RecordedPrefix | pkg/stat/walker.go:145-176 | the callbacks are handled one at a time in trace order |
| Stats.RecordedMembers | pkg/stat/walker.go:145-176 | a FileInfo is recorded iff some lstat callback produced it from a successful lstat and it passes the filters |
| Stats.RecordedAllSnoc | pkg/stat/walker.go:129-133 | the entries of several walks are recorded path after path |
| Stats.StatsWalker.constructor | pkg/stat/walker.go:107-122 | NewStatsWalker starts with a zero summary, empty maps and nothing recorded |
| Stats.StatsWalker.Record | pkg/stat/walker.go:145-247 | the OnLstat closure appends the entry if its lstat succeeded and it passes the filters (nil filters as documented; see Findings), and keeps the maps equal to the tallies of all recorded entries |
| Stats.StatsWalker.Add | pkg/stat/walker.go:178-246 | under the mutex: append the entry, then perform the record step on the maps |
| Stats.StatsWalker.UpdateCounts | pkg/stat/walker.go:194-197 | the three type maps are bumped at the entry's type |
| Stats.StatsWalker.UpdateYearStats | pkg/stat/walker.go:199-220 | the year's bucket is found or created and the entry is added to it |
| Stats.StatsWalker.UpdateUIDStats | pkg/stat/walker.go:222-246 | the owner's bucket is found or created, with the looked-up name, and the entry is added to it |
| Stats.StatsWalker.RunCwalk | pkg/stat/walker.go:250-251 | the walk with OnLstat only returns nil and shows the whole work of the root |
| Stats.StatsWalker.WalkPath | pkg/stat/walker.go:143-252 | walkPath records exactly what Record admits from a complete trace of the walk (nil filters as documented; see Findings) |
| Stats.StatsWalker.CalculateSummary | pkg/stat/walker.go:254-274 | the summary becomes SummaryAfter of the old summary and the recorded entries |
| Stats.StatsWalker.Summarised | pkg/stat/walker.go:255-273 | the summary computed from the type maps |
| Stats.StatsWalker.Walk | pkg/stat/walker.go:127-139 | every path is walked in order, no walk fails, the entries of all walks are recorded (nil filters as documented; see Findings), and then the summary is calculated |
| Cli.ParseInodeTypes | cmd/cwalk/cmd/root.go:230-236 | the map sets each trimmed comma-separated piece to true |
| Cli.InodeTypesKeys | cmd/cwalk/cmd/root.go:230-236 | the keys are exactly the trimmed pieces, all mapped to true |
| Cli.InodeTypesOfEmpty | cmd/cwalk/cmd/root.go:230-236 | the empty value gives the single key "" |
| Cli.TypeFlagSelects | cmd/cwalk/cmd/root.go:115-117 | with the parsed map as the only filter, an entry matches iff its type is one of the listed pieces |
| Cli.ParseStringList | cmd/cwalk/cmd/root.go:331-339 | the result is the trimmed, non-empty pieces in order |
| Cli.StringListItems | cmd/cwalk/cmd/root.go:331-339 | every item is non-empty, holds no comma and is already trimmed |
| Cli.StringListRoundTrip | cmd/cwalk/cmd/root.go:331-339 | joining such items with commas and parsing gives them back |
| Cli.ParseUint32OfNumeral | cmd/cwalk/cmd/root.go:350 | the numeral of a uint32 parses back to it |
| Cli.ParseUintList | cmd/cwalk/cmd/root.go:343-357 | parseUintList skips empty items, fails at the first bad item, and otherwise returns the values in order |
| Cli.PrefixErrorStays | cmd/cwalk/cmd/root.go:350-353 | once an item fails, the whole list fails with that error |
| Cli.UintListOkExactly | cmd/cwalk/cmd/root.go:343-357 | the list parses iff every non-empty trimmed item is a decimal below 2^32 |
| Cli.UintListValues | cmd/cwalk/cmd/root.go:343-357 | on success there is one value per item, and it is that item's value |
| Cli.UintListRoundTrip | cmd/cwalk/cmd/root.go:343-357 | numerals joined by commas parse back to the numbers |
| Cli.CleanItemsRoundTrip | cmd/cwalk/cmd/root.go:343-357 | any clean items that parse to vs, joined by commas, parse back to vs |
| Cli.Wrap64InRange | cmd/cwalk/cmd/root.go:267-282 | int64 wrapping changes nothing inside the int64 range |
| Cli.EndOfNumberUnique | cmd/cwalk/cmd/root.go:248-251 | the backward scan stops at the last digit, the only position followed only by non-digits |
| Cli.Duration | cmd/cwalk/cmd/root.go:241-289 | parseDuration as intended: errors of the text pass through; the result is accepted iff the number times the unit's length is within int64, and then it is that product |
| Cli.DurationAsWritten | cmd/cwalk/cmd/root.go:241-289 | parseDuration as written: errors of the text pass through and every accepted result is within int64 (Cli.AsWrittenAgreesWithoutWrap relates it to the intended result) |
| Cli.ParseDuration | cmd/cwalk/cmd/root.go:241-289 | parseDuration computes the intended duration (see Findings) |
| Cli.LastDigit | cmd/cwalk/cmd/root.go:248-251 | the scan returns the index of the last digit, or -1 |
| Cli.ReadNumeralWithUnit | cmd/cwalk/cmd/root.go:248-285 | a numeral followed by a known unit is read as that number and unit |
| Cli.DurationOfNumeral | cmd/cwalk/cmd/root.go:264-288 | n days are n*24 h, weeks n*168 h, years n*8760 h, and m, h, s are minutes, hours and seconds; the result is refused if it does not fit a Duration |
| Cli.DurationErrors | cmd/cwalk/cmd/root.go:252-285 | a text without a digit is malformed; an unknown unit is refused, naming the unit |
| Cli.AsWrittenAgreesWithoutWrap | cmd/cwalk/cmd/root.go:264-288 | where the int64 products do not wrap, the source's computation equals the intended one |
| Cli.DurationWrapsAround | cmd/cwalk/cmd/root.go:265-267 | "2305843009213693953d" is 24 h as written and out of range as intended |
| Cli.ParseSize | cmd/cwalk/cmd/root.go:294-328 | parseSize trims, reads the leading digits and dots, upper-cases and trims the unit, and scales by it |
| Cli.NumberEnd | cmd/cwalk/cmd/root.go:299-302 | the forward scan stops after the leading digits and dots |
| Cli.SizeOfNumeral | cmd/cwalk/cmd/root.go:294-328 | a whole number with a unit, in either case and after optional space, is that number times the unit's multiplier |
| Cli.SizeUnits | cmd/cwalk/cmd/root.go:312-325 | B or nothing is 1; K/KB, M/MB, G/GB, T/TB are 1024^1..1024^4; no other unit is known |
| Cli.SizeWithOneDecimal | cmd/cwalk/cmd/root.go:294-328 | "a.b<unit>" is (10a+b) * multiplier / 10, rounded down |
| Cli.SizeErrors | cmd/cwalk/cmd/root.go:307-325 | no number is a parse error; an unknown unit is refused, naming the unit |
| Cli.ParsePerms | cmd/cwalk/cmd/root.go:363-408 | parsePerms ORs the parts' bits and stops at the first refused part |
| Cli.ParseParts | cmd/cwalk/cmd/root.go:367-405 | the loop over the parts computes PermsOf |
| Cli.AddPart | cmd/cwalk/cmd/root.go:369-404 | one part: too short, bad class or bad operator is refused in that order; otherwise its bits are ORed in |
| Cli.ClassBits | cmd/cwalk/cmd/root.go:389-400 | u, g, o shift by 6, 3, 0; a copies to all three; any other class is refused |
| Cli.ReadBits | cmd/cwalk/cmd/root.go:378-387 | r, w, x anywhere in the rest of the part set 4, 2, 1 |
| Cli.FirstErrorIsFirst | cmd/cwalk/cmd/root.go:368-405 | no error is reported iff no part fails; otherwise the first failing part's error is reported |
| Cli.PermsWithinPermissionBits | cmd/cwalk/cmd/root.go:363-408 | an accepted mask lies within 0o777 |
| Cli.PermsOkExactly | cmd/cwalk/cmd/root.go:363-408 | the flag is accepted iff every trimmed part is; a refused flag reports its first refused part |
| Cli.PermsOfAppend | cmd/cwalk/cmd/root.go:367-405 | lists combine by OR; an error in the first list wins, then one in the second |
| Cli.PartBitsSelect | cmd/cwalk/cmd/root.go:378-400 | the bit for letter l of class c is set iff the part names c (or a) and mentions l |
| Cli.MinusAddsLikePlus | cmd/cwalk/cmd/root.go:402-404 | '-' is accepted and adds the same bits as '+' |
| Output.Pow1024Monotone | pkg/output/formatter.go:588-591 | powers of 1024 grow with the exponent |
| Output.ShiftedBounds | pkg/output/formatter.go:588-591 | dividing k times by 1024 is dividing by 1024^k, rounded down |
| Output.FormatBytes | pkg/output/formatter.go:582-593 | below 1024 the exact "%d B"; otherwise the divisor is the largest power of 1024 not above b, and the letter is KMGTPE at its exponent |
| Output.BracketUnique | pkg/output/formatter.go:587-592 | only one exponent brackets b, so the unit is determined |
| Output.ReplaceLeadingFractionZeros | pkg/output/formatter.go:742-757 | the scan blanks exactly the zeros between the dot and the first non-zero digit |
| Output.FirstNonZeroIs | pkg/output/formatter.go:746-752 | the scan stops at the first non-zero digit |
| Output.BlankedZerosPointwise | pkg/output/formatter.go:742-757 | the length is kept; a character becomes a space iff it is a leading fraction zero before a non-zero digit |
| Output.BlankedZerosIdempotent | pkg/output/formatter.go:742-757 | blanking twice is blanking once |
| Output.UnitIndexBracket | pkg/output/formatter.go:625-636 | the column unit is the largest power of 1024 not above the maximum, capped at EB |
| Output.UnitOf | pkg/output/formatter.go:628-634 | the unit loop computes that index |
| Output.ColumnMax | pkg/output/formatter.go:605-610 | the maximum starts from 0: it is non-negative, bounds every value and is a value unless 0 |
| Output.FormatAlignedColumn | pkg/output/formatter.go:600-738 | formatAlignedColumn produces one cell per value, as specified by ColumnCells |
| Output.MaxOf | pkg/output/formatter.go:605-610 | the maximum loop computes ColumnMax |
| Output.AllBlank | pkg/output/formatter.go:613-620 | a column without a positive value is all blank |
| Output.FillCells | pkg/output/formatter.go:695-735 | the second pass: a blank for zero, otherwise the value, with the unit suffix on the maximum |
| Output.ColumnCellsMeaning | pkg/output/formatter.go:600-738 | one cell per value; blank iff zero or no positive value; a shown cell holds its value; the unit is shown iff bytes and the value is the maximum, and it brackets the value |
| Output.BytesUnitMatchesColumnUnit | pkg/output/formatter.go:582-636 | formatBytes and formatAlignedColumn choose the same unit for a value of at least 1 KiB |
| Output.SummaryTable | pkg/output/formatter.go:208-279 | summaryTable builds the headers, the inodes row and the size row of SummaryView |
| Output.ShownKindsMembers | pkg/output/formatter.go:214-225 | the per-type columns are exactly the types with a positive count |
| Output.SizeCellMeaning | pkg/output/formatter.go:253-269 | a one-value size column is blank for a value <= 0, and otherwise holds the value with its own unit |
| Output.KindTitleInjective | pkg/output/formatter.go:214-225 | distinct types have distinct titles |
| Output.SummaryViewShape | pkg/output/formatter.go:208-279 | both rows are as wide as the header and start with "Total Inodes"/"Total Size" |
| Output.SummaryColumnsPresent | pkg/output/formatter.go:214-225 | a type's column appears iff its count is positive |
| Output.SummaryColumnsAligned | pkg/output/formatter.go:236-270 | the column under a type's title holds that type's count and size |
| Output.FieldTitleInjective | pkg/output/formatter.go:343-360 | distinct columns have distinct titles |
| Output.HasPositive | pkg/output/formatter.go:323-340 | a has flag is set iff some row has a positive value in that column |
| Output.BuildRow | pkg/output/formatter.go:379-402 | a row takes the j-th cell of every shown column |
| Output.GroupedHeaders | pkg/output/formatter.go:294-360 | the key titles, Size, Inodes, then each optional column that has a positive value |
| Output.GroupedTable | pkg/output/formatter.go:294-403 | the headers and rows of a grouped table are those of GroupedView |
| Output.PresentMembers | pkg/output/formatter.go:343-360 | the optional columns shown are exactly those with a positive value somewhere |
| Output.GroupedViewShape | pkg/output/formatter.go:379-402 | every row is as wide as the header and starts with its key cells; Size and Inodes follow the key titles |
| Output.GroupedColumnsPresent | pkg/output/formatter.go:343-360 | an optional column appears iff some row is positive in it |
| Output.GroupedColumnsAligned | pkg/output/formatter.go:379-402 | the cell under a column's title is that row's cell of that column |
| Output.FirstExists | pkg/output/formatter.go:286-290 | a non-empty key set has a first key in table order |
| Output.SortedKeysMeaning | pkg/output/formatter.go:286-290 | the sorted keys are in order, are exactly the keys, and appear once each |
| Output.SortKeys | pkg/output/formatter.go:286-290 | the sort yields SortedKeys |
| Output.PerYearTable | pkg/output/formatter.go:282-407 | perYearTable builds PerYearView |
| Output.PerUIDTable | pkg/output/formatter.go:410-536 | perUIDTable builds PerUIDView |
| Output.PerYearRows | pkg/output/formatter.go:282-407 | Year, Size and Inodes head the table; there is one row per year, as wide as the header, latest year first |
| Output.PerYearColumns | pkg/output/formatter.go:323-360 | an optional column is shown iff some year is positive in it |
| Output.OwnerKeys | pkg/output/formatter.go:414-418 | the integer UIDs are exactly the owners |
| Output.OwnerKeysCount | pkg/output/formatter.go:414-418 | there are as many integer UIDs as owners |
| Output.PerUIDRows | pkg/output/formatter.go:410-536 | UID, Username, Size and Inodes head the table; there is one row per owner with its name, lowest UID first |
| Output.PerUIDColumns | pkg/output/formatter.go:450-488 | an optional column is shown iff some owner is positive in it |
| Output.ModeOf | pkg/output/formatter.go:43-52 | "per-year" and "per-uid" select their tables; any other mode is the summary |
| Output.Format | pkg/output/formatter.go:43-204 | json and csv give an encoded text for the mode; any other format gives the mode's table |

## Left out

- Text.TrimSpace: trims only ASCII white space; Go's strings.TrimSpace also trims Unicode white space such as U+0085 and U+00A0.
- Text.ToUpper: maps only the ASCII letters; Go's strings.ToUpper also maps non-ASCII letters.
- Concurrency is left out: goroutines, the mutexes and the WaitGroup. The walk is modelled as a sequential interleaving of worker steps in which each step is atomic.
- The race at startup is left out. The model pushes the root before any worker runs, whereas the source starts the goroutines first and a worker may find nothing and exit.
- Cwalk.Walker.Stop: the context it cancels is read by no loop, so the flag changes nothing else.
- Errors from processBranch are only logged (`log.Printf`). The model returns them but writes no log.
- `filepath.Clean` of the root path is not modelled.
- The operating system is a tree value:
  - os.Lstat, os.ReadDir and `syscall.Stat_t` are fields of that tree;
  - ReadDir lists each name once, and the walk assumes this;
  - symlinks are never followed, as lstat does not follow them.
- `lookupUsername` calls `user.LookupId`, an OS call. It is a function parameter.
- `time.Now()` and `ModTime().Year()` are left out. The clock is a parameter, and the year of each entry is a field of the file info.
- StatFilters.Matches: the name regex is an arbitrary predicate. regexp compilation and errors are not modelled.
- StatFilters.Matches: Usernames and Groupnames are carried but never checked, as in the source. The comment at pkg/stat/filters.go:140-143 says they are applied during aggregation, but pkg/stat/walker.go never reads them, so user and group names given on the command line select nothing.
- Cli.ParseSize: `strconv.ParseFloat` and the float product are modelled in exact decimal arithmetic, rounded down. Float rounding, exponents and ParseFloat's range error are left out. The int64 conversion of a product beyond the int64 range is not modelled either: the model returns the exact size, where Go's conversion is implementation-defined (on amd64 it gives a negative value).
- Cli.ParseDuration: `time.ParseDuration` is modelled only for the text "<int><h|m|s>" that parseDuration formats.
- runWalk, Execute and the Cobra flag wiring are left out. They only call the parsers and then the stats walker and the formatter. The main entry point is left out too.
- Output.FormatBytes: states the divisor, exponent and unit letter, not the `%.1f` text of the quotient.
- Output.FormatAlignedColumn: states the cells as values with their unit suffix. The float text of each cell, the decimal-point alignment, the "<" marker and the ANSI dimming of small values are left out.
- Stats.StatsWalker.Add: the summary and the per-type, per-year and per-owner counters and sums are int64 in the source and unbounded in the model, so they never wrap.
- Stats.StatsWalker.Record: nil filters admit every entry through MatchesOrAll; the source panics (see Findings).
- `toJSON`, `toCSV`, `writeXLSX`, `WriteToFile` and the go-pretty table rendering and styles are left out. They are encoding and I/O.
- Output.Format: JSON and CSV output is represented by the format and mode only.

## Findings

| source | as written | input that shows it | evidently intended | confidence | as-written member | corrected member |
|---|---|---|---|---|---|---|
| cmd/cwalk/cmd/root.go:264-288 | the unit multiplier is an int64 product (`num * 24`, `num * 24 * 7`, `num * 24 * 365`) that wraps before time.ParseDuration sees it | "2305843009213693953d" (2^61 + 1 days): the product wraps to 24, so the flag means 24 hours | a duration too large for time.Duration is refused | not executed | Cli.DurationAsWritten, Cli.DurationWrapsAround | Cli.Duration, Cli.ParseDuration |
| pkg/stat/walker.go:104-107, pkg/stat/filters.go:42-44 | NewStatsWalker documents that nil filters include every entry, but the OnLstat closure calls `sw.filters.Matches`, which reads `f.Types` through the nil pointer | NewStatsWalker(paths, 1, nil), then Walk over any readable directory: the root's lstat reaches Matches and panics | nil filters admit every entry, like the zero Filters | not executed | Stats.MatchesAsWritten, Stats.NilFiltersPanic | Stats.MatchesOrAll, Stats.NilFiltersAreNoFilters |
