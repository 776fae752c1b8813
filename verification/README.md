# Runpod Shim: a verified model

Runpod Shim is an `LD_PRELOAD` library that shows a container only its own GPUs and its own
memory limit. This project models the stateful, byte-level part of it in Dafny and proves what
the pieces promise each other. `dafny verify dfyconfig.toml` checks everything.

Strings are the bytes of a C string without its terminator; buffers are arrays, and results
that the source leaves in a caller's buffer are stated with their terminator. The kernel is a
table from descriptors to open files, the file system a map from paths to contents; what the
kernel, malloc or libc answer is a parameter of the call that asks. An open file remembers the
name it was opened by and the place the kernel found it at, both lexically. Each loop of the
source is a method proved equal to a recursive function, and the theorems are about those
functions.

| file | models |
|---|---|
| `Text.dfy`, `Numbers.dfy` | cutting strings at separators, decimal scanning with its overflow guard |
| `PathNormalizer.dfy`, `RelativePaths.dfy` | the two path algorithms, each on a 64-slot segment array |
| `GpuPaths.dfy`, `GpuTopology.dfy` | classification, the allow/deny decision, the information parser, the allowed set |
| `DirentFilter.dfy`, `Listing.dfy` | in-place compaction of getdents64 buffers, readdir, listing against access |
| `FdTracker.dfy`, `VirtualFiles.dfy` | the linked list and the 64-slot table, as classes |
| `Hooks.dfy`, `Shim.dfy` | the intercepted calls as steps over whole runs, and as methods on those classes |
| `HiddenFiles.dfy` | which opens of hidden files the hooks let through, over whole runs |
| `MountedGpus.dfy` | from the information files found at load time to what is denied, open, learned and shown |
| `HookFilters.dfy`, `VirtualMeminfo.dfy` | what filtered listings, RM replies and virtual /proc/meminfo show after any run |
| `TrackerThreads.dfy` | the two-step open, dup, close and closedir of several threads, freely interleaved |
| `IoctlFilter.dfy` | the learning filter on RM ioctl replies |
| `CgroupPaths.dfy`, `Cgroup.dfy` | mountinfo, cgroup lines, control files, the least limit |
| `MemoryView.dfy`, `Meminfo.dfy` | snapshots, sysinfo, sysconf, the rewritten /proc/meminfo |
| `ContainerMemory.dfy` | from the texts of mountinfo, the cgroup list and the control files to the numbers a program reads |

## Where a plausible property is false

- Compaction is not list filtering on every well-formed buffer: `d_reclen` is read again after
  the move, and a kept record longer than the dropped gap plus 16 bytes has overwritten it.
  `WalksRecordsIff` gives the exact condition under which the loop stays on the record
  boundaries (a byte condition on the original records), `KernelListingIsFiltered` shows that
  names of up to 20 bytes always meet it. `FirstMisread` says what the first record that does
  not meet it does to the result: `TwentyOneByteBusIsMisread` reports the whole buffer, and
  `TwentyThreeByteBusOvershoots` reports more bytes than the kernel wrote. `MisreadIsWrong`: both
  are always wrong. But leaving the boundaries is not always wrong: `MisreadCanBeHarmless` is a
  listing of kernel records, with names that all differ, that is filtered exactly all the same.
- Listing and access disagree on names of 32 bytes and more (`ListingAgreesWithAccess`).
- Spelling matters for device paths: the classifier compares their raw text, so it misses
  `/dev//nvidiactl` (`RespeltDeviceIsMissed`). `ClassifyIgnoresSpelling` is exact: a path and
  its normal form are classified alike iff the normal form is not a device path spelled another
  way.
- Hidden files are not always closed, although docs/gpu-video.md promises it of opens. The
  filter judges absolute names with a normal form and names below tracked GPU directories, and
  only in the hooks that return a descriptor: fopen and fopen64 neither decide nor track.
  `HiddenOpenIff` says for one call, and `HiddenFilesStayClosedIff` for whole runs, that a hidden
  file is opened iff a call asks for it through fopen, by a relative name that does not start at
  a tracked GPU directory, or by an absolute name without a normal form. `StreamsAreNotJudged` is
  fopen of whatever the other hooks deny, `StreamLetsThrough` the plain name of an information
  file, `ParentLetsThrough` its name below a descriptor of the parent directory,
  `ParentListsUnfiltered` the same for the directory itself, `DetourLetsThrough` an absolute name
  with a detour deeper than the 64 segment slots (`BusPathFailsIffDeep`: the only way for such a
  name to have no normal form). The same holds for listings and RM replies:
  `FiltersFollowTheKernel` names the openers and spellings that are filtered.
- A relative open below a tracked GPU directory agrees with the absolute open except that it is
  refused when the walk climbs above the directory, even if it comes back, and when the joined
  path has no normal form, where the absolute path is ignored by the filter
  (`OpenatAgreesWithOpen`). The documentation's fail-open rule (docs/gpu-video.md) does not
  cover these refusals: they happen even when topology detection failed.
- `closedir` frees the descriptor before it is untracked, so an open or dup that is given the
  same descriptor, and finishes in between, loses its record. `QuiescentTrackerIsExactIff` says
  exactly which records are missing after any schedule, `ClosedirIsExactUnlessReused` that none
  is when nothing finishes in between, and `ReusedScheduleLoses` is the failing schedule. `close`
  untracks first and loses nothing (`QuiescentTrackerIsExact`).
- Rewriting /proc/meminfo twice is not rewriting it once when a target line is longer than the
  line buffer (`LongTargetIsNotIdempotent`); `RewriteIsIdempotentIff` is the exact condition. And
  it keeps the lines of a text only if no NUL byte swallows a line's end: `RewritesLineByLine` is
  exact for all texts.

## Model

| member | source | states |
|---|---|---|
| PathNormalizer.NormalizePath | src/gpu/proc_filter.c:164-230 | the scanning and copy-out loops succeed exactly when `Normalize` does and leave its result, terminated, in the buffer |
| PathNormalizer.NormalizeResult | src/gpu/proc_filter.c:174-229 | on success the output is canonical (absolute, no empty, `.` or `..` segment), shorter than the buffer, and renders what a right-to-left cancellation of `..` leaves of the path |
| PathNormalizer.NormalizeFailsIff | src/gpu/proc_filter.c:170-222 | it fails exactly on a relative or empty path, a buffer below two bytes, a live depth above 64 at some prefix, or a rendering that does not fit |
| PathNormalizer.NormalizeFixedPoints | src/gpu/proc_filter.c:164-230 | the paths it leaves alone are exactly the canonical ones that fit |
| PathNormalizer.NormalizeIdempotent | src/gpu/proc_filter.c:164-230 | normalising a result again gives the same result |
| PathNormalizer.WalkIsSurvivors | src/gpu/proc_filter.c:191-210 | the stack machine equals reading the segments from the right and cancelling names |
| PathNormalizer.BoundedWalkExact | src/gpu/proc_filter.c:204-206 | the 64 slots change the walk exactly when some prefix is deeper than 64 |
| RelativePaths.ResolveRelative | src/preload.c:249-335 | the resolver succeeds exactly when `Resolve` does and leaves its result, terminated, in the buffer |
| RelativePaths.ResolveIsNormalizeOfJoined | src/preload.c:267-333 | for a record with a plain bus id, resolving is refusing every walk that climbs above the base, and otherwise normalising the directory's path joined with the name, at every buffer size |
| RelativePaths.EffectiveOpenatPath | src/preload.c:337-368 | the effective path of a name, and that a resolved one is a C string |
| RelativePaths.OpenatAgreesWithOpen | src/preload.c:337-368 | below any tracked directory a relative name is decided and classified like the joined absolute path, except in the two refused cases |
| GpuPaths.ClassifyPath | src/gpu/fd_tracker.c:95-178 | the classifier with its buffers computes `Classify` |
| GpuPaths.ProcPathAllowed | src/gpu/proc_filter.c:612-647 | the decision with its two normalisations computes `Decide` |
| GpuPaths.ExtractProcBus | src/gpu/proc_filter.c:232-292 | the bus extraction computes `ExtractBus` |
| GpuPaths.ContainsBus | src/gpu/proc_filter.c:596-610 | the search finds exactly the buses of a valid set |
| GpuPaths.BusOfLocation | src/gpu/proc_filter.c:256-291 | a bus is extracted exactly from paths that lead to a bus directory or its information file with an id below 32 bytes, and it is the fifth segment |
| GpuPaths.DecisionByLocation | src/gpu/proc_filter.c:621-646 | the decision depends only on where the path leads, not on its spelling |
| GpuPaths.DecisionAgreesWithClassification | src/gpu/fd_tracker.c:145-178 | the decision is to ignore iff no procfs kind is classified, and to deny iff a bus or information kind names a bus outside a valid set |
| GpuPaths.ProcRecordShape | src/gpu/fd_tracker.c:95-143 | a procfs record holds the normal form of its path and, for a bus, one plain segment that fits |
| GpuPaths.ClassifyIgnoresSpelling | src/gpu/fd_tracker.c:145-178 | a path and its normal form are classified alike iff the normal form is not a device path spelled another way; then only the normal form is classified |
| GpuPaths.RespeltDeviceIsMissed | src/gpu/fd_tracker.c:161-175 | a device path with a second slash is not classified, its normal form is |
| GpuPaths.KindsByPath | src/gpu/fd_tracker.c:109-164 | which paths get the directory kind (every spelling), and the control and uvm kinds (one spelling each) |
| GpuPaths.DevicesByPath | src/gpu/fd_tracker.c:150-175 | device n is exactly `/dev/nvidia` and the digits of n, zeros in front allowed; its record holds the path, cut to 255 bytes, and that minor |
| GpuPaths.BusKindsByLocation | src/gpu/fd_tracker.c:109-143 | the bus and information kinds are exactly the paths with a normal form whose segments are `proc driver nvidia gpus`, a bus below 32 bytes and, for the latter, `information` |
| GpuPaths.DenyExact | src/gpu/proc_filter.c:612-647 | denied are exactly the paths to the directory or the information file of a bus that no GPU of a valid set has |
| Numbers.ParseDecimal | src/cgroup/cgroup.c:53-75 | the guarded loop accepts exactly non-empty digit strings whose value is at most the maximum |
| Numbers.ParseInvertsPrint | src/gpu/proc_filter.c:114-140 | a number is read exactly from its printing, padded with zeros at will, when it is at most the maximum |
| Numbers.MinorInvertsPrint | src/gpu/fd_tracker.c:61-93 | a device minor is read exactly from paths that print it behind the prefix |
| Numbers.ParseMinor | src/gpu/proc_filter.c:38-71 | prefix test and scan compute `ParseMinorAfter` |
| GpuTopology.ParseGpuInformation | src/gpu/proc_filter.c:303-369 | the line loop computes the fold over the lines, with the path's bus as fallback; the record it leaves is stated for failed parses too |
| GpuTopology.ParseInvertsDocument | src/gpu/proc_filter.c:322-368 | one uuid, one bus and one minor line, in any order among unrelated lines, parse to exactly those fields |
| GpuTopology.ParsedExact | src/gpu/proc_filter.c:303-369 | for every text: it parses to a record iff every uuid, bus and minor line fits its field, the last minor line prints the minor, the last uuid line gives the uuid (none: empty) and the last bus line the bus (none: the path of the file) |
| GpuTopology.WrittenLine | src/gpu/proc_filter.c:82-162 | a key, blanks, a trimmed value and blanks (a carriage return included) give back the value |
| GpuTopology.ParsedFits | src/gpu/proc_filter.c:341-368 | a parsed record fits its fixed-size fields and has a minor and a bus |
| GpuTopology.BuildAllowedGpus | src/gpu/proc_filter.c:389-427 | the loop keeps the first 32 qualified GPUs in order and is valid iff there is one |
| GpuTopology.AllowedIsFirstQualified | src/gpu/proc_filter.c:389-427 | the set holds, in order and each once, the records that are present, have a mounted minor and match a requested uuid: all of them, or the first 32; it is valid iff it holds any |
| GpuTopology.AllowedBusExact | src/gpu/proc_filter.c:407-426 | with at most 32 information files a bus is allowed iff one of them names it with a mounted minor and a matching uuid |
| GpuTopology.AllowedFits | src/gpu/proc_filter.c:401-425 | sets built from parsed files fit the structures the filters rely on |
| GpuTopology.ParsedInfosExact | src/gpu/proc_filter.c:552-563 | the collected records are exactly those of the files that parse |
| MountedGpus.AllowedIffMounted | src/gpu/proc_filter.c:573-610 | a bus is allowed iff some information file names it for a mounted minor |
| MountedGpus.ReadyIffSomeMounted | src/gpu/proc_filter.c:389-427 | the filter is in force iff some file names a bus for a mounted minor |
| MountedGpus.DeniedIffNotMounted | src/preload.c:208-213 | an absolute name of a bus directory or its information file is denied iff no file names that bus for a mounted minor, although some file names one |
| MountedGpus.OpenBusesAreMounted | src/preload.c:430-647 | after every run the bus directories and information files open through the descriptor hooks, by judged names, belong to mounted GPUs, unless none is mounted |
| MountedGpus.MinorAllowedIffMounted | src/gpu/ioctl_filter.c:14-32 | a minor is that of an allowed GPU iff it is mounted and some information file describes a GPU of it |
| MountedGpus.CardsShowMounted | src/gpu/ioctl_filter.c:75-89 | once a GPU is mounted, a card of a successful reply stays valid iff it was and its minor is mounted and described by a file; its id and minor stay, and no card is lost |
| MountedGpus.MountedCardsAreLearned | src/gpu/ioctl_filter.c:57-73 | the id of each such card is learned, unless the 32 places are taken |
| MountedGpus.ShownIdsAreMounted | src/gpu/ioctl_filter.c:200-254 | after every run each learned id, and each id a filtered reply shows, stood in a valid card of a mounted minor in a successful reply earlier in the run |
| DirentFilter.FilterDirentBuffer | src/gpu/proc_filter.c:662-703 | on every byte content: terminates, stays inside the first `len` bytes, and computes `Compact`, which reads the length again after the move |
| DirentFilter.CompactThrough | src/gpu/proc_filter.c:673-700 | the loop walks through any records whose kept lengths survive, in front of arbitrary bytes: kept ones written, the rest intact |
| DirentFilter.CompactFrom | src/gpu/proc_filter.c:673-700 | the loop invariant: written part is the filtered list, unread suffix intact, up to the end or the first malformed record |
| DirentFilter.CompactRefinesFilter | src/gpu/proc_filter.c:688-702 | on every buffer that reads as records, if kept lengths survive their moves, the result is at most `len` and decoding that many bytes gives exactly the kept records, in order and byte for byte |
| DirentFilter.SeparatedIsStable | src/gpu/proc_filter.c:692-699 | `w == r` or `w + d_reclen <= r + 16` for every kept record is enough for that |
| DirentFilter.WalksRecordsIff | src/gpu/proc_filter.c:694-699 | the loop visits exactly the record boundaries iff every kept length survives its move |
| DirentFilter.FirstMisread | src/gpu/proc_filter.c:694-699 | what the first kept record with an overwritten length does, in any list and whatever follows: a second length of zero reports the whole buffer, one past the end is added to the result as it is |
| DirentFilter.MisreadIsWrong | src/gpu/proc_filter.c:694-702 | a second length of zero, or one past the end that is not the length of all kept records from there on, never gives the reader the kept records |
| DirentFilter.TwentyOneByteBusIsMisread | src/gpu/proc_filter.c:694-699 | inputs on which the second length is zero and the whole buffer is reported |
| DirentFilter.TwentyThreeByteBusOvershoots | src/gpu/proc_filter.c:694-702 | inputs on which the result exceeds `len`: the last two bytes of a 23-byte name become the reported length |
| DirentFilter.MisreadCanBeHarmless | src/gpu/proc_filter.c:694-699 | a listing of kernel records with distinct names on which the loop leaves the record boundaries and still returns exactly the kept records |
| DirentFilter.KernelListingIsFiltered | src/gpu/proc_filter.c:662-703 | kernel-shaped listings whose kept names have at most 20 bytes are filtered exactly |
| DirentFilter.KernelRecordReads | src/gpu/proc_filter.c:13-19 | a record in the getdents64 layout is well formed and reads back its name |
| DirentFilter.MalformedTail | src/gpu/proc_filter.c:679-686 | a malformed tail makes the result `len`; the tail is untouched while records before it have moved |
| DirentFilter.CompactIdempotent | src/gpu/proc_filter.c:662-703 | filtering a filtered buffer changes nothing |
| DirentFilter.DecodeInvertsConcat | src/gpu/proc_filter.c:649-660 | reading a packed buffer gives back the records it was packed from |
| Listing.ListingAgreesWithAccess | src/preload.c:370-384 | for every name a directory can hold, readdir and compaction agree, and agree with the path decision iff the name is below 32 bytes |
| Listing.ListedNameIsReadable | src/gpu/proc_filter.c:612-647 | a listed name is exactly one whose information file is not denied |
| Listing.GetdentsAgreesWithReaddir | src/preload.c:917-985 | both ways of reading the directory show the same names in the same order |
| Listing.ShownExact | src/preload.c:370-384 | a listing shows, in order and each once, every entry but those of the GPU directory, with a filter in force, that are neither a dot entry nor the bus of an allowed GPU |
| Listing.OtherwiseAllShown | src/preload.c:373-381 | every entry is shown before the filter is in force, on untracked descriptors and in all other directories |
| Listing.Readdir | src/preload.c:917-936 | successive calls return exactly the shown entries, in order; each call the next entry that is kept, none skipped but hidden ones, and nothing only at the end |
| FdTracker.Tracker.Set | src/gpu/fd_tracker.c:195-219 | overwrites in place or links a new head; map update, ignored for negative descriptors and failed allocation |
| FdTracker.Tracker.Get | src/gpu/fd_tracker.c:221-239 | map lookup |
| FdTracker.Tracker.Remove | src/gpu/fd_tracker.c:241-261 | map deletion by unlinking one node |
| FdTracker.Tracker.Copy | src/gpu/fd_tracker.c:263-312 | assignment when the source is present, deletion of the target when it is absent, source equal to target included |
| FdTracker.Tracker.Clear | src/gpu/fd_tracker.c:180-193 | the empty map |
| FdTracker.Tracker.Unlink | src/gpu/fd_tracker.c:299-309 | the list without one node is the map without its key; the nodes stay distinct and null-terminated |
| FdTracker.MapOfDropped | src/gpu/fd_tracker.c:253-256 | dropping one entry of a list with distinct keys deletes exactly its key |
| VirtualFiles.Table.Put | src/core/fd_map.c:29-79 | succeeds iff the descriptor is valid, the copy could be allocated and the key is present or fewer than 64 are used; the map is updated at offset 0 |
| VirtualFiles.Table.TakeRead | src/core/fd_map.c:81-109 | delivers the next bytes, advances the offset, leaves the rest of the caller's buffer alone |
| VirtualFiles.Table.Remove | src/core/fd_map.c:111-124 | map deletion |
| VirtualFiles.FilesCount | src/core/fd_map.c:57-64 | active slots and keys are the same number |
| VirtualFiles.ReadsDeliverPrefix | src/core/fd_map.c:92-104 | any reads on a descriptor, interleaved with operations on others, deliver its contents once, in order, up to the end or the sum of the counts |
| VirtualFiles.ReadsAfterPut | src/core/fd_map.c:71-104 | after a put, that is the prefix of the stored data |
| Hooks.StepKeepsSafe | src/preload.c:154-647 | every hook keeps, streams included: tracked descriptors are open, were opened by a descriptor hook and hold the record of their effective path; such a path, if absolute, leads where the kernel found the file and is not denied; virtual contents and memory streams show the detected limit; learned ids are distinct and valid; and exactness if allocation succeeds |
| Hooks.EveryRunIsSafe | src/preload.c:154-647 | the same after every legal run, whatever descriptors were inherited; nothing is promised of the names of stream opens; with allocation succeeding every classified descriptor of a descriptor hook is tracked, and all descriptors of one open file, duplicates included, have one record |
| Hooks.OpenatFollowsDirectory | src/preload.c:481-524 | in every safe world a tracked directory stands for its own open file, and relative opens follow the lexical join |
| Hooks.ResolvedLeadsToTarget | src/preload.c:337-368 | the effective path of a relative name below a tracked directory leads where the kernel goes from that directory's own file |
| Hooks.RelativeTarget | src/preload.c:481-524 | the place of a relative name is that of its join with the name of the directory it starts at |
| Hooks.DeniedIffHidden | src/preload.c:208-213 | exactly the absolute paths with a normal form that lead somewhere hidden are denied |
| Hooks.DeniedExact | src/preload.c:208-213 | denied are, with the module on and its filter ready, exactly the absolute paths with a normal form whose segments are `proc driver nvidia gpus`, a bus below 32 bytes that no GPU of the valid set has, and at most `information` |
| HiddenFiles.HiddenOpenIff | src/preload.c:154-547 | a legal open that finds a hidden file is let through iff it is an fopen, or its name is absolute without a normal form, or relative and not below a tracked GPU directory |
| HiddenFiles.HiddenFilesStayClosedIff | src/preload.c:154-547 | over whole runs that inherit no hidden file: one is open at some time iff some call is such an open |
| HiddenFiles.HiddenFileHasOrigin | src/preload.c:154-647 | a hidden file that is open after a run, and was not inherited, was opened, itself or through duplicates, by such a call of the run |
| HiddenFiles.StreamsAreNotJudged | src/preload.c:154-190 | fopen opens every hidden file whose name the other hooks deny |
| HiddenFiles.StreamLetsThrough | src/preload.c:541-547 | for example the information file of any hidden bus by its plain name |
| HiddenFiles.BusPathFailsIffDeep | src/gpu/proc_filter.c:164-230 | an absolute path to a bus has no normal form iff its walk is deeper than 64 somewhere |
| HiddenFiles.ParentLetsThrough | src/preload.c:337-368 | the information file of any hidden bus can be opened by name below an untracked descriptor of the parent of the GPU directory |
| HiddenFiles.ParentListsUnfiltered | src/preload.c:520-522 | the GPU directory opened that way is not tracked |
| HiddenFiles.DetourLetsThrough | src/gpu/proc_filter.c:204-206 | a hidden bus directory can be opened by an absolute path with a detour through 65 directories |
| HookFilters.FiltersFollowTheKernel | src/preload.c:971-1042 | after every run the filtered listings are exactly those of descriptors at the GPU directory that a descriptor hook opened by an effective path that is absolute and has a normal form, the filtered replies exactly those of descriptors it opened as /dev/nvidiactl |
| HookFilters.ListingUnchangedIff | src/preload.c:917-936 | a listing is unchanged iff the descriptor is no filtered GPU directory, or every entry is a dot entry or an allowed bus |
| HookFilters.OtherDirectoriesAreWhole | src/preload.c:370-384 | after every run, allocation failures included, every directory that a descriptor hook has not opened at the place of the GPU directory is listed whole |
| HookFilters.RepliesByConfig | src/preload.c:1031-1040 | replies are filtered exactly on tracked control descriptors with both switches on, the filter ready, its set valid and the reply itself fit to be filtered; every other reply is handed on as it is and, unless card info in force, teaches nothing |
| HookFilters.LearnedByConfig | src/gpu/ioctl_filter.c:57-73 | a successful card-info reply in force teaches exactly the ids of its valid cards whose minor is that of a GPU of the set, as far as the 32 places go |
| HookFilters.RunsShowOnlyTaught | src/preload.c:1016-1042 | after every run a filterable reply on a filtered descriptor shows only ids that replies heard earlier on such descriptors have taught; all other replies are handed on untouched |
| HookFilters.RunsForgetNothing | src/gpu/ioctl_filter.c:34-73 | whatever a run does in between, learned ids stay learned and in place |
| VirtualMeminfo.ReadsDeliverContents | src/preload.c:594-607 | whatever else a run does, reads on a virtual descriptor deliver its contents once and in order |
| VirtualMeminfo.VirtualIff | src/preload.c:86-122 | a descriptor is virtual after a call iff the call is an open of /proc/meminfo for reading by that name, not below a directory descriptor, granted as this descriptor with the cgroup module on, a text that can be built and stored and a free slot; or it was virtual and the call neither frees nor replaces it |
| VirtualMeminfo.StreamIff | src/preload.c:154-190 | a stream comes from a file in memory iff it is one of /proc/meminfo, opened for reading only, with the cgroup module on, a text that can be built and a memory file |
| VirtualMeminfo.MeminfoEndToEnd | src/preload.c:104-122 | from the open of /proc/meminfo on, whatever else the process does, the reads deliver the real file rewritten to the snapshot taken at the open, once and in order; line by line, MemTotal reads back as the total and MemFree and MemAvailable as the available bytes, each within 1024, and other lines are the same |
| VirtualMeminfo.StreamEndToEnd | src/preload.c:154-190 | a stream of /proc/meminfo holds the same rewritten text, whole, with the same numbers |
| VirtualMeminfo.OneTotalPerRun | src/memory/memory.c:20-29 | over a whole run all virtual contents and memory streams are rewritten to snapshots of one finite total |
| VirtualMeminfo.QuietProcessReads | src/preload.c:104-122 | an instance of the end-to-end theorem: a process with a limit of 1000 bytes opens a one-byte /proc/meminfo and reads that byte |
| Shim.Process.Open | src/preload.c:430-454 | the hook on the list and the slots takes the modelled step |
| Shim.Process.OpenAt | src/preload.c:481-524 | likewise, through the effective path; -1 exactly when that is refused or denied |
| Shim.Process.OpenDir | src/preload.c:855-878 | likewise |
| Shim.Process.FOpen | src/preload.c:154-190 | the hook takes the modelled step: a memory file for a virtualized /proc/meminfo, the real stream otherwise, nothing decided or tracked |
| Shim.Process.Close | src/preload.c:609-615 | likewise; both tables forget first |
| Shim.Process.CloseDir | src/preload.c:906-915 | likewise; only the tracker forgets, last |
| Shim.Process.Dup | src/preload.c:617-625 | likewise, for dup and fcntl duplication |
| Shim.Process.Dup2 | src/preload.c:627-636 | likewise |
| Shim.Process.Dup3 | src/preload.c:638-647 | likewise |
| Shim.Process.Read | src/preload.c:594-607 | virtual contents are served first |
| Shim.Process.BuildMeminfo | src/memory/proc_meminfo.c:57-119 | a snapshot of the view and the rewriting loop, in a 65536-byte buffer, build the text the hooks attach |
| Shim.Process.SysInfo | src/preload.c:1044-1070 | one more snapshot of the view; both numbers corrected to within one unit, the kernel's answer kept without one |
| Shim.Process.Ioctl | src/preload.c:1016-1042 | the learning filter sees exactly the replies on tracked control descriptors, learns from them and rewrites them in place |
| Shim.Process.Getdents64 | src/preload.c:971-985 | the kernel's buffer is compacted exactly for tracked GPU directories |
| Shim.Process.ReadDir | src/preload.c:917-936 | one readdir call returns the next entry that is not hidden and changes nothing; outside a filtered GPU directory that is simply the next entry |
| Shim.Process.PerformAll | src/preload.c:430-1070 | any legal sequence of calls leaves the list, the slots, the memory view and the learned ids in the world the run ends in, a safe one |
| TrackerThreads.StepKeepsInv | src/gpu/fd_tracker.c:195-312 | between any two steps every settled descriptor is tracked as its path asks unless it is lost, and any other record is one a closedir has still to remove |
| TrackerThreads.QuiescentTrackerIsExactIff | src/preload.c:430-615 | under any interleaving of open, dup, close and closedir, at quiescence the tracker is the classification of the open descriptors without the lost ones; so it is exact iff no lost descriptor is one the classifier knows |
| TrackerThreads.ClosedirIsExactUnlessReused | src/preload.c:906-915 | nothing is lost if no open or dup finishes on a descriptor between its being freed by closedir and its untracking |
| TrackerThreads.QuiescentTrackerIsExact | src/preload.c:609-615 | without closedir the tracker is exact at quiescence under every interleaving |
| TrackerThreads.ReusedScheduleLoses | src/preload.c:906-915 | the schedule that loses a record, and that it is noticed iff the new path is one the classifier knows |
| IoctlFilter.LearningIsSound | src/gpu/ioctl_filter.c:46-73 | over every sequence of replies ids stay distinct, valid, at most 32, only grow, and were each taught by a valid card with an allowed minor; which minors those are is `MountedGpus.MinorAllowedIffMounted` |
| IoctlFilter.LearnAllTaught | src/gpu/ioctl_filter.c:46-73 | every taught id is kept unless the 32 places are taken |
| IoctlFilter.LearnedExact | src/gpu/ioctl_filter.c:46-73 | what a reply teaches: exactly the ids of the valid cards of a successful card-info reply whose minor a present GPU of a valid set has, behind what was known, as far as the 32 places go |
| IoctlFilter.ReplyExact | src/gpu/ioctl_filter.c:200-254 | which replies are rewritten, and to what: a card is hidden iff no present GPU of the set has its minor and is otherwise unchanged; every learned id in front of the list's end, in order and as often as listed, invalid ids behind; every counted device of a learned id, whole, zeroed ones behind, and their number |
| IoctlFilter.RepliesShowOnlyTaught | src/gpu/ioctl_filter.c:200-228 | at any point of any run a filterable reply shows only taught ids, and is untouched while nothing is learned |
| IoctlFilter.KeptIdsExact | src/gpu/ioctl_filter.c:124-136 | an id is kept iff it is learned and stands before the first invalid id |
| IoctlFilter.RewriteIdempotent | src/gpu/ioctl_filter.c:200-254 | rewriting a rewritten reply changes nothing |
| IoctlFilter.Filter.FilterIdArray | src/gpu/ioctl_filter.c:106-147 | the two loops leave the kept ids, in order, padded with the invalid id; the temporary never truncates |
| IoctlFilter.Filter.FilterActiveDevices | src/gpu/ioctl_filter.c:149-198 | the counted entries, clamped to 256, are filtered whole and in order, the rest zeroed |
| IoctlFilter.Filter.RecordCards | src/gpu/ioctl_filter.c:57-73 | the loop learns what `Learn` does: the ids `LearnedExact` names |
| IoctlFilter.Filter.FilterCards | src/gpu/ioctl_filter.c:75-89 | the loop hides what `HideCards` does: the valid cards whose minor no present GPU of the set has (`ReplyExact`) |
| IoctlFilter.Filter.CardInfoReply | src/gpu/ioctl_filter.c:241-249 | learns whatever the switches say, hides only when both are on: the reply and the ids of `ReplyExact` and `LearnedExact` |
| IoctlFilter.Filter.AttachedReply | src/gpu/ioctl_filter.c:207-216 | rewritten exactly when enabled and large enough |
| IoctlFilter.Filter.ActiveReply | src/gpu/ioctl_filter.c:217-227 | likewise for active devices |
| CgroupPaths.UnderMountRoot | src/core/paths.c:57-85 | the shrinking loop and the tests compute `InsideMount` |
| CgroupPaths.InsideMountIffPrefix | src/core/paths.c:57-85 | on canonical paths it accepts exactly component-wise prefixes |
| CgroupPaths.InsideMountSplits | src/core/paths.c:67-84 | whatever the spelling, root components and inside components make up the cgroup path |
| CgroupPaths.BuildCgroupPath | src/core/paths.c:95-128 | the bounded joins succeed exactly when the whole path fits, and leave it terminated |
| CgroupPaths.CgroupPathNamesFile | src/core/paths.c:95-128 | the path's components are those of the mount point, of the part inside the mount, and the file |
| CgroupPaths.CgroupPathKeepsPoint | src/core/paths.c:118-126 | whatever the spelling, the result starts with the mount point's text and ends with a slash and the file |
| CgroupPaths.CgroupPathText | src/core/paths.c:57-128 | for printed paths, the text in full: mount point, what the cgroup's path has behind the mount's root, a slash, the file; or nothing if that is too long |
| Cgroup.ParseMountinfoLine | src/cgroup/cgroup.c:129-173 | the token loop and the first-mount-wins rule, oversized mounts skipped |
| Cgroup.MountLineRoundTrip | src/cgroup/cgroup.c:139-156 | a line in the documented layout, with any optional fields, is read back |
| Cgroup.ControllersInclude | src/cgroup/cgroup.c:106-123 | found iff the needle, empty or not, is one of the comma-separated parts, an empty last one not counted |
| Cgroup.PrintedFileReads | src/cgroup/cgroup.c:77-104 | reading a control file inverts printing it, for limits within zero and the sentinel |
| Cgroup.WordToken | src/cgroup/cgroup.c:38-51 | the token of a file with one word is the word, or its first 63 bytes |
| Cgroup.TrimAround | src/cgroup/cgroup.c:21-36 | blanks (the six bytes of isspace) in front of a word, and whatever follows it behind one, are dropped |
| Cgroup.ConsiderCandidate | src/cgroup/cgroup.c:196-222 | a candidate replaces the best one iff it can be read and is strictly smaller |
| Cgroup.DetectMemory | src/cgroup/cgroup.c:224-292 | the loops over mountinfo and cgroup lines compute `Detect`, whose result `ContainerMemory.LimitIsDetected` gives from the texts of the files |
| Cgroup.DetectionIsFirstLeast | src/cgroup/cgroup.c:246-291 | the result is the first candidate of least limit, finite and non-zero, and missing iff no line offers one; what a line offers is `ContainerMemory.OwnCandidate` |
| Cgroup.LimitIgnoresLineOrder | src/cgroup/cgroup.c:218-221 | permuting the cgroup lines does not change the limit |
| ContainerMemory.MountsOfText | src/cgroup/cgroup.c:129-194 | from the text of mountinfo: of each version the first line is taken that mounts it at a place below 512 bytes, with its root and mount point; none if there is none |
| ContainerMemory.OwnCandidate | src/cgroup/cgroup.c:196-285 | what the line of a cgroup offers: the number in memory.max or memory.limit_in_bytes as the limit, that in memory.current or memory.usage_in_bytes as the usage, with these two paths; nothing without a limit |
| ContainerMemory.OtherCandidate | src/cgroup/cgroup.c:257-285 | a line of a hierarchy that is not mounted, or whose limit file is nowhere, offers nothing |
| ContainerMemory.LimitIsDetected | src/cgroup/cgroup.c:224-292 | from text to result, for both versions: the texts of mountinfo, of the cgroup list and of the two control files determine limit, usage and the path that is read again |
| ContainerMemory.NoLimitIsDetected | src/cgroup/cgroup.c:77-95 | nothing is detected if the limit file says max, zero or at least the sentinel |
| ContainerMemory.ContainerSnapshots | src/memory/memory.c:8-40 | in such a container every call of every sequence, whenever the usage file holds a printed number, reports the limit and what that usage leaves of it |
| ContainerMemory.ContainerMeminfo | src/preload.c:104-122 | the first open of /proc/meminfo in such a container: the bytes read show, line by line, the limit as MemTotal and limit less usage as MemFree and MemAvailable, whatever the process does in between |
| ContainerMemory.PodLimitIsDetected | src/cgroup/cgroup.c:272-274 | such containers exist: one with the unified hierarchy, for every limit and usage |
| MemoryView.View.TakeSnapshot | src/memory/memory.c:8-40 | detect once, then refresh, on fields updated in place; the numbers are those of `SnapshotsAreBounded` and `PrintedUsageIsReported` |
| MemoryView.View.Refresh | src/cgroup/cgroup.c:294-305 | only the usage changes, and only if it can be read |
| MemoryView.SnapshotsAreBounded | src/memory/memory.c:20-34 | over every sequence of calls, while files change, all totals are one finite limit, and available plus the usage read is that limit, or available is zero when nothing is left |
| MemoryView.PrintedUsageIsReported | src/memory/memory.c:20-34 | after detection, every call that finds a printed usage reports the limit and limit less usage, zero when usage is not below it |
| MemoryView.SnapshotIffReadable | src/memory/memory.c:20-34 | after detection a call gives a snapshot iff the usage file can be read |
| MemoryView.EncodeSysinfo | src/preload.c:51-72 | the unit is the least power of two in which both numbers fit, and less than one unit of each is lost; failure exactly when 2^31 is not enough |
| MemoryView.SnapshotsAlwaysEncode | src/preload.c:57-66 | no snapshot fails to encode, even with a 32-bit unsigned long |
| MemoryView.Sysconf | src/preload.c:1072-1102 | whole pages of the total for physical pages, of the available bytes for free ones; overflow exactly when they exceed a long |
| MemoryView.SnapshotPagesFit | src/preload.c:1092-1098 | no snapshot overflows a 64-bit long |
| Meminfo.Build | src/memory/proc_meminfo.c:84-119 | the loop succeeds iff the rewritten text fits, and leaves exactly it in the buffer; what its lines say is `RewritesLineByLine` and `ReportsSnapshot` |
| Meminfo.AppendBytes | src/memory/proc_meminfo.c:11-18 | appends iff the bytes fit, without overflow in the test |
| Meminfo.AppendRewrittenLine | src/memory/proc_meminfo.c:20-37 | appends the printed line iff it fits the temporary and the buffer |
| Meminfo.RewritesLineByLine | src/memory/proc_meminfo.c:84-110 | for every text: the result has the same lines in the same order, each rewritten by itself, iff no NUL byte swallows a line's end; otherwise it has fewer |
| Meminfo.PlainTextKeepsLines | src/memory/proc_meminfo.c:84-110 | a text without NUL bytes keeps its lines |
| Meminfo.ShortLineRewritten | src/memory/proc_meminfo.c:84-110 | in a text that keeps its lines, a line the line buffer holds becomes what `ReportsSnapshot` says of it, up to a NUL byte |
| Meminfo.RewriteIsIdempotentIff | src/memory/proc_meminfo.c:84-110 | rewriting a rewritten text gives it back iff no chunk that starts with a target key is cut, other than in front of its newline |
| Meminfo.ShortLinesAreIdempotent | src/memory/proc_meminfo.c:84-110 | texts whose lines all fit the line buffer are given back by a second rewriting |
| Meminfo.RewriteFixedPoints | src/memory/proc_meminfo.c:84-110 | among all texts, rewriting leaves exactly those alone that have no NUL byte and whose target lines say what the snapshot says |
| Meminfo.LongTargetIsNotIdempotent | src/memory/proc_meminfo.c:84-110 | a target line as long as the line buffer is not kept by a second rewriting |
| Meminfo.ReportsSnapshot | src/memory/proc_meminfo.c:81-104 | what every line becomes: behind MemTotal: the total, behind MemFree: and MemAvailable: the available bytes, in kilobytes, right-aligned in 16 columns, with the unit and the line's own ending; a line with none of the keys is unchanged |
| Meminfo.ViewKeepsWidth | src/memory/proc_meminfo.c:26-31 | numbers of a memory view never outgrow their 16 columns |

## Left out

- NULL arguments, `errno` values and tracing: every entry point rejects NULL at once.
- `dlsym` loading, variadic argument decoding and the real calls: the kernel's answer is a parameter, constrained by `Hooks.Legal`.
- Symbolic links: the place of a file is where its name leads lexically.
- The stat hooks: they take the decision of the open hooks and open nothing.
- How libc reads a stream: a stream is its descriptor and, for /proc/meminfo, the text of its memory file.
- Calls that open, receive or free descriptors past the hooks (creat, openat2, socket, pipe, recvmsg, close_range, fclose after fdopen, system calls by number): every lifetime of a descriptor is assumed to pass through the modelled calls. A descriptor freed past them keeps its record and its virtual contents, and the next file behind it inherits them.
- The recursion guard and failing locks: a `read` that is refused by the guard goes to the kernel, as for an unknown descriptor.
- Scanning `/dev` and procfs at start-up: `GpuTopology` starts from the texts and minors found there.
- The binary layout and request numbers of the NVIDIA structures: replies are sequences of the fields the filter reads, of the source's array sizes.
- The test-only redirection of procfs and cgroup roots by environment variables.
- Segment slots hold the text of a segment instead of a pointer and a length into the path.
- Two threads closing the same descriptor, and closing one while another thread duplicates it: `TrackerThreads.Enabled` excludes them as program errors.
- Meminfo.RewriteIsIdempotentIff: assumes a text without NUL bytes, because a NUL byte makes lines merge before the second rewriting; for all other texts `Meminfo.RewriteFixedPoints` decides on the rewritten text.
- Meminfo.ShortLinesAreIdempotent: likewise.
- VirtualMeminfo.MeminfoEndToEnd: what its lines show is stated for files without NUL bytes and, for a target line, of at most 1023 bytes; the bytes delivered are exact for all files.
- VirtualMeminfo.StreamEndToEnd: likewise.
- ContainerMemory.LimitIsDetected: one cgroup decides. Which of several limits is taken is `Cgroup.DetectionIsFirstLeast`, what each line offers `ContainerMemory.OwnCandidate`; mount points at the root directory and paths with doubled or trailing slashes are covered by components only (`CgroupPaths.CgroupPathNamesFile`).
- ContainerMemory.ContainerMeminfo: assumes that the rewritten text fits its 65536 bytes (`VirtualMeminfo.CanBuild`), without which nothing is attached (`VirtualMeminfo.VirtualIff`), and a file without NUL bytes.
