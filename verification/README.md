# A verified model of bdtrace

bdtrace records the processes and file accesses of a build by tracing it, stores
them through a writer thread, and analyses them afterwards. This project models
three layers in Dafny and proves what they promise.

**Trace analysis.** `DependencyGraph` builds the in-memory graph from recorded
rows. On it run race detection with interval stamps from an explicit-stack
search (`Races`), the stale-process closure with explanations
(`RebuildClosure`), the collapse and leaf filter (`RebuildFilter`), reverse
dependencies (`ReverseDeps`, and `ReverseDepsLimits` for what a depth limit loses), process descendants (`Descendants`) and memoised
subtree totals (`SubtreeStats`). `RunCompaction` closes the gaps between
recordings and `Parallelism` holds the event sweep and the bucket chart.
`Processes` defines ancestry for any parent table, cycles included;
`Ordering` and `Sorting` hold what is shared.

**Tracer.** `SeccompFilter` is the generated classic-BPF program with an
interpreter, `Syscalls` the call tables of x86-64, `SyscallTracing` the
entry/exit phase machine against both ways of tracing, `RecordedCalls` what each
call number adds to the trace, `ChildRegistration` the
protocol of fork events and initial stops, `PathNormalization` and
`StringReader` the handling of path arguments.

**Trace session.** `TraceSession` maps recycled pids to synthetic ids and drops
duplicates, `EventQueue` is the bounded queue as a two-thread step relation, and
`BatchWriter` the batching of statements into commits.

`JsonText` and `JsonWriter` cover the JSON printer and a reader that inverts it.

A loop of the program is a method with invariants; what an object of the program
updates is a class. Each method is tied to a function or predicate, and the
properties promised are proved about that. Kernel behaviour, thread scheduling,
clock readings and short reads are inputs of the statements and are quantified
over.

`dafny verify dfyconfig.toml` checks everything.

## Model

| member | source | states |
|---|---|---|
| `DependencyGraph.RecordAccesses` | src/common/view_helpers.cpp:378-387 | Readers hold exactly the accesses in one of six reading modes, outputs and writers exactly those in one of eight writing modes, with no empty entries. |
| `DependencyGraph.RecordProcesses` | src/common/view_helpers.cpp:388-391 | Each row is found under its pid; child lists hold each process exactly once, under the parent its row names. |
| `DependencyGraph.FixRedirects` | src/common/view_helpers.cpp:394-432 | After the shell-redirect fix a process is credited with what it wrote or, if it wrote nothing but read something, with what its parent hands down; handing on through a silent parent happens only from smaller to larger pids. |
| `DependencyGraph.BuildDependencyGraph` | src/common/view_helpers.cpp:372-433 | For every list of accesses and rows, with the modes written out: p reads f exactly if some access of p to f reads, looks at, tests or executes it; a process with a writing access has exactly those files as outputs; one without has its parent's, if it read something and the parent wrote them itself or got them from a parent with a smaller pid; writers mirror outputs. |
| `Races.Roots` | src/common/view_helpers.cpp:661-666 | The roots are exactly the processes whose parent has no row, each once. |
| `Races.ChildrenFresh` | src/common/view_helpers.cpp:678-684 | Children of the process being entered are neither stamped nor waiting on the stack, because child links form a tree. |
| `Races.AllRootedEntered` | src/common/view_helpers.cpp:668-688 | When the stack is empty every process a root leads to has been entered. |
| `Races.IntervalsDecide` | src/common/view_helpers.cpp:676-687 | At the end of the search, containment of (in, out) intervals is ancestor-or-self, both directions, for every two stamped processes. |
| `Races.AncestorIntervals` | src/common/view_helpers.cpp:650-689 | The explicit-stack search terminates on any parent table, cycles included; it stamps exactly the processes below roots, and interval containment is ancestry. |
| `Races.ScanReaders` | src/common/view_helpers.cpp:710-750 | The readers of a file are compared against one writer with the interval test standing in for ancestry; entries are appended in pid order. |
| `Races.DetectRaces` | src/common/view_helpers.cpp:648-754 | Without a deadline cut: an entry for exactly the writers and readers of a file that have rows, differ, are not related below roots and share an instant, with the number of microseconds shared; the list is in map order. A cut before file k reports exactly the list of the first k files and returns false. |
| `Races.ReportedExactly` | src/common/view_helpers.cpp:712-749 | An entry is reported if and only if its writer wrote and its reader read the file, both have rows and differ, some instant lies in both half-open lifetimes, the overlap is the number of those instants, and the two are not related below roots. |
| `Races.ReportedOnForest` | src/common/view_helpers.cpp:712-749 | On a forest the same with plain ancestry, and with the overlap written out as the earlier end minus the later start. |
| `Processes.OverlapCounts` | src/common/view_helpers.cpp:722-730 | The difference computed, where positive, is the number of microseconds that lie in both half-open lifetimes; where it is not, there are none. |
| `Races.NoRaceReportedTwice` | src/common/view_helpers.cpp:704-751 | No (file, writer, reader) triple is reported twice. |
| `Races.CutIsPrefix` | src/common/view_helpers.cpp:694 | What a deadline cut reports is a prefix of the complete list. |
| `RebuildClosure.MarkFiles` | src/common/view_helpers.cpp:440-452 | Every reader of the given files joins the affected set, and exactly the new ones are queued. |
| `RebuildClosure.ClosedIsLeast` | src/common/view_helpers.cpp:453-474 | When the worklist is empty the affected set is the least set closed under reading a member's output. |
| `RebuildClosure.RebuildBfs` | src/common/view_helpers.cpp:435-475 | The result is the least set holding all readers of changed files and closed under "reads an output of a member"; equally, the processes at the end of a chain of such reads. |
| `RebuildClosure.StaleIsAccounted` | src/common/view_helpers.cpp:453-473 | Each process at the end of such a chain is in every closed set. |
| `RebuildClosure.RebuildBfsReasons` | src/common/view_helpers.cpp:477-523 | Same key set; each process lists each (file, source) reason exactly once and exactly when it is justified; following first reasons always ends at a changed file. The number 0, which stands for the user, must not be that of a stale process with outputs. |
| `RebuildClosure.ExplainedKept` | src/common/view_helpers.cpp:493-519 | Adding later reasons never disturbs the chain of first reasons already told. |
| `RebuildFilter.StaleBelow` | src/common/view_helpers.cpp:782-797 | The queue without a visited set terminates below any process on no parent cycle and lists exactly its affected proper descendants, each once. |
| `RebuildFilter.HasBelow` | src/common/view_helpers.cpp:819-834 | The second queue terminates likewise and finds a hidden descendant if and only if there is one. |
| `RebuildFilter.Fold` | src/common/view_helpers.cpp:779-798 | Hidden pids are exactly the affected processes below some collapsed one; each list is exact, and a collapsed process has one only if it hides something. |
| `RebuildFilter.ProducingParents` | src/common/view_helpers.cpp:801-812 | The parents collected for the leaf filter are exactly the affected producers that have an affected producing child. |
| `RebuildFilter.Representatives` | src/common/view_helpers.cpp:815-838 | A collapsed process is promoted exactly when it is affected or hides an affected descendant. |
| `RebuildFilter.FilterRebuildSet` | src/common/view_helpers.cpp:762-861 | On any table in which no collapsed process is on a parent cycle: rows in start order, each once; those not collapsed are exactly the affected processes with outputs, without an affected child with outputs and with nothing collapsed above them; a collapsed process that is not hidden has a row if and only if it or something below it is affected; collapsed_children maps exactly the collapsed processes with affected descendants to exactly those descendants. |
| `RebuildFilter.NothingLost` | src/common/view_helpers.cpp:840-857 | Every affected process with outputs and a row that is on no parent cycle is shown, has a shown descendant, or lies under a shown collapsed ancestor. |
| `RebuildFilter.HiddenIsRepresented` | src/common/view_helpers.cpp:853-857 | Every hidden process lies below a collapsed process that is itself shown. |
| `RunCompaction.DetectRuns` | src/common/view_helpers.cpp:325-346 | The runs cut the sorted rows exactly at the gaps longer than a second and carry their first start and largest end. |
| `RunCompaction.ShiftsByPid` | src/common/view_helpers.cpp:351-358 | Every row of every run is recorded under its pid with the sum of all gaps before its run. |
| `RunCompaction.CompactRuns` | src/common/view_helpers.cpp:315-368 | If the rows that may begin a run have an exit: in place, every row moves by the idle time removed before its start, a quantity of the set of rows alone; order in the array is kept. |
| `RunCompaction.ShiftIsRemoved` | src/common/view_helpers.cpp:319-320 | The shift computed from any sorted order equals that quantity, so the order of rows with equal starts does not matter. |
| `RunCompaction.TimingKept` | src/common/view_helpers.cpp:353-367 | Durations and the number of instants every two processes share survive, rows without an exit inside a run included; nothing but start and end of a row changes. |
| `RunCompaction.OrderKeptIffHeld` | src/common/view_helpers.cpp:333-343 | The start order survives if and only if every row starts no later than the latest end known before the next break. |
| `RunCompaction.UnfinishedRowPassed` | src/common/view_helpers.cpp:333-357 | Three rows that meet the precondition and lose their start order: the one without an exit, started half a second after the rest of its run ended, is passed by the next run. |
| `RunCompaction.FinishedRows` | src/common/view_helpers.cpp:315-368 | Rows that all have an exit meet both conditions. |
| `RunCompaction.LaterRunsMeet` | src/common/view_helpers.cpp:354 | Each later run begins exactly where everything before it has ended. |
| `RunCompaction.GapsClosed` | src/common/view_helpers.cpp:323-358 | For every row that is not first: the time between its start and the last end before it becomes 0 if it was more than 1000000 microseconds, and stays what it was otherwise. |
| `RunCompaction.SpanShrinks` | src/common/view_helpers.cpp:352-357 | The first start stays and the last end moves by exactly the idle time removed. |
| `RunCompaction.Idempotent` | src/common/view_helpers.cpp:332-348 | If the rows that may begin a run have an exit: after compaction no gap is left to remove, and compacting again changes nothing. |
| `RunCompaction.BreakSeparates` | src/common/view_helpers.cpp:333 | Rows moved by different amounts did not overlap and still do not. |
| `Descendants.CollectDescendantPids` | src/common/view_helpers.cpp:527-538 | With the set shared by the recursion: terminates on any child graph, adds only pids reachable from the start, and what it adds is closed under child links. |
| `Descendants.DescendantsOf` | src/common/view_helpers.cpp:542-544 | From an empty set the result is exactly the pids reachable from the start pid, itself included. |
| `ReverseDeps.Expand` | src/common/view_helpers.cpp:889-920 | One expansion, readers by number and their outputs alphabetically, is the depth-first search with a visited set that the following rows are about. |
| `ReverseDeps.ExploreSound` | src/common/view_helpers.cpp:895-919 | The subtrees hold exactly the newly visited files, each once; edges are real reader-then-writer steps; every via_pid is 0; whatever a node above the limit feeds has been visited. |
| `ReverseDeps.ComputeRdeps` | src/common/view_helpers.cpp:922-927 | Each file once, only files within the limit, direct dependents always; complete if and only if no file held at the limit is nearer than it and feeds an absent file; complete if the graph has no detour; from the number of output files on, exactly all dependent files. |
| `ReverseDeps.RdepsIsTree` | src/common/view_helpers.cpp:889-927 | For every graph and limit: real edges, nothing below the limit, and a file other than the root is held if and only if a file held above the limit feeds it. |
| `ReverseDeps.ChildrenInOrder` | src/common/view_helpers.cpp:896-919 | Everywhere in the tree children stand by the number of the reader they come through, then alphabetically, with those visited before left out. |
| `Ordering.StringLessMeans` | src/common/view_helpers.cpp:896-919 | Alphabetical means: at the first difference the smaller character, or a proper prefix. |
| `ReverseDeps.CompleteUnlessCut` | src/common/view_helpers.cpp:895-912 | The tree holds exactly the files within the limit if and only if no file it holds at the limit is nearer than the limit and feeds a file it does not hold. |
| `ReverseDeps.CompleteWithoutDetours` | src/common/view_helpers.cpp:895-912 | It does if no repeat-free chain of exactly as many steps as the limit ends at a nearer file that feeds a file off the chain. |
| `ReverseDepsLimits.SafeExactlyWithoutLateWays` | src/common/view_helpers.cpp:901-912 | The dependencies of a file lose nothing under a limit, however processes are numbered and whatever one new file they lead to, if and only if no file nearer than the limit ends a repeat-free chain of exactly that many steps. |
| `ReverseDepsLimits.LateWayLoses` | src/common/view_helpers.cpp:901-912 | From any graph with such a chain: the renumbering, with a new file at its end, on which that file is lost although it is within the limit. |
| `ReverseDepsLimits.SafeLimits` | src/common/view_helpers.cpp:895-912 | A limit loses nothing on any graph if and only if it is at most 1. |
| `ReverseDepsLimits.WindingLoses` | src/common/view_helpers.cpp:895-912 | For every limit from 2 on, a graph on which a file two steps away is missed. |
| `ReverseDepsLimits.MissedAtTwo` | src/common/view_helpers.cpp:911-917 | The smallest case, with its whole tree: at limit 2, b is met through a first and c, two steps away, is missed. |
| `Parallelism.MaxParallel` | src/bdview_main.cpp:94-110 | For all rows: the largest net count of starts over ends at an instant, or 0. Where no finished row ends before it starts, that is the largest number of half-open intervals covering an instant. |
| `Parallelism.CutAt` | src/bdview_main.cpp:103-109 | For each instant the counter of the sweep equals, at some point, the number of processes running then. |
| `Parallelism.AfterStart` | src/bdview_main.cpp:103-109 | Right after a start event the counter does not exceed the number running at that instant: ends sort before starts. |
| `Parallelism.BucketChart` | src/bdview_main.cpp:1013-1054 | From minimum start to maximum end: one-second buckets of which the last holds the latest end, as long as 3600 suffice, and otherwise 3600 of the least width that covers the span; each bucket counts exactly the processes whose span touches it, and peak, sum and active count summarise them. Finished rows lie between the first start and the last end. |
| `Parallelism.TimedIsInside` | src/bdview_main.cpp:1019-1026 | Rows that do not end before they start do. |
| `Parallelism.Fill` | src/bdview_main.cpp:1042-1054 | Counts stay in bounds, and no finished process touches anything outside the chart. |
| `Parallelism.NeverClamped` | src/bdview_main.cpp:1034-1050 | The last bucket of any span inside the recording is below the number of buckets, capped or not, so the upper clamp never acts. |
| `Parallelism.RangeOf` | src/bdview_main.cpp:1047-1053 | Casts and clamps change nothing: the loop runs over exactly the buckets the span touches. |
| `Parallelism.BarsConserveSpans` | src/bdview_main.cpp:1051-1053 | The bars add up to the number of buckets each process spans, summed over the processes. |
| `Parallelism.PeakBoundsSweep` | src/bdview_main.cpp:1056-1065 | The chart's peak is never below the true parallelism of any instant. |
| `SubtreeStats.ComputeOne` | src/web/bdview_web.cpp:47-78 | For any pid on no parent cycle and with any correct cache: file and failure counts, user plus system time and bytes read plus written are added up over it and everything below it, the resident set is the largest peak there; a pid without a row adds nothing of its own and counts as a peak of 0; the cache stays correct and keeps its entries. |
| `SubtreeStats.ComputeAll` | src/web/bdview_web.cpp:86-106 | The same for every process of a forest, and g_total_cpu_us is the user and system time of all rows added up. |
| `SubtreeStats.AddChild` | src/web/bdview_web.cpp:66-74 | The children's subtrees have nothing in common, so adding one child's total adds exactly its processes. |
| `SubtreeStats.SumJoins` | src/web/bdview_web.cpp:68-73 | Totals of disjoint groups combine to the total of their union. |
| `SubtreeStats.RootsAddUp` | src/web/bdview_web.cpp:94-101 | On a forest the CPU totals of all roots add up to the total over all processes. |
| `PathNormalization.NeedsNormalize` | src/tracer/ptrace_backend.cpp:832-855 | The scan asks for work exactly when some position starts a "." or ".." component or a double slash. |
| `PathNormalization.ResolveComponents` | src/tracer/ptrace_backend.cpp:857-880 | The in-place split and pop loop resolves the components of the path, for every mix of slashes and dots. |
| `PathNormalization.NormalizePath` | src/tracer/ptrace_backend.cpp:829-890 | The method, fast path included, computes the function the following rows are about. |
| `PathNormalization.MeaningKept` | src/tracer/ptrace_backend.cpp:829-890 | From every directory, the result leads where the path leads; ".." stops at the root. |
| `PathNormalization.Idempotent` | src/tracer/ptrace_backend.cpp:829-890 | Normalising twice changes nothing more. |
| `PathNormalization.NormalFormIsSettled` | src/tracer/ptrace_backend.cpp:866-888 | The result has no "." (except as the whole path), no double slash and no ".." that is not leading; an absolute result has no ".." at all. |
| `PathNormalization.FastPathAgrees` | src/tracer/ptrace_backend.cpp:855 | Where the fast path returns the path unchanged, the slow path gives the same up to one trailing slash. |
| `PathNormalization.OneFormPerMeaning` | src/tracer/ptrace_backend.cpp:857-889 | For every two paths: the same rebuilt form if and only if they lead to the same place from every directory. |
| `PathNormalization.ResolvePath` | src/tracer/ptrace_backend.cpp:892-913 | Empty paths and paths without a known directory come back unchanged; others are normalised, relative ones after the directory is put in front. |
| `PathNormalization.PrefixedMeaning` | src/tracer/ptrace_backend.cpp:910-912 | Putting the directory in front leads where the path leads when walked from that directory. |
| `StringReader.StringAtMeans` | src/tracer/ptrace_backend.cpp:1399-1425 | A string is the one at an address exactly when its bytes lie there without a NUL and it ends at a NUL, the limit or the first unmapped address. |
| `StringReader.WithinPage` | src/tracer/ptrace_backend.cpp:1400-1403 | A read of at most the rest of the page stays inside the page. |
| `StringReader.ReadPages` | src/tracer/ptrace_backend.cpp:1395-1425 | For every memory and every short read: succeeds unless the very first address is unmapped, and then yields exactly that string. Every read stays inside one page and the buffer, and the loop ends. |
| `StringReader.Handle.ReadStringMem` | src/tracer/ptrace_backend.cpp:1382-1426 | Adds the descriptor: opened at most once, a failure remembered, false without touching the output when it is unusable. |
| `StringReader.PeekString` | src/tracer/ptrace_backend.cpp:1443-1454 | The word-wise fallback yields bytes that lie at the address without a NUL, and ends at the limit rounded up to words, at a NUL in a word it could peek, or in front of a word it could not. |
| `StringReader.PeekedIsUnique` | src/tracer/ptrace_backend.cpp:1443-1454 | That leaves exactly one string. |
| `StringReader.FallbackAgrees` | src/tracer/ptrace_backend.cpp:1399-1454 | For every limit, the fallback's string is the page-wise reader's if and only if the string, read up to whole words, stays within the limit and fills its words or ends in a wholly mapped one. |
| `StringReader.ReadString` | src/tracer/ptrace_backend.cpp:1428-1455 | Null address gives the empty string; with a usable descriptor the string is exact, otherwise it is the fallback's. |
| `SeccompFilter.BuildFilter` | src/tracer/ptrace_backend.cpp:101-130 | The generated program for a list of n numbers: n + 5 instructions with the offsets as the 8-bit casts leave them. |
| `SeccompFilter.FilterDecides` | src/tracer/ptrace_backend.cpp:106-130 | For every list of up to 254 numbers and every 32-bit input the program returns TRACE exactly for a listed number of the native architecture, ALLOW otherwise, and never leaves the program. |
| `SeccompFilter.ForeignTrapped` | src/tracer/ptrace_backend.cpp:113 | With 255 numbers a foreign call with the first listed number is trapped. |
| `SeccompFilter.FirstMissed` | src/tracer/ptrace_backend.cpp:120 | With more than 255 the first listed number of the native architecture is let through. |
| `SeccompFilter.LimitIs254` | src/tracer/ptrace_backend.cpp:101-130 | For lists without repeats the program decides correctly if and only if there are at most 254 numbers. |
| `Syscalls.TracedIsKnown` | src/tracer/ptrace_backend.cpp:82-98 | The trap list holds exactly the numbers the decoder has a case for. |
| `RecordedCalls.OpenAdds` | src/tracer/ptrace_backend.cpp:1089-1105 | After any run of native or foreign calls, under full and under seccomp tracing alike: open, creat, openat and openat2 (numbers 2, 85, 257, 437) add their path, from the register named, with read, write or both by the two low flag bits; with the descriptor on success and the error number on failure. |
| `RecordedCalls.ProbeAdds` | src/tracer/ptrace_backend.cpp:1106-1127 | stat, lstat, newfstatat and statx (4, 6, 262, 332) and access, faccessat and faccessat2 (21, 269, 439) add their path whether or not they succeed. |
| `RecordedCalls.ChangeAdds` | src/tracer/ptrace_backend.cpp:1136-1211 | The fourteen calls that change one file or read a link add its path with their own mode, only if they succeed. |
| `RecordedCalls.MoveAdds` | src/tracer/ptrace_backend.cpp:1142-1169 | rename, link and symlink in all variants add, only if they succeed, the source path and then the destination path, each from its own register. |
| `RecordedCalls.FailedExecAdds` | src/tracer/ptrace_backend.cpp:1128-1135 | A failed execve or execveat (59, 322) adds its path. |
| `RecordedCalls.ExecAdds` | src/tracer/ptrace_backend.cpp:1308-1338 | A call that replaced the process image adds that and nothing else. |
| `RecordedCalls.ChdirAdds` | src/tracer/ptrace_backend.cpp:1212-1236 | chdir (80) adds its path and a refreshed directory, fchdir (81) the directory itself, if they succeed. |
| `RecordedCalls.OtherAdds` | src/tracer/ptrace_backend.cpp:1057-1087 | Every other number, and every call that returns -38, adds nothing. |
| `SyscallTracing.SavedArguments` | src/tracer/ptrace_backend.cpp:958-1026 | Which argument registers are saved as first path, second path and open flags, for every number. |
| `SyscallTracing.Tracee.DecodeSyscallEntry` | src/tracer/ptrace_backend.cpp:954-1033 | New pending fields and whether the exit must be inspected. |
| `SyscallTracing.Tracee.HandleSyscallStop` | src/tracer/ptrace_backend.cpp:1057-1243 | New phase, pending fields and emitted records for every state and every fetched or failed register read, the skipped exit included. |
| `SyscallTracing.Tracee.HandleSeccompStop` | src/tracer/ptrace_backend.cpp:1038-1055 | New state, and whether the tracee is resumed to its next stop or runs on. |
| `SyscallTracing.Tracee.RecordExit` | src/tracer/ptrace_backend.cpp:1089-1236 | What an exit records: success, failure with errno, and both paths of two-path calls, branch by branch. |
| `SyscallTracing.Tracee.HandleExecEvent` | src/tracer/ptrace_backend.cpp:1308-1338 | The exec is recorded, and the exit that follows needs no inspection. |
| `SyscallTracing.ClassicRecords` | src/tracer/ptrace_backend.cpp:1057-1243 | Over every sequence of calls, full tracing records each call's contribution and nothing else, whether a child is first seen at an entry or an exit; a call that really returns -ENOSYS contributes nothing and does not disturb its successors. |
| `SyscallTracing.SkippingIsHarmless` | src/tracer/ptrace_backend.cpp:1058-1066 | Never fetching registers at unwanted exits records the same as always fetching them, if and only if no two-path call with a null first path succeeds. |
| `SyscallTracing.SeccompRecords` | src/tracer/ptrace_backend.cpp:1035-1055 | Over every sequence of calls, seccomp tracing (the stop in the role of the entry stop) records exactly the native calls' contributions. |
| `SyscallTracing.SeccompRefinesClassic` | src/tracer/ptrace_backend.cpp:109-111 | Seccomp and full tracing record the same sequence if and only if no foreign-architecture call has a number whose native meaning is inspected and, given its result, recorded at exit; the comment in the code claims full tracing cannot decode those. |
| `SyscallTracing.WriteTakenForStat` | src/tracer/ptrace_backend.cpp:1086-1114 | Such a call: a 32-bit x86 write, which full tracing records as a stat of path 1 and seccomp tracing does not. |
| `SyscallTracing.SeparateEntryRecordsExecsOnly` | src/tracer/ptrace_backend.cpp:589-592 | On kernels that report a separate entry stop after the seccomp stop, that stop consumes the request for the next stop and is handled as a second entry; the tracee is then resumed without asking for the exit, so only exec events are recorded. |
| `TraceSession.SynthInjective` | src/tracer/trace_session.cpp:69-75 | Synthetic ids are equal exactly when generation and pid are, for pids below 10,000,000. |
| `TraceSession.SynthFitsInt32` | src/tracer/trace_session.cpp:69-75 | All ids of a generation fit a 32-bit int for pids below 2^22 if and only if the generation is at most 214. |
| `TraceSession.KeyInjective` | src/tracer/trace_session.cpp:269-282 | The keys of the duplicate filter tell accesses, failures, modes, error numbers and file names apart. |
| `TraceSession.KeyIsFields` | src/tracer/trace_session.cpp:280 | The flag, the error number and the mode joined into a failure's key share no bit: each can be read off the key again. |
| `TraceSession.Session.CurrentSynth` | src/tracer/trace_session.cpp:71-75 | The id of the pid's current generation. |
| `TraceSession.Session.AlreadySeen` | src/tracer/trace_session.cpp:77-84 | Answers whether the key is already in the pid's seen set; a repeat is counted and changes nothing else, a new key is remembered. |
| `TraceSession.Session.OnProcessStart` | src/tracer/trace_session.cpp:213-244 | Books and queued row after a start: first start, exec re-image, recycled pid; nothing changes after a fatal write error. |
| `TraceSession.Session.OnProcessExit` | src/tracer/trace_session.cpp:246-265 | Books and queued exit after an exit. |
| `TraceSession.Session.OnAccess` | src/tracer/trace_session.cpp:267-289 | Books and queued access or failure, or only the drop counter for a repeated one. |
| `TraceSession.Session.DeleteProcess` | src/tracer/trace_session.cpp:291-300 | Books and queued delete before an exec re-insert. |
| `TraceSession.GenerationCounts` | src/tracer/trace_session.cpp:218-234 | Under the discipline below, a pid's generation is the number of its incarnations less one. |
| `TraceSession.TableIsLives` | src/tracer/trace_session.cpp:148-169 | For every disciplined call sequence the table of rows represents a table of process incarnations: same rows, each under the id of its incarnation, with its parent's incarnation. |
| `TraceSession.ExitFillsRow` | src/db/database.cpp:362-382 | After every disciplined sequence an exit sets end, exit code, user time, system time, peak resident set, bytes read and bytes written of the row with id 10000000 * generation + pid, each from its own field, and changes nothing else in that row or in any other. |
| `TraceSession.StartAddsRow` | src/tracer/trace_session.cpp:236-243 | After every disciplined sequence a start adds its row unchanged but for pid and ppid, which become the ids of its own and of its parent's incarnation; no row was under that id. |
| `TraceSession.DeleteRemovesRow` | src/tracer/trace_session.cpp:291-300 | A delete removes the row of its incarnation and no other. |
| `TraceSession.CountersCount` | src/tracer/trace_session.cpp:222-234 | The final counters: repeated accesses within a process image, starts of a pid that was started before and not just deleted, and those among them with no exit seen since. |
| `TraceSession.CollisionFreeIffDisciplined` | src/tracer/trace_session.cpp:218-234 | No insert hits an existing key if and only if no pid is started again while a delete made before its first start is outstanding. |
| `TraceSession.StartFirstIsDisciplined` | src/tracer/trace_session.cpp:218-223 | Callers that start every pid before deleting it keep that discipline. |
| `TraceSession.EventsLandOnCurrent` | src/tracer/trace_session.cpp:246-300 | Every start, exit, access and delete carries 10000000 times the generation plus the pid, for the incarnation current at the call; an exec keeps it, any other restart takes the next. |
| `TraceSession.AccessKeptOnce` | src/tracer/trace_session.cpp:267-289 | An access is queued exactly when its process image makes it for the first time. |
| `TraceSession.AccessedInImageMeans` | src/tracer/trace_session.cpp:77-84 | The recursive test used for that means: such an access at an earlier position, and no start or exit of the pid since. |
| `TraceSession.DeletePendingMeans` | src/tracer/trace_session.cpp:248-300 | A delete is pending exactly if the last start, exit or delete of the pid is a delete. |
| `TraceSession.StaleDeleteMeans` | src/tracer/trace_session.cpp:218-234 | A delete from before the first start is outstanding exactly if that first start is the last start, exit or delete of the pid and a delete was pending when it came. |
| `BatchWriter.Writer.ApplyEvent` | src/tracer/trace_session.cpp:142-172 | New transaction state, error counters and commits after one event, for success and failure. |
| `BatchWriter.Writer.CheckWriteResult` | src/tracer/trace_session.cpp:174-189 | Failures in a row and failures in total. |
| `BatchWriter.Writer.MaybeCommit` | src/tracer/trace_session.cpp:343-355 | A full batch is committed and the counters reset; otherwise nothing changes. |
| `BatchWriter.Writer.Close` | src/tracer/trace_session.cpp:314-317 | An open transaction is committed. |
| `BatchWriter.GivingUp` | src/tracer/trace_session.cpp:143 | Writing stops for good exactly when some 50 consecutive statements failed. |
| `BatchWriter.FiftyInARow` | src/tracer/trace_session.cpp:143 | That is: up to the position there is one before which fifty statements in a row failed. |
| `BatchWriter.WrittenMeans` | src/tracer/trace_session.cpp:142-172 | The events written are a prefix of those handed over: the one at a position is written exactly if the writer had not given up there. |
| `BatchWriter.ErrorsCount` | src/tracer/trace_session.cpp:174-183 | The error total is the number of failed statements among those executed. |
| `BatchWriter.RunWrites` | src/tracer/trace_session.cpp:142-172 | Commits followed by the open transaction are exactly the events written, in order. |
| `BatchWriter.ClosedCommits` | src/tracer/trace_session.cpp:302-317 | After closing, all commits but the last cover exactly 5000 events, together exactly the events written; all events unless fifty statements in a row failed. |
| `EventQueue.ProducerConserves` | src/tracer/trace_session.cpp:86-98 | No step of the event loop loses, duplicates or reorders an event. |
| `EventQueue.WriterConserves` | src/tracer/trace_session.cpp:105-138 | No step of the writer thread does either. |
| `EventQueue.RunIsSafe` | src/tracer/trace_session.cpp:86-138 | In every state of every interleaving: applied, local batch and queue are the enqueued events in order; the queue holds at most 200000; at most one thread holds the lock; never do both wait. |
| `EventQueue.OfferedIsKept` | src/tracer/trace_session.cpp:86-138 | Counting the event on its way into the queue as well, they are exactly the events the loop offered, in order. |
| `EventQueue.SomeoneCanStep` | src/tracer/trace_session.cpp:86-138 | In every state that meets the invariant of all runs and whose event loop is not done, one of the two threads can step without a spurious wake-up. |
| `EventQueue.StopAdvances` | src/tracer/trace_session.cpp:305-313 | While the event loop joins, every step brings the end strictly nearer. |
| `EventQueue.JoinReturns` | src/tracer/trace_session.cpp:305-313 | The join returns after a bounded number of steps, whatever the interleaving. |
| `EventQueue.DoneEqualsSynchronous` | src/tracer/trace_session.cpp:302-317 | Afterwards the writer has applied exactly the events offered, and its commits are those of writing them synchronously. |
| `ChildRegistration.Backend.HandleForkEvent` | src/tracer/ptrace_backend.cpp:1245-1306 | Table and session call after a fork event: an entry registered by its initial stop is completed, a leftover is replaced. |
| `ChildRegistration.Backend.HandleReport` | src/tracer/ptrace_backend.cpp:548-617 | Table and actions after any report. |
| `ChildRegistration.RunInStep` | src/tracer/ptrace_backend.cpp:548-616 | For every possible run with any number of children and any exit reports lost: the table holds every live process with its true parent and its stop state, and the actions are exactly the expected ones. |
| `ChildRegistration.Answered` | src/tracer/ptrace_backend.cpp:560-616 | After every possible run: a fork event starts the child under the reporting parent, any signal but SIGSTOP is passed on unchanged, an exit ends the process, an event stop continues it. |
| `ChildRegistration.LaterStopPassedOn` | src/tracer/ptrace_backend.cpp:600-616 | A child whose two reports are in has every later SIGSTOP passed on. |
| `ChildRegistration.OncePerChild` | src/tracer/ptrace_backend.cpp:600-616 | In either order of the two reports, the initial stop of a child whose pid loses no exit is swallowed once per life. |
| `ChildRegistration.StartedOncePerFork` | src/tracer/ptrace_backend.cpp:1299-1305 | Each child is started in the session once per fork event, whatever is lost. |
| `ChildRegistration.InitialStopSwallowed` | src/tracer/ptrace_backend.cpp:600-616 | After every run, with exits lost or not: an initial stop is swallowed unless the pid has an entry left over that says seen; then it is swallowed exactly when the fork event comes first and re-injected otherwise. |
| `ChildRegistration.TracedIffForkFirst` | src/tracer/ptrace_backend.cpp:1275-1287 | After any run that left an entry over, both orders of the two reports are possible, and the new child ends known as traced exactly in the order that has the fork event first. |
| `JsonWriter.Writer.BeginObject` | src/web/json_writer.h:15-21 | A comma if a sibling came before, an opening brace, one level deeper. |
| `JsonWriter.Writer.EndArray` | src/web/json_writer.h:38-43 | A closing bracket, one level up, a comma due next. |
| `JsonWriter.Writer.Key` | src/web/json_writer.h:45-51 | Comma, escaped name and colon; the value gets no comma. |
| `JsonWriter.Writer.PutEscaped` | src/web/json_writer.h:115-137 | The character loop writes the quoted, escaped form up to the first NUL. |
| `JsonWriter.Emit` | src/web/json_writer.h:15-106 | The calls for a tree append exactly its text, after a comma if one is due, and leave the nesting as it was. |
| `JsonWriter.Write` | src/web/json_writer.h:15-137 | The text of every tree reads back, by a reader for sections 2 to 7 of RFC 8259, as that tree with strings cut at their first NUL; as exactly that tree if and only if no string holds a NUL. |
| `JsonText.StringRead` | src/web/json_writer.h:115-137 | Reading a string body undoes the escaping exactly (section 7 of RFC 8259), up to the first NUL. |
| `JsonText.EscapesUsed` | src/web/json_writer.h:115-137 | Which characters are escaped and how: seven short escapes, lower-case hexadecimal for the other controls, nothing else. |
| `JsonText.IntegerRead` | src/web/json_writer.h:76-83 | Every 64-bit integer reads back from its decimal form. |
| `JsonText.ElemsRead` | src/web/json_writer.h:30-43 | The elements of an array read back one for one, so commas stand exactly between siblings. |
| `JsonText.MembersRead` | src/web/json_writer.h:15-51 | The members of an object read back one for one, names and values. |
| `JsonText.RoundTrip` | src/web/json_writer.h:15-137 | The reader inverts the text of every tree. |
| `JsonText.ExactRoundTrip` | src/web/json_writer.h:115-117 | The round trip is exact if and only if no string of the tree holds a NUL. |

## What the code does differently from its documentation

- README.md:71-77 of the repository promises the seccomp fast path for kernels
  3.5 and newer. Up to 4.7 the kernel reports the seccomp stop before a separate
  entry stop; `SyscallTracing.SeparateEntryRecordsExecsOnly` proves that the code
  then records exec events only. The other results on seccomp tracing are about the
  order from 4.8 on.
- src/tracer/ptrace_backend.cpp:109-111 says full tracing cannot decode
  foreign-architecture numbers. It does decode them, as native ones;
  `SyscallTracing.SeccompRefinesClassic` states exactly when the two modes differ.
- `via_pid` is documented as the process an edge goes through, but each expansion
  resets it to 0 (src/common/view_helpers.cpp:894); `ReverseDeps.ComputeRdeps`
  proves that every node has 0, and edges are stated existentially.
- The redirect fix walks parents in pid order, so outputs travel through a reader
  that wrote nothing only from a smaller to a larger pid
  (`DependencyGraph.HandsDown`).

## Left out

- SQLite, SQL text and schema: query results are input sequences and the
  processes table is a map; a statement's outcome is an input of the writer.
- ptrace and waitpid themselves, /proc, signals to the tracer, the stall
  watchdog, draining and fault injection: only the delivered stops are modelled.
- HTTP handlers, JavaScript, printing, logging, command-line parsing.
- Command names: whether a process is collapsed is a predicate of its row, so
  `cmd_name` and the interpreter tables are not modelled.
- Impact ranking, rebuild estimates, hotspot and diagnose reports, mode and errno
  names: they add only thresholds and sorting to parts covered here.
- Iteration order of maps keyed by file name in `Races.DetectRaces`: it is an input.
  Sets of pids are walked ascending, the outputs in `ReverseDeps` alphabetically;
  elsewhere the order of file names is left open, and what is proved holds for any.
- 32-bit x86 call numbers, x32, and the filter on `/dev`, `/proc` and `/sys` paths.
- Path texts in `SyscallTracing`: records carry the argument's address; reading
  the string and resolving it are `StringReader` and `PathNormalization`. Updates of
  the cached working directory are not followed.
- `openat2` takes its mode from the low bits of the pointer to its argument
  block, as the code does; the block itself is not read.
- Doubles in the JSON writer, and UTF-8: characters stand for bytes. The reader
  accepts integers without fraction or exponent and refuses escaped surrogates;
  the writer produces neither.
- Wrap-around of 64-bit times, byte counts and sums: they are unbounded here.
- RunCompaction.CompactRuns: needs distinct pids, and an exit for every row that may
  begin a run: without one, end 0 makes the row look finished before it starts.
- Parallelism.BucketChart: needs a span below 2^31 seconds, beyond which the cast
  of the bucket number would wrap, and finished rows between the first start and
  the last end; the printed histogram is not modelled.
- RebuildFilter.FilterRebuildSet: needs a row for every affected producer without a
  producing child, because that lookup is dereferenced unchecked, and no collapsed
  process on a parent cycle, because the queues below it keep no visited set and
  would never empty.
- RebuildClosure.RebuildBfsReasons: needs that no stale process with outputs has the
  number 0, because source 0 stands for the user.
- ReverseDepsLimits.SafeExactlyWithoutLateWays: the exact condition is on the
  dependencies, over all process numbers; for one given numbering the exact
  condition is the one on the tree in `ReverseDeps.CompleteUnlessCut`.
- SubtreeStats.ComputeOne: needs a pid on no parent cycle, because the recursion
  would not end.
- StringReader.ReadPages: memory does not change while it is read, mappings come
  in whole pages of the reported size, and reads of mapped memory do not fail.
- ChildRegistration.RunInStep: nothing else of a child is reported until its fork and
  its initial stop are; a child that dies before is not covered. The root's initial
  stop is consumed before the loop, so its first later SIGSTOP is treated like an
  initial stop, and stated so.
- SyscallTracing.SeccompRecords: register reads succeed at every stop of a run;
  single steps cover failing ones.
- EventQueue.RunIsSafe: memory is sequentially consistent at the grain of lock,
  wait, signal and queue operations; fairness is not needed because only finite
  runs are spoken of. The synchronous mode without a thread is `BatchWriter` alone.
- TraceSession.TableIsLives: a parent's id is the one of the incarnation current
  at the child's start or exec, as in the code, so an orphan that execs after its
  parent's pid was recycled is linked to the new owner.
