# SHER Process Explorer: a verified model

SHER Process Explorer polls a process table, derives per-process history and a
timeline of events from consecutive polls, answers questions about them, shows the
process hierarchy, and (as the `sherd` daemon) keeps a long-term store. This project
models that core in Dafny and proves what its consumers rely on.

`dafny verify dfyconfig.toml` checks everything.

## What is modelled

- `Tick.dfy` — one `refresh_at` call as a transformation of values: the deferred prune,
  the pass over the listing, the events, both capacity bounds, and the early return of a
  failed listing. Hash-set iteration orders are arbitrary (`Orders`).
- `Pass.dfy`, `Intelligence.dfy` — the object `ProcessIntelligence`, whose methods update
  its maps and deques in place; `RefreshAt` performs exactly one `Tick.Step`, and `Valid`
  ties the object to the run of refreshes it has seen, so the theorems about runs are
  theorems about the object.
- `Runs.dfy`, `Readings.dfy`, `Emission.dfy`, `Lifecycle.dfy`, `Connections.dfy`,
  `EventBatch.dfy`, `Growth.dfy` — theorems about every finite run, driven by arbitrary adapter answers: list failures, missed
  process reads, failed connection reads, pid reuse.
- `Investigation.dfy`, `ClockStep.dfy`, `KernelLog.dfy`, `OtherKill.dfy` —
  `crash_analysis` and `why_memory`: which run is blamed, how far the clock may step back,
  which kernel line is cited.
- `ShortLife.dfy` — the smallest run with an exit, for concrete inputs.
- `Forest.dfy`, `Traversal.dfy`, `RacyCycle.dfy` — `ProcessTree::{build, roots, family,
  aggregate}` over parent links that may contain cycles, and a refresh that makes one.
- `TreeView.dfy`, `RowFacts.dfy`, `RowOrder.dfy` — the GUI's `flatten_tree`.
- `Store.dfy`, `Queries.dfy`, `Render.dfy` — the persistent store, its queries, and the
  CLI's grouping.
- `Daemon.dfy`, `Retention.dfy`, `RetentionClock.dfy`, `Persistence.dfy`,
  `StoredTwice.dfy`, `DequeKept.dfy` — the `sherd` loop.
- `Numerals.dfy`, `StatLine.dfy`, `Sockets.dfy`, `SocketText.dfy` — the
  `/proc/[pid]/stat` line and the
  socket tables, with printers for the kernel's formats.
- `Seqs.dfy`, `Results.dfy`, `Model.dfy` — shared vocabulary and data.

Assumptions, stated as `requires` where used: a listing names no pid twice; for the
daemon, a snapshot read for a pid carries that pid. The clock may do anything, except
where a theorem says how far it may step back: less than an hour for `crash_analysis`, no
more than the retention period for the age of stored rows (both exact), not onto the
time of any event still in the timeline for storing each event once (exact too), and not
at all between successful refreshes for the stored snapshots to end with the deque. `f64` is
`real`, JSON encoding is the identity, SQL tables are sequences of rows, u32 and u64 sums
do not wrap.

## What the proofs turned up

- The growth rule compares readings an hour apart but keeps 120 of them, so it can only
  fire if some successful refreshes are 30 or more seconds apart
  (`Growth.GrowthNeedsThirtySecondGaps`); `why_memory` needs 31
  (`Growth.WarningNeedsThirtyOneSecondGaps`). The daemon's default interval is 5 seconds.
- `family` has no visited set and never returns for a pid on a `ppid` cycle; it does for
  every other pid (`Traversal.FamilyTerminatesIffOffCycle`). One refresh over a recycled
  pid can leave such a cycle (`RacyCycle.RacyListingMakesCycle`). Processes on or below it
  appear in no row of the GUI and in no root's rollup.
- `crash_analysis` looks events up by bare pid, yet pairs an exit only with growth of the
  same unbroken run (`Investigation.CrashAnalysisBlamesOneRun`), as long as the wall clock
  it is stamped with never steps back by an hour. A step of an hour can make it blame
  another generation, and no smaller one can (`ClockStep.MispairingNeedsHourStep`).
- `crash_analysis` looks for the pid's digits anywhere in a kernel line
  (`KernelLog.MatchesIffNamed`), so the kill of process 123 is blamed for the exit of
  process 12, through the longer pid in "Killed process 123" or through the size in
  "Killed process 123 total-vm:12kB" (`OtherKill.OtherKillBlamed`). It is right exactly
  when the log records a kill of the pid, or no line has its digits in any number
  (`KernelLog.KillBlamedRightly`).
- `parse_stat_line` reads its unsigned 64-bit counters as signed: it inverts the format
  exactly when utime, stime and starttime are below 2^63 (`StatLine.ParseInvertsPrint`).
- `who_has_port` is exact for TCP and UDP, but also reports Unix sockets whose path ends
  in `:port` (`Sockets.PortOwners`).
- `sherd` picks up every retained event not stamped before the refresh, not only the
  refresh's own: with nothing failing it stores the log exactly once if and only if each
  refresh is stamped after all retained events (`Persistence.StoresLogIffOwnEvents`), and
  otherwise stores some again, such as the start of a process that lives between two
  refreshes of one second (`StoredTwice.LivedStoredOnce`).
- `sherd` counts the hour to its next prune from its own start and from every attempt,
  failed or not: it prunes exactly when it stays up for an hour
  (`Retention.PrunesIffUpAnHour`), so one restarted more often never does
  (`Retention.ShortLivedDaemonNeverPrunes`).

## Model

| member | source | states |
|---|---|---|
| Intelligence.ProcessIntelligence.RefreshAt | crates/sher-pe-intelligence/src/lib.rs:103-247 | the object performs exactly one tick of the specification, on success and on the early error return, for some iteration orders of its hash sets, and stays tied to its run |
| Intelligence.ProcessIntelligence.TrackPid | crates/sher-pe-intelligence/src/lib.rs:131-221 | the loop body for one readable pid: its events, its percentage, its capped deque and its address set, nothing else touched |
| Intelligence.ProcessIntelligence.History | crates/sher-pe-intelligence/src/lib.rs:269-278 | the arbitrary search by bare pid has at most one candidate: the result is the capped streak of the pid's live run, or of the one that just ended |
| Intelligence.ProcessIntelligence.Tree | crates/sher-pe-intelligence/src/lib.rs:250-252 | the hierarchy built from the current snapshots has exactly those snapshots as nodes |
| Runs.StateMatchesAnswers | crates/sher-pe-intelligence/src/lib.rs:103-247 | for every run and generation: liveness, the current snapshot, the stale keys and every retained history agree with the reference that reads the adapter's answers only; a history is the last 120 readings of an unbroken streak |
| Runs.TrackedKeys | crates/sher-pe-intelligence/src/lib.rs:69-76 | after every refresh, failed or not, the keys with history are the live and the stale generations, disjointly; address sets belong to them; no deque is empty or above capacity |
| Runs.TotalSamplesBound | crates/sher-pe-intelligence/src/lib.rs:69-220 | the tracked keys number the live processes plus those that vanished in the last refresh, and over all of them at most 120 readings each are stored |
| Runs.ExitedHistoryUnique | crates/sher-pe-intelligence/src/lib.rs:269-274 | two tracked generations of an exited pid are the same generation |
| Runs.HistoryCarriesRate | crates/sher-pe-intelligence/src/lib.rs:45-51 | for every run: the percentage of every retained reading but a history's first, times the seconds since the reading before it, is the ticks used since; zero for a clock or counter that did not advance |
| Readings.CurrentIsRead | crates/sher-pe-intelligence/src/lib.rs:131-221 | a live process is shown exactly as the adapter last reported it but for the CPU percentage, and on first sight with the adapter's percentage too |
| Readings.HistoryIsTaken | crates/sher-pe-intelligence/src/lib.rs:159-221 | every retained reading is the adapter's own snapshot from its own refresh, percentage aside, no successful refresh in between is missing, and a streak's first reading is untouched |
| Tick.ThresholdIsHalf | crates/sher-pe-intelligence/src/lib.rs:170-174 | the threshold is crossed exactly when the RSS is at least one and a half times the baseline |
| Tick.BaselineIsNewest | crates/sher-pe-intelligence/src/lib.rs:165-169 | the baseline is the newest retained reading at least an hour old, and absent exactly when there is none |
| Emission.EmittedJustified | crates/sher-pe-intelligence/src/lib.rs:134-232 | every event of a tick carries its time and its cause: a new or vanished generation, a baseline that grew, an unseen address, a parent live before or after |
| Emission.EmittedLife | crates/sher-pe-intelligence/src/lib.rs:134-232 | a tick logs one Started per generation that becomes live, one Exited per generation that ceases to be, and no other lifecycle event |
| Emission.ChildAnnounced | crates/sher-pe-intelligence/src/lib.rs:144-156 | a new child is reported exactly when its generation has just become live and its parent pid was live before or read earlier in the listing, and the event names that pid |
| EventBatch.EmittedExactly | crates/sher-pe-intelligence/src/lib.rs:134-232 | a refresh logs exactly the events due, each once, told from the adapter's answers and the readings before; a child event names the parent's generation read earlier in the listing, or else the one live before |
| EventBatch.EmittedInOrder | crates/sher-pe-intelligence/src/lib.rs:131-240 | events come in listing order, of each process start, child, growth, connections, and exits last |
| Lifecycle.LifecycleAlternates | crates/sher-pe-intelligence/src/lib.rs:109-158 | in the full log of any run Started and Exited of a generation strictly alternate from Started, and it is live exactly when the count is odd |
| Lifecycle.StreaksAreLogged | crates/sher-pe-intelligence/src/lib.rs:134-143 | a Started is logged exactly when a streak of readings begins and an Exited exactly when one ends |
| Lifecycle.TimelineIsLogTail | crates/sher-pe-intelligence/src/lib.rs:238-243 | the bounded timeline is always the last 1000 events of the full log |
| Lifecycle.GrowthFallsInRun | crates/sher-pe-intelligence/src/lib.rs:159-192 | every growth event of any possible run lies in an open run of its own generation; if the clock never steps back more than `back` seconds, that run began at least an hour less `back` before it |
| Lifecycle.ExitIsAlone | crates/sher-pe-intelligence/src/lib.rs:224-232 | an exit closes its own open run, and a run of another generation of the pid can only have opened in that very tick |
| Connections.ConnectionAnnounced | crates/sher-pe-intelligence/src/lib.rs:194-213 | an address is announced exactly when it is not empty, is the remote address of a connection just read, and of none in the previous successful read of the streak |
| Connections.NoEmptyAddress | crates/sher-pe-intelligence/src/lib.rs:195-199 | a connection without a remote address is never announced |
| Connections.AnnouncedOnce | crates/sher-pe-intelligence/src/lib.rs:201-211 | one refresh announces an address of a generation at most once |
| Connections.NoRefire | crates/sher-pe-intelligence/src/lib.rs:194-213 | between two announcements of one address some refresh read the connections without it or logged the exit |
| Growth.GrowthAnnounced | crates/sher-pe-intelligence/src/lib.rs:165-190 | a growth event is emitted exactly when the newest of the last 120 earlier readings of the streak that is an hour old was exceeded by half |
| Growth.FrequentRefreshesMissGrowth | crates/sher-pe-intelligence/src/lib.rs:26-36 | with successful refreshes less than 30 seconds apart no run ever emits a growth event |
| Growth.GrowthNeedsThirtySecondGaps | crates/sher-pe-intelligence/src/lib.rs:165-190 | some run with gaps of at most g seconds emits a growth event if and only if g is at least 30 |
| Growth.WarningNeedsThirtyOneSecondGaps | crates/sher-pe-investigation/src/lib.rs:179-219 | some run with gaps of at most g seconds ends with a why_memory warning about a live process if and only if g is at least 31 |
| KernelLog.MatchesIffNamed | crates/sher-pe-investigation/src/lib.rs:408-410 | a kernel line matches exactly when one of its whole numbers is the pid or a longer one has the pid's digits within it |
| KernelLog.KillBlamedRightly | crates/sher-pe-investigation/src/lib.rs:408-467 | an exit is put down to a kill if and only if some line records a kill of that pid, exactly when some line does or no line has the pid's digits in any number |
| KernelLog.KillCitedRightly | crates/sher-pe-investigation/src/lib.rs:408-451 | the line cited records a kill of the pid exactly when such a line comes before every other line with the pid's digits in a number |
| OtherKill.OtherKillBlamed | crates/sher-pe-investigation/src/lib.rs:408-451 | over any run whose timeline holds an exit of process 12, and one exists, either of two lines that record only the kill of process 123 makes it a kill and is cited for it |
| Investigation.CrashAnalysisBlamesOneRun | crates/sher-pe-investigation/src/lib.rs:380-406 | unless the clock steps back an hour or more, growth is blamed exactly when a growth event of the run ending in the pid's first retained exit, stamped no later, is still retained, and such an event is the one cited |
| Investigation.GrowthIsOfExitingRun | crates/sher-pe-investigation/src/lib.rs:401-406 | unless the clock steps back an hour or more, a retained growth event of the pid no later than the first retained exit precedes it and is of the same generation and unbroken run |
| Investigation.WhyMemoryStaysInStreak | crates/sher-pe-investigation/src/lib.rs:140-234 | for a live process: the oldest retained and the latest reading of one streak are compared; Warning and Likely exactly on an hour's window with half growth, otherwise Info, Observed without a usable baseline and Correlated with one; title and both items of evidence |
| ClockStep.BackwardClockMispairs | crates/sher-pe-investigation/src/lib.rs:401-406 | over the bounded timeline of a possible run whose clock steps back an hour, the exit of one generation is cited with the growth of another |
| ClockStep.MispairingNeedsHourStep | crates/sher-pe-investigation/src/lib.rs:401-406 | some possible run with backward clock steps of at most `back` seconds has an exit blamed on growth of another run if and only if `back` is at least 3600 |
| Forest.RootedIffNoCycleAbove | crates/sher-pe-model/src/tree.rs:47-58 | a pid's parent chain ends at a root exactly when no ancestor of it is on a cycle |
| Forest.RootFamiliesDisjoint | crates/sher-pe-model/src/tree.rs:47-75 | no pid is in the families of two roots |
| Traversal.Build | crates/sher-pe-model/src/tree.rs:31-43 | the child lists enumerate the parent links exactly, whatever the map order: c is listed under p when both are nodes, c's ppid is p and c is not p |
| Traversal.NodesAreLatest | crates/sher-pe-model/src/tree.rs:32-33 | the last snapshot of a pid is its node, and there are no others |
| Traversal.RootsOf | crates/sher-pe-model/src/tree.rs:47-58 | exactly the pids without a parent in the tree, each once |
| Traversal.FamilyOf | crates/sher-pe-model/src/tree.rs:62-75 | off cycles the search without a visited set lists the pid and every descendant exactly once, in order of distance |
| Traversal.FamilyTerminatesIffOffCycle | crates/sher-pe-model/src/tree.rs:66-73 | the search loop ends if and only if the pid is not on a ppid cycle |
| RacyCycle.RacyListingMakesCycle | crates/sher-pe-model/src/tree.rs:31-75 | a possible refresh leaves two processes naming each other as parent: the built tree has no root and the search from either never ends |
| Traversal.Aggregate | crates/sher-pe-model/src/tree.rs:81-97 | nothing for an absent pid, otherwise the totals over the family, whatever order it is listed in, counting each member once |
| Traversal.RollupFollowsUsage | crates/sher-pe-model/src/tree.rs:88-95 | changing what a process uses changes each figure of the rollups of its families by exactly the difference, and no other rollup |
| Traversal.RootRollupsConserve | crates/sher-pe-model/src/tree.rs:47-97 | the roots' families partition the rooted pids and their rollups add up to the totals over them |
| Traversal.RootsCoverIffAcyclic | crates/sher-pe-model/src/tree.rs:47-58 | the roots account for every process exactly when there is no ppid cycle |
| TreeView.FlattenTree | crates/sher-pe-gui/src/treeview.rs:26-36 | terminates for every built tree, cycles or not, and yields rows that depend on the parent links only |
| TreeView.SubtreeMatches | crates/sher-pe-gui/src/treeview.rs:68-90 | true exactly when the filter is empty or the pid or some descendant matches |
| RowFacts.ShownIff | crates/sher-pe-gui/src/treeview.rs:46-63 | a process has a row exactly when it is root-reachable and its subtree matches, or without a filter all its proper ancestors are expanded |
| RowFacts.RowsReadBack | crates/sher-pe-gui/src/treeview.rs:50-63 | no process has two rows, and a row's parent is the nearest earlier row one level up |
| RowOrder.RowsInPidOrder | crates/sher-pe-gui/src/treeview.rs:28-51 | roots, and rows under one parent, come in ascending order of pid |
| RowOrder.RowIsTrue | crates/sher-pe-gui/src/treeview.rs:50-56 | a row's depth is its distance from its root, its marker whether it has children |
| RowOrder.SearchShows | crates/sher-pe-gui/src/treeview.rs:68-90 | a search shows exactly the root-reachable processes with a member below whose lower-case name contains the needle or whose pid it is |
| RowFacts.ExpandedRowsAreFamily | crates/sher-pe-gui/src/treeview.rs:58-63 | fully expanded unfiltered rows are a permutation of the breadth-first family |
| Store.HistoryStore.RecordSnapshot | crates/sher-pe-history/src/lib.rs:122-136 | one row keyed by pid and start time, or no change on failure |
| Store.HistoryStore.SnapshotsForGeneration | crates/sher-pe-history/src/lib.rs:181-204 | the generation's rows from a time on, in time order |
| Queries.SnapshotAnswerIsGenerations | crates/sher-pe-history/src/lib.rs:181-204 | over recorded tables the answer is exactly the snapshots with that pid and start time, as often as recorded, in time order |
| Store.HistoryStore.PruneOlderThan | crates/sher-pe-history/src/lib.rs:251-260 | both tables lose exactly their rows before the cutoff, counted; a failing statement leaves its table alone |
| Queries.PruneRemovesOld | crates/sher-pe-history/src/lib.rs:251-260 | every copy of a row before the cutoff goes and every other copy stays, snapshots first |
| Store.AnswerTail | crates/sher-pe-history/src/lib.rs:160-162 | in any time-ordered answer, rows with distinct times from some moment on come last, in stored order |
| Render.GroupByGeneration | crates/sher-pe-cli/src/render.rs:611-625 | one group per start time present, holding exactly its snapshots and events in answer order |
| Render.GroupsPartitionRows | crates/sher-pe-cli/src/render.rs:611-644 | the groups together have every row exactly as often as the query returned it |
| Render.GroupsKeepTimeOrder | crates/sher-pe-cli/src/render.rs:627-638 | rows of a group stay in time order |
| Render.GroupIsGenerationQuery | crates/sher-pe-history/src/lib.rs:158-204 | the snapshots of a group of the bare-pid answer are those of the generation-scoped answer |
| Render.GroupIsGenerationEvents | crates/sher-pe-history/src/lib.rs:210-246 | the same for events |
| Store.HistoryStore.EventsForGeneration | crates/sher-pe-history/src/lib.rs:227-246 | the generation's events from a time on, in time order |
| Queries.EventAnswerIsGenerations | crates/sher-pe-history/src/lib.rs:227-246 | over recorded tables the answer is exactly the events with that key, as often as recorded, in time order |
| Daemon.Serve | crates/sher-pe-daemon/src/main.rs:164-196 | the loop over the live objects follows the iteration specification for any inputs |
| Daemon.SleepInterruptible | crates/sher-pe-daemon/src/main.rs:98-106 | sleeps the whole time unless stopped, and notices a stop within 200 ms |
| Daemon.PersistTick | crates/sher-pe-daemon/src/main.rs:108-121 | all current snapshots, then the events since now, up to the first failing insert |
| Daemon.CutoffFits | crates/sher-pe-daemon/src/main.rs:168-185 | the prune cutoff stays within an i64 for every retention period if and only if the clock is no earlier than one second before the epoch |
| Retention.OnlyOldRowsDeleted | crates/sher-pe-daemon/src/main.rs:184-193 | an iteration only appends to the rows within the retention period, dropping, duplicating or reordering none; without a prune to all rows |
| Retention.YoungRowsSurvive | crates/sher-pe-daemon/src/main.rs:176-193 | over whole runs of the loop, with any clock, the rows stored by some iteration that stay within the retention period are still there, as often as before and in order |
| Retention.PrunesIffUpAnHour | crates/sher-pe-daemon/src/main.rs:173-192 | some iteration prunes if and only if some iteration runs an hour or more after the start, with any clock |
| Retention.RowsStayYoung | crates/sher-pe-daemon/src/main.rs:176-193 | once up for an hour, and the latest prune having succeeded, every iteration ends with all rows younger than retention plus an hour, unless the clock steps back by more than the retention period |
| RetentionClock.OldRowNeedsRetentionStep | crates/sher-pe-daemon/src/main.rs:176-193 | with backward clock steps of at most `back` seconds some daemon, up an hour and freshly pruned, keeps an older row if and only if `back` exceeds the retention period |
| Retention.ShortLivedDaemonNeverPrunes | crates/sher-pe-daemon/src/main.rs:173-184 | as long as no iteration runs an hour or more after the start, both tables only grow |
| Persistence.RecentIsEmitted | crates/sher-pe-intelligence/src/lib.rs:295-301 | what the daemon picks up after a refresh is that refresh's own events, at most the newest 1000, if and only if every earlier event still in the timeline is stamped before it; otherwise it picks up more |
| Persistence.TableHoldsStored | crates/sher-pe-daemon/src/main.rs:117-119 | from any moment no prune has reached, the event table holds exactly the encodings of the events ever stored, in order |
| Persistence.EventTableIsLog | crates/sher-pe-daemon/src/main.rs:108-121 | if besides no event INSERT failed, no tick emitted more than 1000 events and every refresh was stamped after the retained events, the table from that moment on is the full log from that moment on |
| Persistence.StoredAtMostOnce | crates/sher-pe-daemon/src/main.rs:108-121 | stored events come from strictly increasing positions of the full log, as long as every successful refresh is stamped after the events still in the timeline |
| Persistence.StoredExactlyLog | crates/sher-pe-daemon/src/main.rs:108-121 | under the same condition the full log is stored if and only if every event insert succeeded and no tick emitted more than 1000 events |
| Persistence.StoresLogIffOwnEvents | crates/sher-pe-daemon/src/main.rs:108-121 | with no insert failing and no tick emitting more than 1000 events, exactly the full log is stored if and only if that condition holds; otherwise more is stored than was logged |
| StoredTwice.LivedStoredOnce | crates/sher-pe-daemon/src/main.rs:108-121 | serving a process seen by one refresh and gone at the next stores exactly the log if and only if the second is stamped later, and otherwise more |
| Persistence.StoredRowsAreReadings | crates/sher-pe-daemon/src/main.rs:113-116 | from any moment no prune has reached, the stored rows of a generation are exactly its readings |
| Persistence.StoreEndsWithDeque | crates/sher-pe-history/src/lib.rs:181-204 | the generation query ends with exactly the in-memory deque of any tracked generation, as long as no prune cutoff has passed its oldest reading |
| DequeKept.PolledStoreEndsWithDeque | crates/sher-pe-daemon/src/main.rs:166-193 | no cutoff has if 121 gaps between successful refreshes fit in the retention period, for any retention option: then every such query ends with the deque |
| StatLine.ParseInvertsPrint | crates/sher-pe-telemetry/src/linux/procfs/common.rs:81-149 | a printed line parses back to its record for every command name, if and only if the three 64-bit counters fit an i64 |
| StatLine.NoCommandName | crates/sher-pe-telemetry/src/linux/procfs/common.rs:82-91 | the three delimiter errors are reported exactly for lines without '(', with it but without ')', and with every ')' before every '(' |
| StatLine.AnyCommandName | crates/sher-pe-telemetry/src/linux/procfs/common.rs:81-149 | on any other line the name is everything between the first '(' and the last ')', the field count is checked before the pid, the pid before the numbers |
| StatLine.SplitLaws | crates/sher-pe-telemetry/src/linux/procfs/common.rs:96-97 | splitting at blanks: words as they stand, any number of blanks between |
| Sockets.DecodeHexAddr | crates/sher-pe-telemetry/src/linux/procfs/net.rs:116-148 | the loops decode and swap exactly as specified, error for error |
| Sockets.DecodeInvertsKernel | crates/sher-pe-telemetry/src/linux/procfs/net.rs:106-148 | every 4- or 16-byte address and every port survives the kernel's hex encoding |
| SocketText.KernelFieldPrints | crates/sher-pe-telemetry/src/linux/procfs/net.rs:106-148 | the decoded text is the four bytes in decimal with dots, or the IPv6 notation of the sixteen, then a colon and the port in decimal: reading it back gives the bytes in order |
| SocketText.AddressDecodes | crates/sher-pe-telemetry/src/linux/procfs/net.rs:116-148 | exactly the texts of 8 or 32 digits in pairs decode; a bad pair, an odd digit and a wrong length are told apart |
| SocketText.AddressBytes | crates/sher-pe-telemetry/src/linux/procfs/net.rs:127-141 | byte k of word i comes from the pair k places from the word's end |
| SocketText.FieldDecodes | crates/sher-pe-telemetry/src/linux/procfs/net.rs:106-114 | the first colon separates, and a bad port is reported before a bad address |
| Sockets.ParseTcpUdp | crates/sher-pe-telemetry/src/linux/procfs/net.rs:52-75 | the loop over the lines, header skipped, yields every well-formed row or the first error |
| Sockets.ParseInvertsTable | crates/sher-pe-telemetry/src/linux/procfs/net.rs:52-75 | parsing a printed socket table gives back its sockets in order |
| SocketText.TablePrints | crates/sher-pe-telemetry/src/linux/procfs/net.rs:52-75 | each parsed socket has its protocol, state, inode and the printed form of its two ends |
| SocketText.RowsAppend | crates/sher-pe-telemetry/src/linux/procfs/net.rs:52-75 | a table parses part by part, in order, up to its first error |
| SocketText.LinesLaws | crates/sher-pe-telemetry/src/linux/procfs/net.rs:54 | lines end at a newline, with or without a carriage return |
| Sockets.PortSuffix | crates/sher-pe-intelligence/src/lib.rs:457-471 | "address:port" ends with ":p" exactly when the port is p, whatever the address text |
| Sockets.WhoHasPort | crates/sher-pe-intelligence/src/lib.rs:457-471 | the loops collect every match of every live pid, in map order |
| Sockets.PortOwners | crates/sher-pe-intelligence/src/lib.rs:450-471 | a connection is reported exactly when it is a TCP or UDP socket bound to the port or a Unix socket whose path ends in it |
| SocketText.MatchesInCount | crates/sher-pe-intelligence/src/lib.rs:457-471 | a match is reported for a live pid exactly as often as the connection was read |

## Left out

- Event descriptions, narratives and evidence text: presentation.
- ConnectionState names, process state names, and the detail fields no modelled rule reads.
- IPv6 notation and Unicode lower-casing: parameters, any function.
- `why_cpu`, `why_network`, `why_disk`, the remaining adapters and everything that shells out: easy or I/O.
- Reading the clock, signal sending and signal handlers: the loop takes any sequence of times and ends anywhere.
- Schema migration and rows written before it; the order of rows with equal times.
- Non-ASCII address fields; invalid UTF-8 in `/proc` files.
- KernelLog.KillBlamedRightly: nonnegative pids only, since the kernel hands out no others; `KernelLog.CrashVerdict` covers every pid.
- Wrap-around of u32 and u64 sums and rounding of `f64`.
