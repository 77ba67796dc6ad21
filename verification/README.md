# cmt: a verified model of its sessions, launcher and dashboard

`cmt` (agentic-camerata) launches a coding agent (the `claude` CLI) inside the user's
current tmux pane. It records every launch as a *session* in a SQLite database and
follows the agent's activity: the session is `working` while the agent prints and
`waiting` once it has gone quiet. A terminal dashboard lists the sessions and jumps to
their panes. It can also stop sessions, soft-delete them into a trash view and restore
them from there.

This Dafny project models the sequential logic around that plumbing and proves what
the program promises about it:

- **The session store** (`store.dfy`, `session_table.dfy`).
  - The SQL table is a `seq<Record>` in rowid order, with unique ids.
  - Every query of `internal/db/sessions.go` is a method of the class `Store.DB` that reads or reassigns `rows`.
  - `Open` expands `~/`, rewrites legacy `active` rows to `waiting`, then marks as `abandoned` every `working` row whose process is dead.
- **The agent launcher** (`prompts.go` and `claude.go`).
  - `prompts.dfy` covers the prompt prefix table.
  - `claude_command.dfy` covers the argument list given to `claude`.
    It includes a parser for that list, which proves that the list can be read back.
  - `runner.dfy` covers `Run`'s decisions: which session row is created, and whether the run leaves it `completed` or `abandoned`.
  - `activity.dfy` covers the working/waiting monitor, as a class over an integer millisecond clock.
  - `stdin_scan.dfy` covers the Ctrl+Z scan of each stdin chunk.
  - `suspend.dfy` covers the suspend/resume coordinator and the SIGCONT guard.
    Terminal modes are abstract tokens, and OS calls are recorded effects.
- **The dashboard** (`dashboard.dfy`, `session_sort.dfy`, `dashboard_layout.dfy`).
  - `Next` is the state machine of `Update`, as a function on a value `View`.
  - The class `Dashboard.Dashboard` performs each step in place and is proved to follow `Next`.
  - Go's `sortSessions` sorts a copy with `sort.Slice`; the model's `SessionSort.SortSessions` sorts a fresh array by insertion in its place.
  - The layout is integer arithmetic.
- **The CLI helpers** (`file_flags.dfy`, `sessions_command.dfy`, `age.dfy`): the `-f/-d/-t` file flags, and the `cmt sessions` listing.
- **tmux** (`tmux.dfy`): the location string, the parsing of tmux's replies, and the commands `JumpTo` issues.
  Command output is an input, and commands run are recorded.

Modelling conventions:

- **Strings** are `seq<char>`. A character stands for a Unicode code point (a Go rune), which is what `strings.TrimSpace` and `unicode.IsSpace` work on. Go's `len` and slicing count bytes instead; the two agree on ASCII text (see "Bytes and runes" below).
- **stdin chunks** are sequences of a `byte` newtype.
- **Timestamps.** The store's timestamps are integer seconds supplied by the caller. The activity monitor's clock is integer milliseconds.
- **Process liveness** is the set of running pids.
- **Inputs.** Everything the code reads from its surroundings is a parameter:
  - environment variables;
  - the home directory;
  - the current directory;
  - the fresh session id;
  - tmux's output;
  - whether a `-f` file exists;
  - the fzf picker;
  - the outcome of `makeRaw`;
  - the outcome of the agent run.

Where a comment in the code and the code itself disagree, the model follows the code:

- **Idle timeout.** The comment on `idleThreshold` (`internal/claude/claude.go:22-23`) calls it how long without output it takes to go back to `waiting`, which reads as "after one second". The test at `internal/claude/claude.go:108-111` is strict (`time.Since(lastOutput) > idleThreshold`): the monitor flips only when *more* than 1000 ms have passed since the last output, and exactly 1000 ms is not enough. The model follows the strict test. Ticks come every 100 ms, so the flip happens at the first tick where `threshold < now - lastOutput`, which is at most `threshold + tick` after the output.

## Model

| member | source | states |
|---|---|---|
| Prompts.GetPromptPrefix | internal/claude/prompts.go:31-43 | an unknown command gives ""; look-and-fix substitutes the tag into the template, and an empty tag becomes `CMT`; every other known command gives its table entry |
| Prompts.FormatStringSubstitutes | internal/claude/prompts.go:36-40 | formatting a template with one `%s` and no other `%` puts the argument exactly where `%s` was |
| Prompts.PrefixIgnoresTag | internal/claude/prompts.go:19-27 | for every command other than look-and-fix, the comment tag makes no difference |
| Prompts.EmptyPrefixExactly | internal/claude/prompts.go:19-35 | the prefix is empty iff the command is `new`, `quick` or unknown |
| ClaudeCommand.PromptText | internal/claude/claude.go:225-231 | the prompt is the task alone when the prefix is empty, else prefix, one space, task |
| ClaudeCommand.BuildCommand | internal/claude/claude.go:197-234 | the command runs the `claude` program |
| ClaudeCommand.TakeModelGroup | internal/claude/claude.go:200-203 | `--model M` is emitted iff a model is set, and reading it back gives the model |
| ClaudeCommand.TakeFlagGroup | internal/claude/claude.go:205-213 | a boolean flag is emitted iff its option is set, and reading it back gives the option |
| ClaudeCommand.TakeResumeGroup | internal/claude/claude.go:216-222 | `*` gives a bare `--resume`, another non-empty id gives `--resume id`, and an empty id gives nothing; reading back recovers which |
| ClaudeCommand.ParseBuildCommand | internal/claude/claude.go:197-234 | unless the prompt looks like a flag, or the picker is combined with a task, parsing the arguments gives back the model, both flags, the resume choice and the prompt (present iff the task is non-empty) |
| ClaudeCommand.PickerWithTaskLooksLikeResumeId | internal/claude/claude.go:216-231 | with the picker `*` and a task, the arguments are identical to resuming a session whose id is the prompt text |
| ClaudeCommand.NoTaskNoPrompt | internal/claude/claude.go:224-231 | without a task there is no positional prompt: the argument count is exactly that of the flag groups |
| Runner.ResumedId | internal/claude/claude.go:165-168 | the recorded agent session id is the resume id when it is non-empty and not `*`, else empty |
| Runner.WorkDir | internal/claude/claude.go:136-143 | the `--dir` override wins; otherwise the current directory, or the error `get working directory` |
| Runner.Prepare | internal/claude/claude.go:125-168 | outside tmux, the error is `cmt requires tmux`; a location that cannot be read or parsed gives `get tmux location`, and a missing work directory its own error; otherwise preparation succeeds, and the row is `waiting` with pid 0 at the current pane, with the work directory, the prefix, the resumed id and `<outputDir>/<id>.log` as its output file |
| Runner.Effective | internal/claude/claude.go:174-177 | an empty comment tag is taken from `CMT_COMMENT_TAG`, and nothing else changes |
| Runner.FinalStatus | internal/claude/claude.go:186-193 | a finished run leaves the row `abandoned` iff the run failed, and `completed` iff it succeeded |
| Runner.Run | internal/claude/claude.go:124-194 | no row is written when preparation or the insert fails; otherwise it launches `buildCommand` in the work directory, inserts the row, and leaves it `abandoned` if the run failed, `completed` if not |
| Runner.RunLeavesSession | internal/claude/claude.go:186-193 | after a run the session reads back as created, with the final status and time; it is `abandoned` iff the run failed; other sessions are unchanged |
| Runner.ResumedIdRecorded | internal/claude/claude.go:165-168 | the row records the resume id iff it is not the picker `*`; with the picker, nothing is recorded |
| Activity.OnOutputStep | internal/claude/claude.go:85-94 | output records its time and makes the state working; `working` is written iff the monitor was not working |
| Activity.TickStep | internal/claude/claude.go:107-112 | a tick writes `waiting` and clears working iff the monitor is working and more than 1000 ms have passed; otherwise nothing changes |
| Activity.ReplayWritesFollowState | internal/claude/claude.go:85-116 | over any sequence of events, the statuses written alternate; the first differs from the initial state and the last matches the final state |
| Activity.TicksOnly | internal/claude/claude.go:97-116 | with only ticks, the monitor stays working iff every tick is within the threshold, and writes `waiting` at most once |
| Activity.IdleByEleventhTick | internal/claude/claude.go:97-116 | eleven 100 ms ticks after the last output always bring the monitor back to waiting, with one write |
| Activity.WorkingWithinThreshold | internal/claude/claude.go:97-116 | ticks that all fall within 1000 ms of the last output change nothing and write nothing |
| Activity.ActivityMonitor.constructor | internal/claude/claude.go:74-82 | a new monitor is waiting, is not stopped, and has its last output at the start time |
| Activity.ActivityMonitor.OnOutput | internal/claude/claude.go:85-94 | the fields and the store follow `OnOutputStep` |
| Activity.ActivityMonitor.Tick | internal/claude/claude.go:103-113 | the fields and the store follow `TickStep` |
| Activity.ActivityMonitor.Stop | internal/claude/claude.go:119-121 | stopping marks the monitor stopped and leaves its state alone; a second stop is excluded (Go's `close` would panic) |
| StdinScan.PerByte | internal/claude/claude.go:391-404 | each Ctrl+Z byte means one suspend; every other byte is forwarded |
| StdinScan.ScanChunk | internal/claude/claude.go:391-408 | the writes and suspends, in order, are exactly the chunk's bytes, each Ctrl+Z replaced by a suspend; no write is empty, and no two writes are adjacent |
| StdinScan.ScanRemovesCtrlZ | internal/claude/claude.go:391-408 | the bytes written are the chunk with every 0x1a removed, and there is one suspend per 0x1a |
| StdinScan.SuspendAfterPrecedingBytes | internal/claude/claude.go:394-400 | every suspend happens at a Ctrl+Z, after all bytes preceding it (minus earlier Ctrl+Z) were written |
| StdinScan.SuspendInEffect | internal/claude/claude.go:399-400 | the effects of the actions up to a suspend are a prefix of all effects, followed by that suspend |
| StdinScan.ExpandForwarded | internal/claude/claude.go:396-408 | the bytes the actions write, and their suspends, are those their per-byte effects forward and suspend |
| StdinScan.PerByteForwarded | internal/claude/claude.go:393-404 | per byte, the forwarded bytes are the input without Ctrl+Z, and the suspends count its Ctrl+Z |
| Suspend.MakeRaw | internal/claude/terminal.go:15-21 | a successful switch saves the current mode and makes the terminal raw; a failed one changes nothing |
| Suspend.Restore | internal/claude/terminal.go:24-31 | restoring puts the saved mode back, if there is one, and forgets it |
| Suspend.ResumeEffects | internal/claude/claude.go:264-280 | `resume` first calls `makeRaw`; it continues the child's group iff its pid is positive, and resyncs the size iff there is a PTY |
| Suspend.StopEffects | internal/claude/claude.go:244-258 | `suspend` restores the terminal iff a state is saved, stops the child's group iff its pid is positive, and stops itself last |
| Suspend.SuspendKeepsConsistent | internal/claude/claude.go:244-262 | from a consistent terminal, suspend returns it to cooked with nothing saved, and the resume leaves it consistent |
| Suspend.OnSigContStep | internal/claude/claude.go:339-352 | the SIGCONT handler does nothing while a state is saved or stdin is not a terminal, and nothing when `makeRaw` fails; otherwise it saves the current mode and makes the terminal raw; either way the saved state stays consistent with the terminal's mode |
| Suspend.TeardownCooked | internal/claude/claude.go:361-363 | the deferred restore leaves a consistent terminal cooked |
| Suspend.UnguardedResumeLeavesRaw | internal/claude/claude.go:344 | without the `oldState == nil` guard, a resume while raw would save raw as the state to restore, and the final restore would leave the terminal raw; with the guard nothing happens |
| Suspend.SuspendState.constructor | internal/claude/claude.go:237-242 | the coordinator starts cooked with nothing saved and no effects |
| Suspend.SuspendState.Resume | internal/claude/claude.go:264-280 | the terminal becomes raw and the state is saved only if `makeRaw` succeeds; the effects are those of `resume` |
| Suspend.SuspendState.StopForSuspend | internal/claude/claude.go:244-258 | the terminal is restored, `oldState` is nil before the stops, and the effects are those of steps 1-3 |
| Suspend.SuspendState.DoSuspend | internal/claude/claude.go:244-262 | a whole suspend: the terminal is cooked, then raw again if `makeRaw` succeeds, and consistency is kept |
| Suspend.SuspendState.OnSigCont | internal/claude/claude.go:341-350 | the handler resumes iff nothing is saved and stdin is a terminal, and otherwise does nothing |
| Suspend.SuspendState.Teardown | internal/claude/claude.go:361-363 | the deferred restore leaves the terminal cooked and restores the saved state, if any |
| Suspend.EnterRawMode | internal/claude/claude.go:354-364 | on a terminal, raw mode is entered and the cooked state saved, or `set raw mode` fails; on a non-terminal nothing happens |
| SessionTable.Scan | internal/db/sessions.go:205-233 | a scanned row keeps its id, status and deletion time, and a NULL pid reads as 0 |
| SessionTable.ScanNewRecord | internal/db/sessions.go:53-68 | an inserted session reads back with the same fields, with created/updated at the insert time and not deleted |
| SessionTable.FindIndex | internal/db/sessions.go:71-80 | the first row with the id, or none iff no row has it |
| SessionTable.FindAt | internal/db/sessions.go:71-80 | with unique ids, looking up a row's id finds that row |
| SessionTable.Apply | internal/db/sessions.go:136-192 | every update keeps the id and creation time, stamps `updated_at`, and only deletion changes touch `deleted_at` |
| SessionTable.Update | internal/db/sessions.go:165-172 | `UPDATE ... WHERE id = ?` changes only rows with that id, never an id, and keeps the row count |
| SessionTable.UpdateUnique | internal/db/sessions.go:136-192 | updates keep ids unique |
| SessionTable.UpdateOthers | internal/db/sessions.go:136-192 | an update leaves every other session as it was |
| SessionTable.UpdateFound | internal/db/sessions.go:136-192 | an update of a missing id changes nothing; otherwise the session reads back as the changed row |
| SessionTable.UpdateStatusChangesOnlyStatus | internal/db/sessions.go:165-172 | `UpdateSessionStatus` changes the status and `updated_at`, nothing else |
| SessionTable.UpdatePidChangesOnlyPid | internal/db/sessions.go:175-182 | `UpdateSessionPID` changes the pid and `updated_at`, nothing else |
| SessionTable.UpdateClaudeIdChangesOnlyClaudeId | internal/db/sessions.go:185-192 | `UpdateClaudeSessionID` changes that id and `updated_at`, nothing else |
| SessionTable.UpdateSessionOverwrites | internal/db/sessions.go:136-162 | `UpdateSession` overwrites every column except id, creation time and deletion time |
| SessionTable.SoftDeleteThenRestore | internal/db/sessions.go:291-308 | soft delete sets `deleted` and the deletion time; a restore then sets `restored` and clears it, and all else is as before |
| SessionTable.RemoveId | internal/db/sessions.go:195-202 | a hard delete keeps exactly the rows with other ids |
| SessionTable.RemoveIdAppend | internal/db/sessions.go:195-202 | a delete keeps the order of the remaining rows: it acts on a concatenation part by part |
| SessionTable.RemoveIdGone | internal/db/sessions.go:195-202 | after a delete the session is not found |
| SessionTable.RemoveIdOthers | internal/db/sessions.go:195-202 | a delete leaves every other session as it was |
| SessionTable.RemoveIdUnique | internal/db/sessions.go:195-202 | a delete keeps ids unique |
| SessionTable.Prune | internal/db/sessions.go:311-318 | pruning keeps exactly the rows that are not deleted more than 7 days ago |
| SessionTable.PruneAppend | internal/db/sessions.go:311-318 | pruning keeps the order of the remaining rows: it acts on a concatenation part by part |
| SessionTable.PruneRemovesCount | internal/db/sessions.go:311-318 | the count returned is the number of rows removed |
| SessionTable.PruneIdempotent | internal/db/sessions.go:311-318 | a second prune at the same time removes nothing |
| SessionTable.PruneKeepsUndeleted | internal/db/sessions.go:311-318 | a row not in the trash is never pruned |
| SessionTable.ListedBeforeOrder | internal/db/sessions.go:105 | `ORDER BY column DESC, rowid DESC` is a strict total order on rows |
| SessionTable.InsertSorted | internal/db/sessions.go:105 | placing a row into an ordered listing keeps it ordered |
| SessionTable.OrderSorted | internal/db/sessions.go:96-133 | a listing is in the query's order |
| SessionTable.OrderContents | internal/db/sessions.go:96-133 | a listing holds exactly the rows that match the filter |
| SessionTable.OrderDistinct | internal/db/sessions.go:96-133 | a listing holds each row at most once |
| SessionTable.Listed | internal/db/sessions.go:123-130 | a listing reads each row in order |
| Store.ExpandTilde | internal/db/db.go:26-33 | a path without `~/` is kept; with it, the path fails iff there is no home, and is otherwise `filepath.Join(home, rest)`: home + `/` + rest when both are non-empty, the home alone for `~/`, the rest alone for an empty home |
| Store.ExpandTildeIdempotent | internal/db/db.go:26-33 | expanding an expanded path changes nothing |
| Store.IsProcessRunning | internal/db/db.go:121-132 | a pid of 0 or below never counts as running; a positive pid counts iff its process is alive |
| Store.MigrateLegacy | internal/db/db.go:58-62 | the migration keeps the row count |
| Store.MigrateLegacyCorrect | internal/db/db.go:58-62 | every `active` row becomes `waiting`, no `active` remains, and every other row is unchanged |
| Store.MigrateLegacyIdempotent | internal/db/db.go:58-62 | migrating twice is migrating once |
| Store.Recover | internal/db/db.go:91-115 | recovery keeps the row count |
| Store.RecoverCorrect | internal/db/db.go:91-115 | afterwards no row is stuck; stuck rows (`working`, with a pid that is not running) are `abandoned` at the open time; all others are unchanged |
| Store.RecoverIdempotent | internal/db/db.go:91-115 | with the same running processes, a second recovery changes nothing |
| Store.ZeroPidIsRecovered | internal/db/db.go:121-124 | a `working` row with the default pid 0 is abandoned on open |
| Store.StuckIds | internal/db/db.go:92-110 | the collected ids are exactly the ids of the stuck rows |
| Store.DB.Path | internal/db/db.go:140-142 | the path the database was opened at, fixed for its lifetime (`Store.Open` states it is the expanded path) |
| Store.Open | internal/db/db.go:25-118 | open fails iff tilde expansion does; otherwise `Path()` returns the expanded path and the rows are the stored rows migrated, then recovered |
| Store.RecoverStep | internal/db/db.go:112-115 | each update of the second loop abandons the rows of one more stuck id, and no other row |
| Store.ListedMember | internal/db/sessions.go:96-133 | a row is in the listing iff it matches the filter |
| Store.PruneUnique | internal/db/sessions.go:311-318 | pruning keeps ids unique |
| Store.DB.constructor | internal/db/db.go:117 | the database holds its path and rows |
| Store.DB.CreateSession | internal/db/sessions.go:53-68 | a new id is appended as a new row; a duplicate id fails and changes nothing |
| Store.DB.GetSession | internal/db/sessions.go:71-80 | none iff no row has the id (nil, no error); otherwise that row, read |
| Store.DB.GetLastSession | internal/db/sessions.go:83-92 | none iff the table is empty; otherwise the row listed first by creation time, then rowid, both descending |
| Store.DB.ListSessions | internal/db/sessions.go:96-133 | exactly the rows with the status, or every row not deleted for the empty status, newest first, ties by rowid |
| Store.DB.ListDeletedSessions | internal/db/sessions.go:264-288 | exactly the deleted rows, most recently deleted first |
| Store.DB.Collect | internal/db/sessions.go:123-130 | the scan loop reads the rows of the listing in order |
| Store.DB.ListedCorrect | internal/db/sessions.go:96-133 | any filtered listing holds exactly the matching rows, ordered by the key descending |
| Store.DB.UpdateSession | internal/db/sessions.go:136-162 | the table afterwards is the full overwrite of that id's row |
| Store.DB.UpdateSessionStatus | internal/db/sessions.go:165-172 | the table afterwards is the status update of that id |
| Store.DB.UpdateSessionPid | internal/db/sessions.go:175-182 | the table afterwards is the pid update of that id |
| Store.DB.UpdateClaudeSessionId | internal/db/sessions.go:185-192 | the table afterwards is the agent-session-id update of that id |
| Store.DB.SoftDeleteSession | internal/db/sessions.go:291-298 | the table afterwards marks that id deleted now |
| Store.DB.RestoreSession | internal/db/sessions.go:301-308 | the table afterwards marks that id restored and clears its deletion time |
| Store.DB.DeleteSession | internal/db/sessions.go:195-202 | the table afterwards lacks every row with that id |
| Store.DB.PruneDeletedSessions | internal/db/sessions.go:311-318 | the table afterwards is pruned, and the count is the number of rows removed |
| SessionSort.NotAfterTransitive | internal/tui/dashboard.go:720-731 | the comparator's "not after" is transitive, which sorting relies on |
| SessionSort.Less | internal/tui/dashboard.go:720-731 | a running session sorts before one that is not, never after; between two running or two stopped sessions, the one created later sorts first |
| SessionSort.LessStrict | internal/tui/dashboard.go:720-731 | the comparator is irreflexive and asymmetric |
| SessionSort.SortSessions | internal/tui/dashboard.go:712-734 | a permutation of a copy of the input, with running sessions first and each group newest first |
| SessionSort.SwapDown | internal/tui/dashboard.go:712-734 | swapping an element past one it should precede keeps the rest ordered |
| SessionSort.GapClosed | internal/tui/dashboard.go:712-734 | once the element is not before its predecessor, the prefix is ordered |
| SessionSort.InsertAt | internal/tui/dashboard.go:712-734 | inserting one element keeps the array's contents and orders one more element |
| DashboardLayout.GetVisibleColumns | internal/tui/dashboard.go:338-375 | id is always shown; each other column is shown iff it fits after those before it; the fixed columns fit the width less 6 unless only id is shown; a shown prompt is at least 10 and fills the row exactly |
| DashboardLayout.GreedyUnique | internal/tui/dashboard.go:338-375 | the width alone determines the columns |
| DashboardLayout.WiderCanHideWorkflow | internal/tui/dashboard.go:343-360 | a wider terminal can show fewer columns: at width 27 the workflow shows, and at 28 it does not |
| DashboardLayout.ContentHeight | internal/tui/dashboard.go:662-683 | without info, height less 5; with info, height less 8 less 18 when that is at least 5, and exactly 5 otherwise |
| DashboardLayout.InfoHeight | internal/tui/dashboard.go:685-693 | what the list and the chrome leave when that is at least 3, and 3 otherwise |
| DashboardLayout.PanelsFillHeight | internal/tui/dashboard.go:662-693 | a tall terminal is shared exactly between chrome, list and an 18-line info panel |
| DashboardLayout.FormatAge | internal/tui/dashboard.go:696-709 | `now` under a minute, otherwise whole minutes, hours or days in decimal with `m`, `h` or `d` |
| DashboardLayout.FormatAgeExamples | internal/tui/dashboard.go:696-709 | 30 s, 5 min, 2 h and 48 h read `now`, `5m`, `2h`, `2d` |
| Age.BucketOf | internal/cli/sessions.go:57-70 | the bucket is chosen by which of 1 min, 1 h and 1 day the age has reached, and the count is the truncated number of units |
| Age.BucketMonotone | internal/cli/sessions.go:57-70 | an older age never falls into a smaller bucket or a smaller count |
| Dashboard.Next | internal/tui/dashboard.go:116-250 | every message keeps the selection in range and the focus on a shown panel; only keys write, and every write is followed by a reload |
| Dashboard.KeyStep | internal/tui/dashboard.go:120-220 | every key keeps the dashboard well formed and never changes the loading flag, the size or the error; a key that writes also reloads |
| Dashboard.SelectionGuardRedundant | internal/tui/dashboard.go:150-219 | on a well-formed dashboard, the bounds test in the action guards adds nothing to "the list has focus and is not empty" |
| Dashboard.MoveSelection | internal/tui/dashboard.go:130-148 | `j`/`down` and `k`/`up` move one step within the list, stop at its ends, and do nothing while the info panel has focus |
| Dashboard.TabTwice | internal/tui/dashboard.go:125-128 | tab does nothing without the info panel; with it, tab changes the focus, and two tabs restore it |
| Dashboard.HideInfoFocusesList | internal/tui/dashboard.go:167-175 | hiding the info panel gives the list the focus and keeps the selection |
| Dashboard.ToggleTrashTwice | internal/tui/dashboard.go:203-211 | `T` switches the view, resets the selection to 0 and reloads; twice is the start with the selection at 0 |
| Dashboard.LoadClampsSelection | internal/tui/dashboard.go:232-241 | a load installs the sorted list, clears loading, sets the error, and pulls the selection back onto a shorter non-empty list |
| Dashboard.ActionsTargetSelection | internal/tui/dashboard.go:150-219 | every write or effect a key causes needs a selection; stop and delete act in the normal view on the selected session, and restore in the trash view |
| Dashboard.KillsOnlyRunning | internal/tui/dashboard.go:177-201 | a kill is sent only to the positive pid of a selected running session; `s` on a session that is not running does nothing |
| Dashboard.StopMarksKilled | internal/tui/dashboard.go:177-189 | `s` on a running session marks exactly that row `killed` |
| Dashboard.Dashboard.constructor | internal/tui/dashboard.go:51-58 | a new dashboard is loading, in the normal view, with the list focused and no sessions |
| Dashboard.Dashboard.Load | internal/tui/dashboard.go:96-106 | the trash view loads the deleted sessions; the normal view loads every session not deleted |
| Dashboard.Dashboard.Perform | internal/tui/dashboard.go:177-219 | the store receives exactly the write of the step |
| Dashboard.Dashboard.Take | internal/tui/dashboard.go:116-250 | the fields, effects and store become those of the step |
| Dashboard.Dashboard.Update | internal/tui/dashboard.go:116-250 | the dashboard stays well formed and follows `Next`; a load stores a permutation of the payload, running first and newest first |
| FileFlags.PickerDirs | internal/cli/fileflags.go:31-47 | the picker runs over the `-d` directories in order, then `thoughts/shared` once per `-t` |
| FileFlags.FirstMissing | internal/cli/fileflags.go:24-29 | the first `-f` path that does not exist, or none iff all exist |
| FileFlags.FirstPickFailure | internal/cli/fileflags.go:31-47 | the first picker call that fails, or none iff all succeed |
| FileFlags.Picks | internal/cli/fileflags.go:31-47 | one picker result per directory, in order |
| FileFlags.ResolvedOrder | internal/cli/fileflags.go:20-50 | on success, the `-f` paths, then one pick per `-d`, then one per `-t`, in order |
| FileFlags.NoFlagsResolveEmpty | internal/cli/fileflags.go:20-50 | no flags resolve to the empty list |
| FileFlags.MissingFileFails | internal/cli/fileflags.go:24-29 | a missing `-f` path makes resolution fail with `file not found: ` and the first missing path at or before it |
| FileFlags.ResolveFiles | internal/cli/fileflags.go:20-50 | the loops compute exactly the resolution, including the early error returns |
| FileFlags.PrependFilesToTask | internal/cli/fileflags.go:53-60 | no files leaves the task as is; otherwise the files, joined by spaces, then a space and the task (a trailing space for an empty task) |
| FileFlags.JoinAppend | internal/cli/fileflags.go:58-59 | joining with one more part adds the separator and that part |
| FileFlags.PrependedFilesSplit | internal/cli/fileflags.go:53-60 | when no file path contains a space, splitting the result on spaces gives back the files followed by the task's words |
| SessionsCommand.ShortenPath | internal/cli/sessions.go:73-83 | a path that fits is kept; a longer one becomes `...` plus its last `maxLen - 3` characters, exactly `maxLen` long; never longer than `maxLen` |
| SessionsCommand.FormatAge | internal/cli/sessions.go:57-70 | `just now` under a minute; otherwise whole minutes, hours or days in decimal with `m ago`, `h ago` or `d ago` |
| SessionsCommand.FormatAgeExamples | internal/cli/sessions.go:57-70 | 30 s, 5 min, 2 h and 2 days read `just now`, `5m ago`, `2h ago`, `2d ago` |
| SessionsCommand.ApplyLimit | internal/cli/sessions.go:35-38 | a positive limit below the count keeps that many from the front; otherwise all are kept |
| SessionsCommand.RowOf | internal/cli/sessions.go:44-51 | a row shows the id, status and workflow, the working directory as `shortenPath` gives it for 30 characters, the tmux location, and the age of the session as `formatAge` prints it |
| SessionsCommand.Run | internal/cli/sessions.go:19-54 | `No sessions found.` iff the listing is empty; otherwise one row per listed session, up to the limit, in listing order |
| Text.CountAppend | internal/tmux/tmux.go:53 | counting a separator is additive over concatenation |
| Text.Split | internal/tmux/tmux.go:53 | `strings.Split` gives one more part than separators, and no part holds the separator |
| Text.JoinSplit | internal/tmux/tmux.go:53 | joining the parts of a split with the separator gives back the string |
| Text.SplitJoin | internal/tmux/tmux.go:115 | splitting a join of separator-free parts gives back the parts |
| Text.SplitPrefix | internal/tmux/tmux.go:53 | a separator-free prefix joins the first part of the split |
| Text.TrimLeft | internal/tmux/tmux.go:53 | drops exactly the leading white space |
| Text.TrimRight | internal/tmux/tmux.go:53 | drops exactly the trailing white space |
| Text.TrimSpace | internal/tmux/tmux.go:53 | `strings.TrimSpace` gives the slice of the input left after dropping a prefix and a suffix made only of white space, and the slice neither starts nor ends with white space |
| Text.TrimSpaceTrimmed | internal/tmux/tmux.go:53 | trimming a string without white space at its ends keeps it |
| Text.TrimSpaceTrailing | internal/tmux/tmux.go:53 | trailing white space, such as the newline tmux prints, is removed |
| Text.NatToDecimal | internal/tmux/tmux.go:25 | decimal digits without a leading zero |
| Text.NatToDecimalValue | internal/tmux/tmux.go:25 | the decimal digits denote the number |
| Text.DigitChar | internal/tmux/tmux.go:25 | the digit character for each value below 10 |
| Text.Atoi | internal/tmux/tmux.go:58-66 | `strconv.Atoi` succeeds iff the text is an optional sign and at least one decimal digit whose signed value fits 64 bits, and then gives that value |
| Text.AtoiIntToDecimal | internal/tmux/tmux.go:58-66 | `Atoi` reads back any 64-bit integer printed in decimal |
| Text.IntToDecimalChars | internal/tmux/tmux.go:25 | a printed integer has no `:` or `.` and no white space at its ends |
| Text.IntToDecimalInjective | internal/tmux/tmux.go:25 | different integers print differently |
| Tmux.LocationString | internal/tmux/tmux.go:24-26 | the target string is the session name, a colon, then a colon-free part holding the dot between window and pane |
| Tmux.LocationStringInjective | internal/tmux/tmux.go:24-26 | for sessions without `:`, different locations have different strings |
| Tmux.LocationStringSplits | internal/tmux/tmux.go:24-26 | the string is `session:window.pane`, which splits back into its parts |
| Tmux.RequireTmux | internal/tmux/tmux.go:28-39 | fails with `ErrNotInTmux` iff `TMUX` is empty |
| Tmux.ParseLocation | internal/tmux/tmux.go:53-72 | the reply is rejected unless the trimmed text splits into exactly three parts; a window or pane index `Atoi` refuses is reported as such, window first; when both parse, the location is the first part with the two values |
| Tmux.ParseReply | internal/tmux/tmux.go:53-72 | the reply tmux prints for a location without `:` parses back to that location |
| Tmux.ReplySplits | internal/tmux/tmux.go:53 | the trimmed reply splits into session, window and pane |
| Tmux.ReplyTrimmed | internal/tmux/tmux.go:53 | trimming removes exactly the newline of the reply |
| Tmux.ColonInSessionRejected | internal/tmux/tmux.go:53-56 | a session name with a `:` makes the reply fail to parse |
| Tmux.CurrentLocation | internal/tmux/tmux.go:42-73 | outside tmux, `ErrNotInTmux` with no command run; otherwise one `display-message`, whose failure is reported, and whose reply is read by `ParseLocation` |
| Tmux.CurrentLocationFindsPane | internal/tmux/tmux.go:42-73 | inside tmux, tmux's reply for a pane gives back that pane |
| Tmux.JumpSteps | internal/tmux/tmux.go:81-103 | `switch-client` only when the trimmed current session differs, then `select-window`, then `select-pane` |
| Tmux.RunSteps | internal/tmux/tmux.go:88-103 | the commands run are a prefix of the steps; the run succeeds iff every step succeeds, and then all ran; a failure stops at the failing command |
| Tmux.JumpTo | internal/tmux/tmux.go:76-106 | outside tmux, `ErrNotInTmux` with no command run; success iff every step ran and succeeded, ending at the target pane |
| Tmux.JumpToRun | internal/tmux/tmux.go:76-106 | success of the steps is success of the whole jump |
| Tmux.JumpWithinSessionDoesNotSwitch | internal/tmux/tmux.go:87-91 | a jump within the current session never runs `switch-client` |
| Tmux.NotRunIfNotStep | internal/tmux/tmux.go:88-103 | only steps are ever run |
| Tmux.NonEmptyLines | internal/tmux/tmux.go:116-121 | keeps exactly the non-empty lines, and never more lines than it was given |
| Tmux.NonEmptyLinesAppend | internal/tmux/tmux.go:116-121 | the filter keeps the order: the lines of a concatenation are the lines of each part, one after the other |
| Tmux.ListSessions | internal/tmux/tmux.go:109-123 | a failed command reports `list tmux sessions`; otherwise the non-empty lines of the trimmed output |
| Tmux.SessionNamesAreLines | internal/tmux/tmux.go:115-121 | every name listed is non-empty and a single line |
| Tmux.NonEmptyLinesKeepsAll | internal/tmux/tmux.go:116-121 | lines that are all non-empty are kept as they are |
| Tmux.JoinEndsWithLast | internal/tmux/tmux.go:115 | a join ends with the last character of its last part |
| Tmux.ListSessionsReadsNames | internal/tmux/tmux.go:109-123 | listing what tmux prints for a list of names (one per line) gives back the names |
| Tmux.JoinTrimmed | internal/tmux/tmux.go:115 | trimming the listing removes exactly its final newline |

## Left out

- **PTY, signals, goroutines.** The pseudo-terminal, the copy goroutines, `cmd.Wait`, signal delivery, SIGWINCH resizing, the mutex and the ticker goroutine are concurrency and OS effects. Signals and raw-mode calls appear only as recorded effects; the outcome of the run is an input.
- **Writes during a run.** `runWithPTY`'s `UpdateSessionPID` of the child, and the monitor's status writes during the run, are not part of `Runner.Run`. The monitor's writes are modelled separately in `Activity`.
- **Terminal modes.** `makeRaw`, `restoreTerminal` and `isTerminal` (`internal/claude/terminal.go`) are abstract: a mode token, and success flags passed in.
- **SQLite.**
  - The engine, the schema file, WAL, `ALTER TABLE` and index creation, `MkdirAll` and `Close` are not modelled.
  - Query and scan errors are not modelled: the in-memory table never fails, except for a duplicate id in `CreateSession`.
  - `CURRENT_TIMESTAMP` and `datetime('now', '-7 days')` are caller-supplied integer seconds.
- **Paths.** `filepath.Join`'s `Clean` normalisation is not modelled: a path is joined as `a + "/" + b`.
- **Inputs.** `os.UserHomeDir`, `os.Getenv`, `os.Getwd`, uuid generation and the clock are parameters.
- **Float ages.** `Duration.Minutes()` and `Hours()` are floats in Go; ages are integer seconds here, truncated as `int(...)` truncates.
- **Bytes and runes.** Characters stand for runes throughout. `shortenPath` measures and slices bytes, so on a path with multi-byte characters Go keeps fewer characters than the model and can cut a character in two; the model's `SessionsCommand.ShortenPath` is exact only for ASCII paths.
- **Dashboard rendering.**
  - `View`, the render functions, styling, `listWidth`/`infoWidth` and `updateInfoContent` are not modelled.
  - The viewport, and its scrolling by `j`/`k` while the info panel has the focus, are not modelled: the model leaves the state unchanged there.
  - `JumpTarget`, which `Update` never sets, is not modelled.
  - `Init`'s command batch (prune, load, tick) is not modelled. Its prune appears only as the store operation and the `PruneCompleted` message.
  - The database errors the dashboard ignores are not modelled.
- **Plans.** `plans.SelectMarkdownFile` (`internal/plans/plans.go`) is the picker input to `ResolveFiles`. The file system walk and the fzf subprocess are not part of this model.
- **GetPaneWorkingDirectory.** It only runs a tmux command.
- **Command wiring.** The kong command files and `cmd/cmt/main.go` only forward options.
- DashboardLayout.GetVisibleColumns: the fixed columns fit the width only when more than the id column fits. When even the id does not fit, Go shows it anyway, and so does the model.
- SessionSort.SortSessions: `sort.Slice` is not stable. The model does not fix the order of sessions that compare equal; it states only what the comparator determines.
- Dashboard.LoadClampsSelection: on an empty list the selection is left at its old value, as in Go. It is then out of range, but unused, because every action needs a non-empty list.
