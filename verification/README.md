# Verified models of HouYiCoder

HouYiCoder is a coding agent written in Rust, with measurement and gate scripts in Python. This
project models the parts of it whose correctness is not visible from one function, and proves what
they promise. `dafny verify dfyconfig.toml` checks everything.

- **Null-redirect rewriting** (`ShellScan`, `ShellGrammar`, `ShellMeaning`, `ShellRewrite`,
  `Shell`). The scan of a command line is a pushdown machine over bytes. `ShellScan` is the machine,
  `Shell.Scan` the object that runs it and splices the output, `ShellGrammar` a grammar of nested
  spans that says what each context covers. Proved: every text has a tree and exactly its
  command-level targets are replaced, rewriting is a fixed point of itself on every byte string, the
  scan terminates, never pops its bottom frame and slices only on character boundaries.
- **UTF-8** (`Utf8`). Section 4 of RFC 3629 as a grammar, the reader the standard library uses, and
  replacement of maximal subparts as in section 3.9 of the Unicode Standard.
- **Command tail** (`CommandTail`). The incremental decoder, line splitter and bounded window, and
  its agreement with decoding the whole stream at once and splitting it with no window.
- **Session leases** (`Leases`, `LeaseOverlap`, `LeaseScope`). Admission, builds, installs, release
  tasks, writers, children, other processes and exit as interleaved steps; what those steps can
  reach; and the scope object the main thread drives, each of whose executions is a run of that
  machine.
- **Settings** (`SettingsMerge`, `SettingsStore`, `SettingsSerial`, `SettingsEdits`,
  `SettingsSolo`, `SettingsUpdate`). Layered merge by paths; locked and token-guarded writes as
  steps of any number of callers and an editor who takes no lock, without edits and with them; the
  retry loop itself, each of whose executions is a run of that machine.
- **Export slug** (`Calendar`, `ExportSlug`). Civil-from-days against counting days one at a time
  in the proleptic Gregorian calendar (section 3.2.1 of ISO 8601:2004).
- **Session-log measurement** (`SessionLog`, `Resends`, `TurnDispatch`). Turn grouping, answers
  attached to calls, and the counts, among them a greedy pairing that is proved maximum.
- **JSON-RPC client** (`McpClient`), **module reachability** (`ModuleReach`) and the
  **response-to-stream adapter** (`ResponseStream`).

Five promises of the source are false in a corner, and the model says exactly where:

- The settings writer's comments say that the token detects a change since the read and the verify
  one after the rename (crates/houyicoder-config/src/settings_store.rs:154-157). Three windows lie
  outside both. An edit between the value read and the token read, or between the re-check and the
  rename, is overwritten while the caller returns Ok (`EditBetweenReadsIsLost`,
  `EditBeforeRenameIsLost`); so is one between the token read and the re-check if neither can read
  the file, since both then count as empty (`EditUnreadIsLost`). If distinct texts have distinct
  tokens these are all: in every run the text changed before a rename if and only if it changed in
  one of the three (`LostOnlyInWindows`).
- A corrupt JSON file is said never to be overwritten
  (crates/houyicoder-config/src/settings_store.rs:76-77). An iteration whose own read is not JSON
  never writes (`WritesOnlyItsMutation`), but text made corrupt in one of those windows is
  overwritten (`CorruptTextIsOverwritten`). Otherwise only an empty file is, that was missing when
  the value was read (`EmptyFileIsLost`, `CorruptLostOnlyInWindows`).
- Callers are serialised by a lock, so that each successful one applies its mutator and one that
  runs out of retries had no clean rename (crates/houyicoder-config/src/settings_store.rs:53-55,
  87-92). A verify read that fails counts as a lost race: the mutator is then applied again
  (`AppliedTwice`), or an error returned while the rename stands (`RenamedUnverified`). Without an
  unlocked edit, each success counts once and nothing else does if and only if no verify read
  failed (`CallersSerialize`).
- No one is to take a session while a writer of it is still flushing
  (crates/houyicoder-cli/src/local_host.rs:20-24). A host that never got its lock is the exception:
  at any point of any run another process can take its session beside it if and only if it was
  never locked (`TakenExactly`), and this process can if, besides, exit has not begun
  (`OverlapExactly`).
- The JSON-RPC client holds the pipe from a request to its answer so that no call reads another's
  (crates/houyicoder-api/src/mcp.rs:256-260). After a read that fails, the answer stays on the pipe
  and every later call that reads one gets a protocol error: a call gets its own answer if and only
  if no read failed before it (`AnswersExactly`, `LeftoverAnswer`).

The layering of settings rests on an empty object being a no-op base
(crates/houyicoder-config/src/settings_merge.rs:25-28), which it is. Laid over a value, as a missing
layer is, it changes nothing exactly when that value is an object (`EmptyLayer`).

A property that holds more widely than needed: the greedy pairing is maximum for checks taken in
any order, as long as the calls are listed in turn order.

## Model

| member | source | states |
|---|---|---|
| ShellMeaning.TargetsAreLeaves | crates/houyicoder-api/src/shell.rs:143-167 | The targets replaced in a text are exactly the command-level targets of its tree in a grammar of nested spans (quotes, escapes, comments, substitutions, backticks, conditionals, arithmetic, heredocs), in order; the grammar names no step of the scan. |
| ShellMeaning.EveryTextHasTree | crates/houyicoder-api/src/shell.rs:143-167 | Every byte string has such a tree, unclosed spans included. |
| ShellMeaning.NodesLand | crates/houyicoder-api/src/shell.rs:157-167 | From any configuration over any text, along any tree the scan proves exactly the tree's targets and returns to the same stack, with the heredocs the tree leaves queued. |
| ShellMeaning.SingleScans | crates/houyicoder-api/src/shell.rs:169-176 | Nothing between single quotes is read, and an unclosed one hides the rest. |
| ShellMeaning.EscapeScans | crates/houyicoder-api/src/shell.rs:282-289 | A backslash takes the next byte with it, outside arithmetic. |
| ShellMeaning.CommentScans | crates/houyicoder-api/src/shell.rs:331 | A comment at the start of a word is passed over up to its newline. |
| ShellMeaning.RedirectScans | crates/houyicoder-api/src/shell.rs:467-522 | A redirect proves a range if and only if it is the device name, bare or quoted, followed by the end of a word; otherwise the scan goes on at its word, or stops when the word's quote never closes. |
| ShellMeaning.OpenerScans | crates/houyicoder-api/src/shell.rs:405-445 | A heredoc operator queues the delimiter word, bare or quoted, with its tabs flag. |
| ShellMeaning.BodiesScan | crates/houyicoder-api/src/shell.rs:255-278 | After a newline the bodies of all queued heredocs are passed over, each up to its first delimiter line. |
| ShellMeaning.ClosesIsLast | crates/houyicoder-api/src/shell.rs:263-276 | A body line is a delimiter line if and only if it is the delimiter after stripped tabs and before an optional carriage return. |
| ShellMeaning.OpenScans | crates/houyicoder-api/src/shell.rs:180-330 | Each opening text enters its context, on top of the same stack. |
| ShellMeaning.CloseScans | crates/houyicoder-api/src/shell.rs:180-326 | Each closing text returns to the enclosing stack. |
| ShellGrammar.DeviceNames | crates/houyicoder-api/src/shell.rs:69-72 | The device is "nul" in any ASCII case and what replaces it is "/dev/null". |
| ShellGrammar.Characters | crates/houyicoder-api/src/shell.rs:447-455 | Blanks, quotes and the bytes that end a word, by their characters. |
| ShellGrammar.WordStarts | crates/houyicoder-api/src/shell.rs:383-391 | A word starts at the beginning or after one of the listed characters. |
| ShellRewrite.RewrittenIsSettled | crates/houyicoder-api/src/shell.rs:143-155 | Rewriting is a fixed point on every byte string: a scan of the rewritten command proves no target, so a second rewrite changes nothing; and it passes through the contexts the first scan passed, in order, until the end or a redirect before a quote it finds unclosed. |
| ShellRewrite.Settled | crates/houyicoder-api/src/shell.rs:143-167 | The simulation behind it, from any configuration: a text whose coming targets were replaced yields no target, and every configuration of the first scan has one in the second with the same stack and heredoc queue, until the first ends or stands on a redirect before a quote the second finds unclosed. |
| ShellRewrite.RedirectAgrees | crates/houyicoder-api/src/shell.rs:467-522 | A redirect whose target was not the device stays unproven after later replacements; at most the removed quotes leave its own quote unclosed and end the scan. |
| ShellRewrite.PlainAgrees | crates/houyicoder-api/src/shell.rs:280-340 | Every other command-context step reads the text and its rewriting alike, across every lookahead it makes. |
| ShellRewrite.ReadHeredocAgrees | crates/houyicoder-api/src/shell.rs:405-445 | A heredoc operator opens the same heredoc, at the corresponding offset, in the text and in its rewriting. |
| ShellRewrite.PassNullDevice | crates/houyicoder-api/src/shell.rs:351-364 | A scan that lands on an inserted /dev/null passes over it, proving nothing and keeping its stack and queue. |
| ShellRewrite.HitExactly | crates/houyicoder-api/src/shell.rs:351-364 | A step proves a range if and only if it stands on a redirect operator in command, substitution or backtick text and the range is the device name, bare or quoted, that is the whole next word. |
| ShellRewrite.ReplacedExactly | crates/houyicoder-api/src/shell.rs:143-167 | A range is replaced if and only if some configuration the scan passes through proves it. |
| ShellRewrite.TargetsOrdered | crates/houyicoder-api/src/shell.rs:351-364 | The replaced ranges are increasing and disjoint, spell the device name, and each follows an operator or a blank. |
| ShellRewrite.SpliceLength | crates/houyicoder-api/src/shell.rs:356-363 | The output is longer by six for each bare target and four for each quoted one. |
| ShellRewrite.RewrittenDiffers | crates/houyicoder-api/src/shell.rs:57-60 | The text changes if and only if some target was proven. |
| ShellRewrite.AlignedStep | crates/houyicoder-api/src/shell.rs:255-278 | A heredoc body is only ever read from a character boundary, even after a backslash skipped into a multibyte character. |
| ShellRewrite.RewrittenValid | crates/houyicoder-api/src/shell.rs:351-364 | The rewriting of valid UTF-8 is valid UTF-8. |
| ShellScan.Step | crates/houyicoder-api/src/shell.rs:157-167 | Each step moves forward or shrinks the stack, stays inside the text, and keeps the bottom command frame. |
| Shell.Scan.Run | crates/houyicoder-api/src/shell.rs:143-155 | The walk ends, slices only on character boundaries, returns None exactly when no target was proven, and otherwise the text with the null device over exactly the command-level targets of its tree. |
| Shell.Scan.StepOnce | crates/houyicoder-api/src/shell.rs:157-167 | One step of the object is one step of the machine, and its output gains exactly the text up to a proven target and the null device. |
| Shell.Scan.StepBody | crates/houyicoder-api/src/shell.rs:255-278 | A body step drops the front heredoc exactly at its delimiter line. |
| Shell.Scan.StepPlain | crates/houyicoder-api/src/shell.rs:280-340 | The command handler changes stack, queue and offset as the machine does. |
| Shell.Scan.ReadHeredoc | crates/houyicoder-api/src/shell.rs:405-445 | The heredoc reader queues what the machine reads and slices the delimiter on character boundaries. |
| Shell.Scan.Redirect | crates/houyicoder-api/src/shell.rs:351-364 | A redirect flushes the text before a proven target, writes the null device and continues after it; otherwise the output is untouched. |
| Shell.ReadRedirect | crates/houyicoder-api/src/shell.rs:467-499 | The reader's blank-skipping loop finds the machine's target. |
| Shell.ForShell | crates/houyicoder-api/src/shell.rs:43-60 | Only Git Bash translates; its host text is the command with the null device over exactly the command-level targets of its tree, and differs if and only if there is one. |
| Utf8.ReadHeadIsGrammar | crates/houyicoder-api/src/background.rs:72-84 | A character is read exactly when the RFC grammar has one there, and "incomplete" is reported exactly for a proper prefix of a well-formed sequence. |
| Utf8.BadIsMaximalSubpart | crates/houyicoder-api/src/background.rs:85-92 | error_len is the length of the maximal subpart: one byte, or a truncated sequence the next byte cannot continue. |
| Utf8.BadIsReplaced | crates/houyicoder-api/src/background.rs:85-92 | Bytes that cannot become a character are one U+FFFD, whatever follows. |
| Utf8.DecodeResumes | crates/houyicoder-api/src/background.rs:67-99 | Decoding a stream equals decoding any prefix, then decoding what it held back with the rest. |
| Utf8.DecodeEncode | crates/houyicoder-api/src/background.rs:67-99 | Decoding the encoding of any text gives the text back, with nothing held. |
| CommandTail.Tail.PushBytes | crates/houyicoder-api/src/background.rs:67-99 | The decode loop over valid_up_to and error_len pushes the decoding of the held bytes and the chunk, and holds back its remainder. |
| CommandTail.Tail.PushText | crates/houyicoder-api/src/background.rs:101-123 | The loop over characters updates lines and the open line as the specification does, and the carried count stays the open line's length, below 4096. |
| CommandTail.Tail.PushLine | crates/houyicoder-api/src/background.rs:125-135 | The window keeps the last five lines; the new one is its first 200 characters, the others are unchanged. |
| CommandTail.Tail.Snapshot | crates/houyicoder-api/src/background.rs:137-156 | The snapshot is the last five of the window and the non-empty open line, of which it shows the first 200 characters. |
| CommandTail.ChunksAreOneChunk | crates/houyicoder-api/src/background.rs:64-99 | For every byte stream and every way of cutting it, the whole state is the one a single chunk leaves. |
| CommandTail.HeldIsTruncated | crates/houyicoder-api/src/background.rs:42-44 | What is held back is empty or a proper prefix of a well-formed character, at most three bytes. |
| CommandTail.EncodedTextArrives | crates/houyicoder-api/src/background.rs:64-66 | Text written as UTF-8 leaves the state of pushing the text itself, however its bytes are cut. |
| CommandTail.SnapshotIsWindow | crates/houyicoder-api/src/background.rs:101-156 | After any chunks the snapshot has min(5, n) entries, n the number of all lines of the decoded stream split at newlines and into blocks of 4096, and entry k is the first min(200, length) characters of the line as far from the end. |
| CommandTail.LinesHoldText | crates/houyicoder-api/src/background.rs:101-123 | Those lines joined are the decoded text without newlines, in order; none holds a newline or more than 4096 characters. |
| Leases.RunInv | crates/houyicoder-cli/src/local_host.rs:102-184 | Over every run the lock table agrees with the leases, release stages are past what they joined, and every lease is current, being installed, pending or joined. |
| Leases.SingleWriter | crates/houyicoder-cli/src/local_host.rs:20-38 | No two leases hold one session's lock, a locked lease that still writes is the one the table names, and where two leases of a session write, one was never locked and waits in pending. |
| Leases.LockOutlivesWriters | crates/houyicoder-cli/src/local_host.rs:119-131 | A lease gives its lock up only in the step after its host's tasks and its children have all ended. |
| Leases.AdmissionMeetsOnlyUnlocked | crates/houyicoder-cli/src/main.rs:267-298 | When an existing session is admitted, every locked host of it has finished; one that has not was never locked and is pending. |
| Leases.UnlockedHostOverlaps | crates/houyicoder-cli/src/main.rs:636-647 | A run in which a failed fresh host and the resumed host of the same session both write. |
| Leases.ExitDrainsAll | crates/houyicoder-cli/src/local_host.rs:190-221 | When exit completes every lease ever built has ended its writers and this process holds no lock. |
| Leases.LockChanges | crates/houyicoder-cli/src/main.rs:267-298 | Over every run a session's lock changes in seven steps and no others: admission, a failed build, a build, a fresh lock, the end of a release, and another process taking or freeing it. |
| Leases.ForeignOnlyTakes | crates/houyicoder-cli/src/main.rs:275-297 | Over every run a lock becomes another process's only when that process takes it. |
| Leases.FailedBuildUndoes | crates/houyicoder-cli/src/main.rs:665-666 | An admission whose build fails leaves everything as it was. |
| Leases.LeaseChanges | crates/houyicoder-cli/src/local_host.rs:119-131 | Over every run a lease changes only by its own writers, its lock, and the stages of its release, in order, and none disappears. |
| Leases.NewLeases | crates/houyicoder-cli/src/main.rs:636-668 | A build, and nothing else, makes a lease, locked exactly when its session was admitted first. |
| LeaseOverlap.OverlapExactly | crates/houyicoder-cli/src/main.rs:636-668 | In this process: at any point of any run, the session of an unfinished lease can get a new writing host of this process while the lease and its writers are still there if and only if the lease was never locked and exit has not begun. |
| LeaseOverlap.TakenExactly | crates/houyicoder-cli/src/local_host.rs:20-38 | In any process: at any point of any run, exit included, another process can take the session of an unfinished lease while the lease and its writers are still there if and only if the lease was never locked. |
| LeaseOverlap.Resumed | crates/houyicoder-cli/src/main.rs:649-686 | Whenever the main thread is idle and the session's lock is free, admitting, building and installing puts a writing host beside an unfinished lease and leaves that lease as it was. |
| LeaseOverlap.ReleaseCompletes | crates/houyicoder-cli/src/local_host.rs:119-131 | From every reachable state a begun release can complete by steps of its own tasks, children and release task alone, touching no other lease, and then its lock is free. |
| LeaseOverlap.ExitCompletes | crates/houyicoder-cli/src/local_host.rs:198-221 | From wherever exit has begun it can complete: no release waits on another. |
| LeaseScope.HostLeaseScope.Install | crates/houyicoder-cli/src/local_host.rs:166-175 | The machine's install step: the old lease moves into pending, releasing; the new one is current; nothing else changes. |
| LeaseScope.HostLeaseScope.TrackRelease | crates/houyicoder-cli/src/local_host.rs:177-183 | The machine's step for a host whose lock failed: its release joins pending. |
| LeaseScope.HostLeaseScope.BuildFork | crates/houyicoder-cli/src/main.rs:622-648 | A fork builds, then locks; a refused lock leaves exactly the release of that unlocked host in pending. |
| LeaseScope.HostLeaseScope.BuildExisting | crates/houyicoder-cli/src/main.rs:649-670 | An existing session is checked, locked and then built; a failing build leaves its lock free and the leases as they were. |
| LeaseScope.HostLeaseScope.SwitchTo | crates/houyicoder-cli/src/main.rs:616-687 | Every execution, with tasks, children, release tasks and other processes acting in between, is a run of the machine that takes exactly the steps its outcome names; each refusal comes if and only if its cause in the source's order holds, a lock in use only if someone held it meanwhile; a failing switch leaves the current lease and every held lock, frees a session it admitted, and adds at most the failed host's release. |
| LeaseScope.HostLeaseScope.Await | crates/houyicoder-cli/src/local_host.rs:213-218 | A release is joined only once its own tasks and children ended by their own steps, and exactly then. |
| LeaseScope.HostLeaseScope.ReleaseAll | crates/houyicoder-cli/src/local_host.rs:198-221 | Every execution is a run of the machine; when it is done every lease ever built has finished and only other processes hold locks, otherwise it waits for the first release not finished. |
| SettingsSerial.CallersSerialize | crates/houyicoder-config/src/settings_store.rs:94-185 | With no unlocked edit, whatever the interleaving and whatever fails: the file is the mutators in the order the callers took the lock, each as often as its verify reads failed and once more if it returned Ok; so exactly the successful ones, each once, if and only if no verify read failed. |
| SettingsSerial.LedgerRun | crates/houyicoder-config/src/settings_store.rs:94-185 | The same at every point of every such run: the renames so far are those tallied, each caller's together, in lock order. |
| SettingsSerial.AppliedTwice | crates/houyicoder-config/src/settings_store.rs:171-179 | The promise fails: for every start and mutator, with a retry left, a run without edits returns Ok over the mutator applied twice. |
| SettingsSerial.RenamedUnverified | crates/houyicoder-config/src/settings_store.rs:171-184 | With no retry left, a run without edits returns an error while its rename stands. |
| SettingsSerial.SerialRun | crates/houyicoder-config/src/settings_store.rs:94-185 | With no unlocked edit, whichever operations fail, the file is at every point the renames so far replayed in order, and only the lock holder is at work. |
| SettingsSerial.NobodyExhausts | crates/houyicoder-config/src/settings_store.rs:122-184 | If no token, re-check or verify read fails either, no caller runs out of retries. |
| SettingsSerial.UntouchedPathSurvives | crates/houyicoder-config/src/settings_store.rs:70-74 | At every point of every run with no unlocked edit, the file is as at the start, or both parse and agree at every path no mutator touches. |
| SettingsEdits.IterationReads | crates/houyicoder-config/src/settings_store.rs:122-152 | Every value, token and re-check a caller holds was read in the same iteration, in that order. |
| SettingsEdits.NoEditLostBetweenTokens | crates/houyicoder-config/src/settings_store.rs:129-153 | With distinct contents having distinct tokens, an iteration goes on to rename if and only if the re-check reads the text its token was taken from, whatever was edited in between. |
| SettingsEdits.NoticedEditIsKept | crates/houyicoder-config/src/settings_store.rs:150-183 | Any edit to other text that parses, made between the two tokens, is kept: with a retry left the run ends Ok over the mutator of the edited file. |
| SettingsEdits.SettlesAlone | crates/houyicoder-config/src/settings_store.rs:122-177 | Undisturbed, a caller returns Ok over its mutator of the file, a missing one counting as an empty object. |
| SettingsEdits.LostOnlyInWindows | crates/houyicoder-config/src/settings_store.rs:122-165 | In every run, for any number of callers: up to a rename the text changed at all if and only if it changed between that iteration's value read and token read, or between re-check and rename, or unseen by a read that failed; text other than the text parsed is lost only there, and a change in exactly one of the three is lost. |
| SettingsEdits.EditBetweenReadsIsLost | crates/houyicoder-config/src/settings_store.rs:122-130 | Any edit made while the caller is between its value read and its token read is overwritten and the caller returns Ok. |
| SettingsEdits.EditBeforeRenameIsLost | crates/houyicoder-config/src/settings_store.rs:152-165 | Any edit made while the caller is between its re-check and its rename is overwritten and the caller returns Ok. |
| SettingsEdits.EditUnreadIsLost | crates/houyicoder-config/src/settings_store.rs:129-153 | Any edit made between token read and re-check is overwritten if both reads fail, since both count as empty text. |
| SettingsEdits.CorruptTextIsOverwritten | crates/houyicoder-config/src/settings_store.rs:76-77 | The promise fails: any text that does not parse, written before the rename, is overwritten and the caller returns Ok. |
| SettingsEdits.EmptyFileIsLost | crates/houyicoder-config/src/settings_store.rs:126-130 | A missing file that is made empty before the re-check is overwritten: both read as empty text. |
| SettingsEdits.CorruptLostOnlyInWindows | crates/houyicoder-config/src/settings_store.rs:76-77 | In every run text that does not parse is renamed over only in one of the three windows, or as an empty file that was missing at the value read. |
| SettingsEdits.WritesOnlyItsMutation | crates/houyicoder-config/src/settings_store.rs:122-165 | In every run a caller changes the file only in a rename, to the rendered mutation of the value it parsed in that same iteration. |
| SettingsEdits.OkHoldsItsMutation | crates/houyicoder-config/src/settings_store.rs:171-177 | In every run a caller returns Ok only while the file holds the mutation of the value read in that same iteration. |
| SettingsStore.CallerStops | crates/houyicoder-config/src/settings_store.rs:122-184 | In every run the iterations of a caller stay within max_retries + 1, and its moves within six for each of them. |
| SettingsStore.IterationStops | crates/houyicoder-config/src/settings_store.rs:122-184 | In every run no single iteration makes more than six moves. |
| SettingsStore.OutcomesExactly | crates/houyicoder-config/src/settings_store.rs:122-184 | Over every run: an I/O error if and only if the value read, the write or the rename failed; corrupt JSON if and only if the file is there and does not parse; Ok if and only if the file read back is what was written; another iteration, or exhaustion at the last, if and only if the tokens or the verify differ. A missing file is an empty object. |
| SettingsStore.IterationsBegun | crates/houyicoder-config/src/settings_store.rs:122-184 | A caller that runs out of retries began all max_retries + 1 iterations. |
| SettingsUpdate.SettingsFile.UpdateSettings | crates/houyicoder-config/src/settings_store.rs:94-185 | Every execution of the retry loop, with an editor acting before any file operation and any of them failing, is a run of the step machine that ends with the returned outcome. |
| SettingsUpdate.SettingsFile.Iterate | crates/houyicoder-config/src/settings_store.rs:122-183 | One iteration follows the machine and retries exactly where it does. |
| SettingsMerge.MergeJson | crates/houyicoder-config/src/settings_merge.rs:39-53 | The in-place loop over override keys computes the merge. |
| SettingsMerge.MergeAtPath | crates/houyicoder-config/src/settings_merge.rs:36-53 | What a merge holds at every path: the override, merged with the base where both hold something; the base where the override has only objects without the next key; nothing under an override that is no object. |
| SettingsMerge.RemergeIsNoop | crates/houyicoder-config/src/settings_merge.rs:39-53 | Laying the same override again changes nothing. |
| SettingsMerge.RegroupExactly | crates/houyicoder-config/src/settings_merge.rs:133-134 | Three layers may be regrouped if and only if, wherever the middle one replaces an object under an object, the upper one covers the lower one. |
| SettingsMerge.RegroupWhereNothingFlattens | crates/houyicoder-config/src/settings_merge.rs:133-134 | Regrouping agrees whenever the middle layer never puts a non-object where both outer ones hold objects. |
| SettingsMerge.CoversExactly | crates/houyicoder-config/src/settings_merge.rs:39-53 | A merge is its override alone if and only if every key path of base objects is present in the override. |
| SettingsMerge.EmptyLayer | crates/houyicoder-config/src/settings_merge.rs:25-34 | An empty object changes nothing as a base; laid over a value it changes nothing if and only if that value is an object. |
| SettingsMerge.LayersAtPath | crates/houyicoder-config/src/settings_merge.rs:96-135 | At every path the topmost layer holding a non-object decides, and silent layers let the user's value through. |
| Calendar.CivilIsCounting | crates/houyicoder-cli/src/export_view.rs:119-136 | The computed date of every day is valid and is the one counting that many days from 1970-01-01 reaches. |
| Calendar.YearOfEraExact | crates/houyicoder-cli/src/export_view.rs:127-130 | Within an era the division formula gives the year whose days hold the given day. |
| ExportSlug.SlugNamesMinute | crates/houyicoder-cli/src/export_view.rs:119-136 | Two slugs are equal if and only if the instants fall in the same minute, for years of any length. |
| ExportSlug.SlugSpells | crates/houyicoder-cli/src/export_view.rs:119-136 | The slug is year-month-day-time: numerals of the date that counting days reaches, two digits each but the year, and of the hour and minute of that day. |
| ExportSlug.SlugOrderIsTimeOrder | crates/houyicoder-cli/src/export_view.rs:119-136 | Through the year 9999 the order of slugs as text is time order. |
| ExportSlug.SortsExactlyTo10000 | crates/houyicoder-cli/src/export_view.rs:119-136 | The slugs of all instants before a bound sort in time order if and only if the bound is at most the start of the year 10000, whose first slug sorts before the last of 9999. |
| ExportSlug.NoOverflow | crates/houyicoder-cli/src/export_view.rs:119-135 | For every u64 millisecond value every intermediate fits in 64 signed bits, and the two casts to 32 bits keep their values. |
| SessionLog.GroupTurns | scripts/measure_turn_dispatch.py:247-320 | For every log the turns partition the calls in order; a turn begins exactly at a boundary (the first sharing the turn of an input still waiting for a call), an input before any boundary, or a first call, and each call is in the turn that began last; no call is dropped, and approvals are exactly the approved ids. |
| SessionLog.FeedAllTurned | scripts/measure_turn_dispatch.py:247-303 | At every point of a log the turns are as many as the events that begin one. |
| SessionLog.FeedAllBooked | scripts/measure_turn_dispatch.py:281-313 | Each call carries the last answer to its id before the id is called again, or else the last one that came before the id was first called. |
| Resends.GreedyIsMaximum | scripts/measure_turn_dispatch.py:473-488 | Taking the first free later identical call is a one-to-one pairing, and no pairing that respects turn order is larger. |
| Resends.Exchange | scripts/measure_turn_dispatch.py:473-488 | Any pairing that agrees with the greedy one so far can be made to agree one check further without losing size. |
| TurnDispatch.ApprovalResends | scripts/measure_turn_dispatch.py:437-488 | The count is the maximum size of a pairing of the checks that await an approved edit with later identical calls. |
| TurnDispatch.AwaitsExactly | scripts/measure_turn_dispatch.py:448-472 | A check counts if and only if it is a shell call withheld while the first unlanded edit of its turn was still pending, and that edit was approved. |
| TurnDispatch.AfterEdits | scripts/measure_turn_dispatch.py:407-434 | The two counts are the shell calls after an anchor edit of their turn, and those in a turn that follows one. |
| TurnDispatch.WiderAnchorsHoldMore | scripts/measure_turn_dispatch.py:407-434 | Widening the anchors never lowers either count. |
| TurnDispatch.FailedHoldsNoMoreThanMissed | scripts/measure_turn_dispatch.py:358-365 | Checks after failed edits never exceed checks after missed edits, in the same turn or the next. |
| TurnDispatch.TurnShapes | scripts/measure_turn_dispatch.py:386-404 | The three counts are those of edit, co-dispatched and split turns, and the last two together never exceed the first. |
| TurnDispatch.ShapesAreDisjoint | scripts/measure_turn_dispatch.py:386-404 | Co-dispatched and split turns are disjoint subsets of the edit turns. |
| TurnDispatch.Measure | scripts/measure_turn_dispatch.py:491-540 | Grouping a log and counting it: every count is the size of the set it names, missed and failed edits told by their answers, and the inequalities between the counts hold of every list of events. |
| McpClient.ReadResponse | crates/houyicoder-api/src/mcp.rs:324-365 | The first line that is neither blank nor a message with a method and no id decides: an answer with the expected id is the server's error with its code, its result, or null for want of both; anything else breaks the protocol; a line that cannot be read, or no such line, is an I/O error. |
| McpClient.OrderlyRun | crates/houyicoder-api/src/mcp.rs:244-262 | Over every interleaving and against any server, at every point no two calls share an id and the pipe has one user. |
| McpClient.CorrelatedById | crates/houyicoder-api/src/mcp.rs:244-262 | Over every interleaving and against any server, a call that succeeds or fails by the server read a line with its own id, which no other call has, and returns what that line tells: an error as an error, a result as a result. |
| McpClient.AnswersExactly | crates/houyicoder-api/src/mcp.rs:244-262 | Against a server that answers each request once in order, over every interleaving: a call that reads an answer gets its own if and only if no read failed earlier in the run, and otherwise a protocol error. |
| McpClient.LeftoverAnswer | crates/houyicoder-api/src/mcp.rs:324-330 | A run in which one failed read gives the next call, which reads what the first was due, a protocol error. |
| McpClient.EveryCallerGetsItsAnswer | crates/houyicoder-api/src/mcp.rs:244-262 | Against such a server, at every point of every run, each finished call has the answer to its own request; or an I/O error because the request was never sent, the server closed the pipe or its own read failed; or a protocol error because some read had failed. |
| ModuleReach.Reachable | scripts/check_orphan_modules.py:58-84 | The worklist ends on cyclic declarations and returns exactly the files a chain of declarations leads to. |
| ModuleReach.ReachedAreModules | scripts/check_orphan_modules.py:58-84 | In a crate that declares modules by name, a root reaches exactly the files that hold a module of its tree: name.rs or name/mod.rs in the directory of the path to it. |
| ModuleReach.PathDeclares | scripts/check_orphan_modules.py:74-80 | A path attribute is relative to the directory of the file that has it, whatever that file is called. |
| ModuleReach.Orphans | scripts/check_orphan_modules.py:87-108 | The orphans are exactly the source files outside bin that no existing root reaches, and none when no root exists. |
| ResponseStream.StreamFromResponse | crates/houyicoder-api/src/provider.rs:52-117 | The generator, with its running counter and chunking loop, emits the specified events. |
| ResponseStream.StreamRoundTrips | crates/houyicoder-api/src/provider.rs:45-51 | Joining the deltas of each block by its id gives back the same items in the same order, and the last event carries the usage. |
| ResponseStream.BlocksShareNoId | crates/houyicoder-api/src/provider.rs:73-92 | In the stream of every response, any two events that open a block carry different ids. |
| ResponseStream.DeltasAreShort | crates/houyicoder-api/src/provider.rs:76-87 | Every text delta of the blocks has one to four characters, and a text comes in as few of them as can hold it. |
| ResponseStream.StreamIsBracketed | crates/houyicoder-api/src/provider.rs:52-117 | A stream opens with its step and ends with the step's end and the usage; between them every block is closed, none nests, and deltas stand only in the block of their id. |

## Left out

- Full shell semantics: the scan is modelled as written; here strings and nested arithmetic are read as the scanner reads them, not as a shell would.
- The saturation of a parenthesis count at the largest machine integer: a count never exceeds the length of the text.
- JSON text, hashing and pretty-printing: parse and render are functions with parse after render the identity, the token is a function of the text, injective only where a lemma says so.
- SettingsSerial.CallersSerialize: assumes no unlocked edit; with one, SettingsEdits says what each caller's write rests on.
- Partial writes of the temporary file and the directory fsync: opening, writing and renaming either happen or fail.
- The notice that names a repository's base_url, per-field settings loaders, environment fallbacks and the secret-source warnings.
- A release task that panics or is aborted, and unwinding in the middle of a build: both drop a lock early and neither is a step here.
- The two-second shutdown budget: a host task ends when it ends, by return, abort or panic.
- LeaseScope.HostLeaseScope.ReleaseAll: a host may never end, so it waits for a given number of others' steps and says whether it is done; ExitCompletes says exit can always complete.
- The launch path that waits at once for the release of a fresh host whose lock failed: here that release is tracked, as in a switch.
- McpClient.AnswersExactly: a read that fails is taken to leave the whole answer on the pipe; one that fails inside a line is not a step.
- ExportSlug.SlugOrderIsTimeOrder: stops at the year 9999 because longer years sort by their first digits; SortsExactlyTo10000 proves that no later bound would do.
- The text of answers in a session log: which answers count as failed, not run or withheld is given, not read from JSON.
- Other log counts (asks, decisions, unmatched results), totals and rendering: sums of single fields.
- A request written in part, or one whose flush fails after the server has it, the pagination loop of list_tools, and wrap-around of the 64-bit id counter.
- Reading mod declarations from source text and paths with two spellings: declarations are given as relative paths.
- Process spawning, pipes, signals, timers, sandbox path resolution, the export's statistics, command-line parsing and the terminal interface.
