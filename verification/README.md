# Verified models of the boot image and instance tooling

Dafny models of five parts of this repository, with proofs of what they keep.

- **The cpio newc editor** (`scripts/cpio_edit.py`): `cpio_hex.dfy` (header numbers), `cpio_archive.dfy`
  (entries, bytes, reader), `cpio_io.dfy` (the reading and writing loops), `cpio_edit.dfy`
  (`process_archive`), `cpio_pipeline.dfy` (whole edits, end to end on bytes).
- **The cfctl daemon** (`cuttlefish/cfctl/src/daemon`): `allocator.dfy` (slots), `lock_table.dfy`
  (per-instance mutexes), `guest_handle.dfy` (reaping a guest), `boot_poll.dfy` (the two polling loops),
  `instances.dfy` (what each request does to metadata files, cache, registry and watchers, as functions),
  `manager.dfy` (`InstanceManager` with its fields, held to those functions), `daemon_cache.dfy`,
  `daemon_prune.dfy`, `daemon_runs.dfy`, `daemon_settled.dfy`, `daemon_holds.dfy`, `daemon_guests.dfy`,
  `daemon_watchers.dfy`, `daemon_replies.dfy`, `daemon_slots.dfy` (what holds of caches, prunes, whole runs,
  watchers that come late, every reply, and the slots given out),
  `daemon_failures.dfy` (the runs of a new daemon, and one for each way to leave an instance half-way).
- **The bounded log tail** (`util.rs`): `log_tail.dfy`.
- **The compositor's pixel copy** (`compositor-rs/src/main.rs`): `blit.dfy`.
- **The PID 1 supervisor** (`qemu-init/init.zig`): `supervisor.dfy`.

What the outside answers (a poll of a guest, which may fail; adb; a spawn; a clock; a file's stat; the order
of a directory listing) is a parameter of the operation, so every theorem holds for all of these answers. A
run of the daemon is any sequence of requests, each one step, interleaved with exit watchers: a watcher's
wait returns or fails and it compares its handle with the registered one; it removes what is registered; it
reads the metadata and changes its copy; and it writes that copy. These are four steps, and requests fall
between any two of them.

Where a promise does not hold on all inputs, the exact condition is proved, with a run or an input that
breaks it:

- An instance is left half-way by exactly these steps, each with a run of a new daemon that takes it
  (`SettledKeptIff`, `SettledRunIff`): a start whose preparation fails (`PreparationFailureHangs`) or whose
  guest's poll does (`PollFailureHangs`) stays in Starting; a destroy or prune whose files cannot be removed
  (`KeptFilesHang`) or which cannot see the guest's end (`UnseenEndHangs`) stays Destroyed; and a watcher
  whose wait fails leaves Running without a guest (`FailedWaitHangs`).
- A hold that succeeds on an instance left in Destroyed protects nothing (`HoldHoldsIff`, `HoldOfDestroyed`),
  and one that falls between a watcher's read and its write is lost (`HoldProtectsIff`, `HoldLost`).
- That write is not tied to a generation or to what it read: after stop and start, the watcher of the first
  guest records Stopped over the second (`ShownRunIff`, `LateWriteHappens`); metadata destroyed since the
  read comes back, and purpose and images of an instance made anew are overwritten (`LateWriteIff`,
  `DestroyUndone`, `RecreatedOverwritten`).
- A deploy whose second copy fails has already replaced the boot image, which an instance deployed before
  then boots (`DeployMeaning`, `RefusedDeployChanges`).
- `remove_if_handle` compares and removes in two calls, so a watcher can take out a guest that was started in
  between (`EvictsNewerIff`, `EvictionHappens`); as one step it never does (`PromptNeverEvicts`).
- A start whose boot is not confirmed, or whose guest can neither be polled nor ended, leaves it registered
  without a watcher (`WatchedRunIff`, `UnverifiedBootUnwatched`).
- `cleanup_instance_lock` lets go of the entry between its test and its removal, so two requests can hold
  one instance (`ExclusionLostIff`, `GapBreaksExclusion`).
- `cuttlefish/cfctl/README.md:34` calls `--timeout-secs` a hard ceiling. The deadline of the boot check stays
  within it exactly when a whole second is left by then; otherwise it is two minutes off (`BootDeadlineIff`,
  `PromptBootDeadlineIff`, `LateAnswerOverruns`). These theorems bound the deadlines set, not the time of the
  reply: the start's deadline counts from after preparation and spawn, and the round under way at a deadline
  and up to two terminations come on top.
- Adding a file once inode 0xffffffff is in use writes an archive that does not read back
  (`NoInodeLeft`, `LastInodeBreaksAdd`).
- With gaps between buffer rows, or a screen of 65536 pixels or more, the pixel copy loses pixels
  (`WholeClipIff`, `PaddedRowsCut`, `FullScreenIff`).
- A child that exits before `spawnChild` has made its two writes is never respawned (`SetAdriftIff`,
  `FirstExitLost`).

## Model

| member | source | states |
|---|---|---|
| CpioHex.ParseHexFormatHex | scripts/cpio_edit.py:112-114 | A number printed with `08x`, however many digits that takes, parses back to itself. |
| CpioHex.FormatHexWidth | scripts/cpio_edit.py:186 | A printed field keeps its width if and only if the number is below 16 to that width. |
| CpioHex.FieldAt | scripts/cpio_edit.py:112-114 | In a run of fitting fields, the i-th one is the eight digits at offset 8i. |
| CpioHex.HexDigits | scripts/cpio_edit.py:112-114 | Digits are written 0 to 9 and a to f, and read so or with A to F, and nothing else is a digit. |
| CpioArchive.HeaderFields | scripts/cpio_edit.py:167-186 | Every header whose numbers fit their fields, stale filesize or not, is laid out as cpio(5) says: the magic, then each of the thirteen numbers at the offset the format gives it, with the sizes those of the actual name and data. |
| CpioArchive.ArchiveLayout | scripts/cpio_edit.py:165-193 | Every byte of a written archive outside headers and data: the name 110 bytes into its entry, a zero behind it and zeros up to the data at the next multiple of four, the data, and zeros up to the next entry at the multiple of four after that. |
| CpioArchive.TrailingLast | scripts/cpio_edit.py:193 | The first entry starts the file and behind the last come the trailing bytes and nothing else. |
| CpioArchive.ReadOfWrite | scripts/cpio_edit.py:99-193 | Reading what was written gives back the archive (entries, order, all fields, data, trailing bytes), for every well-formed archive. |
| CpioArchive.ReadWellFormed | scripts/cpio_edit.py:99-162 | Whatever bytes the reader accepts, its result has fields below 2^32, sizes that agree with the data, and the trailer name in the last entry only. |
| CpioArchive.RoundTripIff | scripts/cpio_edit.py:99-193 | The round trip holds for exactly the well-formed archives; an oversized field, stale filesize or early trailer name each break it. |
| CpioArchive.ReadWriteRead | scripts/cpio_edit.py:99-193 | read, write, read equals read on every byte string the reader accepts. |
| CpioArchive.Aligned | scripts/cpio_edit.py:23-26 | Although padding is computed relative to each entry, every header and every data block lies at a multiple of four from the start of the archive, and the data stands there unchanged. |
| CpioIO.ReadCpio | scripts/cpio_edit.py:99-162 | The cursor loop returns the archive, or the error, of the recursive reader for any bytes, errors in the order of the checks; header fields are hexadecimal digits. |
| CpioIO.ReadFailure | scripts/cpio_edit.py:99-162 | Behind any number of good entries: no trailer, a cut header, another magic, a header with something that is no digit, and a name or data that ends early are each reported as that, in this order. |
| CpioIO.Utf8Iff | scripts/cpio_edit.py:168 | The names the writer accepts are exactly the encodings of sequences of Unicode scalar values. |
| CpioIO.FormatHeader | scripts/cpio_edit.py:168-186 | The header loop emits the magic and the fields in format order. |
| CpioIO.WriteCpio | scripts/cpio_edit.py:165-193 | Writing succeeds if and only if all names are valid UTF-8, and then the bytes are those of the format; a failure names an offending entry. |
| CpioEdit.EditOne | scripts/cpio_edit.py:261-278 | One survivor is renamed and replaced as the specification of a single entry says. |
| CpioEdit.EditSurvivors | scripts/cpio_edit.py:257-278 | The first loop yields every survivor edited, or the error of the first that cannot be. |
| CpioEdit.AddFiles | scripts/cpio_edit.py:280-284 | The second loop appends the added entries under consecutive inodes from the next free one, or stops at the first that cannot be built. |
| CpioEdit.ProcessArchive | scripts/cpio_edit.py:247-287 | The two loops compute the declarative edit, including which error is reported first. |
| CpioEdit.KeptIndicesMeaning | scripts/cpio_edit.py:257-259 | Survivors are exactly the entries whose original name is not removed, each once, in order. |
| CpioEdit.EditSucceedsIff | scripts/cpio_edit.py:247-287 | An edit fails if and only if a file needed by an addition or by a surviving, renamed-into name is missing or of an unsupported type. |
| CpioEdit.BuildableIff | scripts/cpio_edit.py:210-244 | What can be built is a link, regular file, directory or device by its file type bits, and any other path fails with the error that fits. |
| CpioEdit.EditErrorFirst | scripts/cpio_edit.py:257-278 | A failing edit reports the first survivor that needs a missing or unsupported file, and what is wrong with it. |
| CpioEdit.AddErrorFirst | scripts/cpio_edit.py:280-284 | With every survivor edited it reports the first such addition. |
| CpioEdit.EditMeaning | scripts/cpio_edit.py:247-287 | The result is a filter-map: each survivor in order, renamed once and otherwise identical or carrying the replacement file under its old inode, owner, links and device; then the added files under consecutive fresh inodes; then the old trailer; trailing bytes kept. |
| CpioPipeline.InodeSharingKept | scripts/cpio_edit.py:83-85 | Survivors share an inode exactly when they did before; every added entry has an inode no original (removed or not) and no other added entry has. |
| CpioPipeline.NextInodeMeaning | scripts/cpio_edit.py:83-85 | The next inode is one more than the highest in use, and 1 when there is none. |
| CpioPipeline.NamesStayDistinct | scripts/cpio_edit.py:257-283 | Distinct names stay distinct when renames are injective and neither their targets nor the added names meet a survivor. |
| CpioPipeline.RenameOnlyMeaning | scripts/cpio_edit.py:263-264 | Renaming is simultaneous and total: each original name is looked up once, and nothing but names changes. |
| CpioPipeline.RenameUndoIff | scripts/cpio_edit.py:263-264 | Renaming with a map and then its inverse restores the archive if and only if no entry already carried a target name without being renamed itself. |
| CpioPipeline.EditWellFormedIff | scripts/cpio_edit.py:247-287 | An edit of a well-formed archive is well-formed exactly when the new names, the host files and the fresh inodes fit the header. |
| CpioPipeline.EditReadsBackIff | scripts/cpio_edit.py:99-287 | For every accepted file, the edited archive survives writing and reading exactly when the plan fits. |
| CpioPipeline.EditFile | scripts/cpio_edit.py:290-335 | read, edit, write as one: the output bytes are those of the edited archive and read back to it exactly when the plan fits; each failure comes from the stage it names. |
| CpioPipeline.InitPlanEdit | justfile:37-41 | With one `init` in the archive, the build's plan keeps all entries in place, renames that one and adds one before the trailer. |
| CpioPipeline.InitReplaced | justfile:37-41 | End to end on bytes: the bytes of the edit read back as an archive with every other entry identical and in order, the old `init` whole under `init.stock`, and exactly one new `init`, just before the trailer. |
| CpioPipeline.InitEncodableIff | scripts/cpio_edit.py:168 | The build's edit neither adds nor removes a name the writer refuses. |
| CpioPipeline.ReplaceInit | scripts/cpio_edit.py:290-335 | The build's command writes its file exactly when every name in the input is UTF-8, and the file written is the one that reads back so. |
| CpioPipeline.NoInodeLeft | scripts/cpio_edit.py:83-85 | Adding anything when no inode below 2^32 is left always writes an archive that does not read back. |
| CpioPipeline.LastInodeBreaksAdd | scripts/cpio_edit.py:83-85 | A concrete archive that reads back itself, but not after adding any one file. |
| Allocator.AllocateMeaning | cuttlefish/cfctl/src/daemon/manager.rs:762-803 | From any stored cursor the id given is free and every slot between the cursor and it, going round, is taken; nothing is given exactly when all 99 are taken. |
| Allocator.AllocateId | cuttlefish/cfctl/src/daemon/manager.rs:762-803 | The scan loop meets that specification and stores the cyclic successor on success only. |
| Allocator.Sweep | cuttlefish/cfctl/src/daemon/manager.rs:762-803 | While the cursor stands before x and x before id, no history gives out id without first giving out x or finding it taken. |
| Allocator.Fair | cuttlefish/cfctl/src/daemon/manager.rs:762-803 | Between two allocations of one id every other slot was given out, or was taken when the cursor passed it, in every history of allocations, frees and occupations. |
| LockTable.SoundKept | cuttlefish/cfctl/src/daemon/mod.rs:186-271 | Every step keeps mutexes unshared between ids and each held by one request at most. |
| LockTable.CoherenceKeptIff | cuttlefish/cfctl/src/daemon/mod.rs:254-271 | From a state where all users of an instance point at the mapped mutex, a step loses that if and only if it is a removal whose entry is in use again. |
| LockTable.CoherentExclusive | cuttlefish/cfctl/src/daemon/mod.rs:254-261 | When all users of an instance point at the mapped mutex, at most one holds it. |
| LockTable.CoherentRunIff | cuttlefish/cfctl/src/daemon/mod.rs:186-271 | Over runs: coherent throughout if and only if no removal is stale. |
| LockTable.CountOneUnused | cuttlefish/cfctl/src/daemon/mod.rs:264-267 | A reference count of one means exactly that no request waits for or holds the instance. |
| LockTable.MutualExclusion | cuttlefish/cfctl/src/daemon/mod.rs:186-271 | In every run from the empty table without a stale removal, at most one request holds an instance at any time. |
| LockTable.AtomicNeverStale | cuttlefish/cfctl/src/daemon/mod.rs:263-271 | If every test is followed at once by its removal, no removal in the run is stale. |
| LockTable.AtomicCleanupExcludes | cuttlefish/cfctl/src/daemon/mod.rs:263-271 | With test and removal as one step, mutual exclusion holds in every run, error paths that skip the cleanup included. |
| LockTable.LoneRequest | cuttlefish/cfctl/src/daemon/mod.rs:186-271 | A request that meets no other runs to its end from any table: afterwards its entry is gone exactly when it succeeded, and an error leaves it. |
| LockTable.StaleLosesExclusion | cuttlefish/cfctl/src/daemon/mod.rs:267-268 | After any stale removal, a newcomer and an earlier user come to hold the instance together within three steps. |
| LockTable.ExclusionLostIff | cuttlefish/cfctl/src/daemon/mod.rs:267-268 | Of any one step: exclusion can be lost afterwards without a further stale removal if and only if this step was one. |
| LockTable.GapBreaksExclusion | cuttlefish/cfctl/src/daemon/mod.rs:267-268 | The run of nine events in which two requests hold instance 7. |
| LockTable.InstanceLocks.LockInstance | cuttlefish/cfctl/src/daemon/mod.rs:254-261 | The table gets a mutex only where it had none, and the caller waits for the mapped one. |
| LockTable.InstanceLocks.TestForCleanup | cuttlefish/cfctl/src/daemon/mod.rs:263-267 | In coherent states the cleanup goes on exactly when the entry exists and nobody uses the instance. |
| LockTable.InstanceLocks.RemoveEntry | cuttlefish/cfctl/src/daemon/mod.rs:268-269 | The entry goes, whatever has happened since the test. |
| GuestHandle.OneStatus | cuttlefish/cfctl/src/daemon/guest.rs:71-111 | In every serialised interleaving of polls and waits the child is reaped at most once, all reported statuses agree, and after the first report every call reports. |
| GuestHandle.DeliveredStatus | cuttlefish/cfctl/src/daemon/guest.rs:71-111 | The status reported is the one the first successful call collected: by it and every call after it, while polls before it say not yet or that they failed. |
| GuestHandle.FailedWaitLosesStatus | cuttlefish/cfctl/src/daemon/guest.rs:94-111 | Once a blocking wait has failed, no call ever reports a status again. |
| GuestHandle.FailedWait | cuttlefish/cfctl/src/daemon/guest.rs:100-111 | A blocking wait that fails reports an error and takes the child with it: waits keep failing and polls find nothing for good. |
| GuestHandle.Guest.TryWait | cuttlefish/cfctl/src/daemon/guest.rs:71-92 | A poll is the step of the state machine of the handle. |
| GuestHandle.Guest.Wait | cuttlefish/cfctl/src/daemon/guest.rs:94-111 | So is a blocking wait, its failure included. |
| GuestHandle.Guest.WaitTimeout | cuttlefish/cfctl/src/daemon/guest.rs:113-124 | Polls until a status, an error or the deadline, which is set before the first poll; at least once, a bounded number of rounds, and none but the last found anything. |
| BootPoll.WaitForAdb | cuttlefish/cfctl/src/daemon/manager.rs:1317-1456 | The loop ends within timeout + 1 rounds, with the verdict of the first round that sees the guest gone, its poll fail, the device, or the deadline past, and no round before it did. |
| BootPoll.AdbPollUnique | cuttlefish/cfctl/src/daemon/manager.rs:1317-1456 | Rounds and clock determine verdict and number of rounds: the loop has no second way to end. |
| BootPoll.VerifyBootCompleted | cuttlefish/cfctl/src/daemon/manager.rs:1458-1620 | At most 2 * timeout + 1 rounds of its own timeout; confirmed exactly when the last round shows the property or a marker, which no earlier round did, and never given up early. |
| BootPoll.BootDeadlineIff | cuttlefish/cfctl/src/daemon/manager.rs:1468-1471 | The boot check sets a deadline within the start's exactly when a whole second is left and setting it takes no longer than the fraction dropped; with less left it is more than 119 seconds late. |
| BootPoll.PromptBootDeadlineIff | cuttlefish/cfctl/src/daemon/manager.rs:318-326 | When no time passes in between: exactly when a whole second is left. |
| BootPoll.AdbDeadlineWithin | cuttlefish/cfctl/src/daemon/manager.rs:991-996 | The adb poll, by contrast, gets no more than the start's timeout; asked for by the start's deadline, its own passes it by no more than the time taken to set it. |
| BootPoll.LateAnswerOverruns | cuttlefish/cfctl/src/daemon/manager.rs:1468-1471 | A start with 180 seconds whose device answers in the last half second polls for the boot until 119.5 seconds after its deadline. |
| DaemonCache.HandleSame | cuttlefish/cfctl/src/daemon/manager.rs:343-537 | Any two managers of one host with caches agreeing with the disk give the same reply and leave the same host, caches still agreeing, for every request. |
| DaemonCache.OneManagerLikeMany | cuttlefish/cfctl/src/daemon/mod.rs:213 | Over any sequence of requests one long-lived manager is indistinguishable from a fresh one per request, through prune's and destroy's own managers. |
| DaemonPrune.PruneMeaning | cuttlefish/cfctl/src/daemon/manager.rs:600-760 | After any part of the listing, exactly the targets seen have been pruned, each as if alone, and the counts add up. |
| DaemonPrune.PruneExpiredAccounts | cuttlefish/cfctl/src/daemon/manager.rs:600-662 | The counts sum to exactly the live, unheld instances last updated by the saturating cutoff; the host changes by those alone. |
| DaemonPrune.PruneAllAccounts | cuttlefish/cfctl/src/daemon/manager.rs:664-720 | The counts sum to all live instances, with the held ones retained and all others taken. |
| DaemonPrune.ListingOrderIrrelevant | cuttlefish/cfctl/src/daemon/manager.rs:600-720 | Two listings of the same directories give the same host and the same reply. |
| DaemonPrune.PruneFrame | cuttlefish/cfctl/src/daemon/manager.rs:722-760 | Instances outside the targets keep metadata, artifacts, directory and guest; targets end unregistered unless the guest's end could not be seen, and gone, or Failed, or marked Destroyed, with the times of those writes and all else as it was. |
| DaemonRuns.CreateSettles | cuttlefish/cfctl/src/daemon/manager.rs:805-834 | A create is refused unchanged when no slot is free, else makes one Created instance in a free slot and touches no other. |
| DaemonRuns.StartSettles | cuttlefish/cfctl/src/daemon/manager.rs:847-1036 | A start is refused unchanged, or ends Running and registered, or Failed and unregistered, but for the failures named: a preparation or poll that fails leaves Starting, a guest that cannot be ended stays registered; other instances and existing watchers are untouched. |
| DaemonRuns.StartFromPolls | cuttlefish/cfctl/src/daemon/manager.rs:990-1036 | From the rounds and clocks of the polls: Running exactly when the deciding adb round answers, Starting exactly when its poll fails, success exactly when the deciding boot round confirms too, within timeout + 1 and 2 * timeout + 1 rounds. |
| DaemonRuns.AnswerAtOnce | cuttlefish/cfctl/src/daemon/manager.rs:1393-1411 | A guest that answers in the first round ends Running, registered and watched after one round, whatever later rounds would have said. |
| DaemonRuns.WaitSettles | cuttlefish/cfctl/src/daemon/manager.rs:1317-1456 | A wait ends Running if the guest is registered and answers, else Failed; a failing poll changes nothing; the guest stays registered exactly when it answered or could not be ended. |
| DaemonRuns.StopSettles | cuttlefish/cfctl/src/daemon/manager.rs:1038-1073 | A stop that cannot see the guest's end changes nothing; any other ends unregistered, and Stopped exactly when no process is left and any exit seen was clean. |
| DaemonRuns.HoldSettles | cuttlefish/cfctl/src/daemon/manager.rs:1075-1091 | A hold of a known instance always succeeds and changes nothing but the mark and the time. |
| DaemonRuns.DeploySettles | cuttlefish/cfctl/src/daemon/manager.rs:1277-1298 | A deploy never changes state, port, purpose, hold or registry, touches no other instance, and writes no metadata when refused. |
| DaemonRuns.DeployMeaning | cuttlefish/cfctl/src/daemon/manager.rs:1277-1298 | A deploy succeeds exactly when its copies do, and the instance then boots exactly the images given; a refused one leaves what it boots unchanged if and only if no copy got to changed an artifact its metadata names. |
| DaemonRuns.RefusedDeployKeeps | cuttlefish/cfctl/src/daemon/manager.rs:1280-1293 | So a refused deploy is harmless when no boot image was asked for or written, or the instance boots none of its artifacts. |
| DaemonRuns.DestroySettles | cuttlefish/cfctl/src/daemon/manager.rs:1093-1275 | A destroy ends unregistered exactly when the guest's end could be seen; metadata remains exactly when guests remain (Failed) or existing files were kept (Destroyed). |
| DaemonSettled.SettledKeptIff | cuttlefish/cfctl/src/daemon/manager.rs:847-1275 | At rest nothing is Starting or Destroyed and Running means a guest or a pending exit; a step keeps this if and only if it is none of the named failures, a failing poll or termination of a guest among them. |
| DaemonSettled.SettledRunIff | cuttlefish/cfctl/src/daemon/manager.rs:2178-2253 | Over every run of requests and watcher steps: settled throughout if and only if no step was such a failure. |
| DaemonHolds.StepFollows | cuttlefish/cfctl/src/daemon/manager.rs:343-537 | But for the write of a watcher's copy, any step leaves any instance with its port and purpose, never takes a hold back, and keeps a held one on disk unless it is destroyed by name. |
| DaemonHolds.HoldKeptIff | cuttlefish/cfctl/src/daemon/manager.rs:1075-1091 | A step ends a held instance if and only if it is its own destroy and no processes turn out to remain, or the write of a copy read before the hold. |
| DaemonHolds.HoldSafeIff | cuttlefish/cfctl/src/daemon/manager.rs:600-720 | Over every run a held instance stays on disk, held and listed throughout if and only if no such destroy happens and no watcher writes a copy that was stale at the start. |
| DaemonHolds.HoldHoldsIff | cuttlefish/cfctl/src/daemon/manager.rs:1075-1091 | A hold that succeeds establishes that if and only if the instance did not rest in Destroyed. |
| DaemonHolds.HoldProtectsIff | cuttlefish/cfctl/src/daemon/manager.rs:1075-1091 | After a successful hold, in any state and over every run: protected throughout if and only if the instance was not Destroyed, is not destroyed, and no watcher writes what it read before the hold. |
| DaemonHolds.UnnamedNeverDestroyed | cuttlefish/cfctl/src/daemon/manager.rs:600-720 | A run with no destroy request for the instance never destroys it, whatever prunes, stops and watchers it contains. |
| DaemonHolds.QuietHoldProtectsIff | cuttlefish/cfctl/src/daemon/manager.rs:2206-2253 | With no watcher of the instance between its read and its write at the time of the hold, only a destroy ends the protection. |
| DaemonHolds.StepLoaded | cuttlefish/cfctl/src/daemon/manager.rs:2207-2249 | Requests never touch what a watcher has read, a read makes its copy of what is on disk, and only the watcher's own write uses it up. |
| DaemonHolds.StaleKept | cuttlefish/cfctl/src/daemon/manager.rs:2207-2249 | While a hold stands, no copy that does not know of it comes into being. |
| DaemonHolds.LateWriteIff | cuttlefish/cfctl/src/daemon/manager.rs:2207-2249 | Whatever happens between read and write, the metadata afterwards is the one read with the guest's end in it, Stopped for exit code zero without a signal and Failed otherwise, destroyed or made anew meanwhile; it is what one atomic step would leave if and only if nothing but state and time had changed. |
| DaemonHolds.WiredRun | cuttlefish/cfctl/src/daemon/mod.rs:213 | Every run keeps metadata inside directories and generations below the next one. |
| DaemonHolds.OwnPortsKept | cuttlefish/cfctl/src/daemon/manager.rs:805-834 | In every run each instance's port is the one of its id. |
| DaemonHolds.PortsCollideIff | cuttlefish/cfctl/src/daemon/manager.rs:811 | Two ids have the same port exactly when they agree modulo 2^16. |
| DaemonHolds.SlotPortsDistinct | cuttlefish/cfctl/src/daemon/manager.rs:805-834 | In every run, instances in slots have pairwise different ports. |
| DaemonHolds.PortsInRangeIff | cuttlefish/cfctl/src/daemon/manager.rs:811 | No slot's port computation overflows sixteen bits if and only if the base port is at most 65436. |
| DaemonHolds.StrayDestroyTakesPort | cuttlefish/cfctl/src/daemon/manager.rs:1848-1890 | Destroying an unknown id beyond the slots can record a Failed instance with the port of slot 1. |
| DaemonGuests.StepGuest | cuttlefish/cfctl/src/daemon/guest.rs:153-177 | Any step leaves a registration alone unless it is a request for that instance that ends its guest or the removal by a watcher of that instance; new registrations have new generations; what it does to shown states and watchers. |
| DaemonGuests.RegisteredRunIff | cuttlefish/cfctl/src/daemon/guest.rs:153-177 | A guest stays registered, as the same generation, through exactly the runs in which no such step happens. |
| DaemonGuests.ShownRunIff | cuttlefish/cfctl/src/daemon/manager.rs:2206-2253 | Registered guests show as Running throughout a run if and only if no watcher writes the exit of an earlier guest and no request fails to see the guest's end and leaves it registered. |
| DaemonGuests.WatchedRunIff | cuttlefish/cfctl/src/daemon/manager.rs:1010-1036 | Every registered guest has a watcher throughout a run if and only if no start ends with an error and its guest registered. |
| DaemonWatchers.SameGuestIff | cuttlefish/cfctl/src/daemon/guest.rs:153-177 | At the end of any run an instance has the guest it began with if and only if no step ended its registration; otherwise a newer one or none. |
| DaemonWatchers.EvictsNewerIff | cuttlefish/cfctl/src/daemon/guest.rs:165-177 | Over any run between a watcher's comparison and its removal: the removal takes out a newer guest if and only if one is registered by then, because a step in between ended the registration of its own. |
| DaemonWatchers.PromptNeverEvicts | cuttlefish/cfctl/src/daemon/guest.rs:165-177 | With comparison and removal as one step, in every run watchers remove only their own handles. |
| DaemonWatchers.WatcherAdvances | cuttlefish/cfctl/src/daemon/manager.rs:2178-2253 | A watcher ends after at most four steps of its own, stays with its instance, and no request or other watcher moves it. |
| DaemonWatchers.NothingToRead | cuttlefish/cfctl/src/daemon/manager.rs:2207-2217 | With no metadata left it changes nothing and is done. |
| DaemonWatchers.EvictionHappens | cuttlefish/cfctl/src/daemon/guest.rs:171-173 | The run of five events in which a stop and a start fall into the gap and the new guest is taken out of the registry. |
| DaemonWatchers.LateWriteHappens | cuttlefish/cfctl/src/daemon/manager.rs:2178-2253 | From any host with an unregistered instance there is a run of six events that ends with a registered guest shown as Stopped. |
| DaemonWatchers.RecreatedOverwritten | cuttlefish/cfctl/src/daemon/manager.rs:2207-2249 | An instance made anew under an id whose old watcher is about to write ends with its predecessor's purpose, images and state. |
| DaemonFailures.FromNothing | cuttlefish/cfctl/src/daemon/mod.rs:213 | Over every run of a daemon started on an empty directory: ports belong to ids and differ between slots, and the run conditions above are exact. |
| DaemonFailures.FromThere | cuttlefish/cfctl/src/daemon/mod.rs:213 | In every state such a daemon gets to, holds protect and guests stay registered under the exact conditions above. |
| DaemonFailures.PreparationFailureHangs | cuttlefish/cfctl/src/daemon/manager.rs:901-917 | Create, then a start whose preparation fails: half-way. |
| DaemonFailures.PollFailureHangs | cuttlefish/cfctl/src/daemon/manager.rs:1351-1354 | Create, then a start whose poll fails: Starting, and still registered when the guest cannot be ended either. |
| DaemonFailures.KeptFilesHang | cuttlefish/cfctl/src/daemon/manager.rs:1258-1275 | Create, then a destroy, or either prune, that cannot remove the files: half-way. |
| DaemonFailures.UnseenEndHangs | cuttlefish/cfctl/src/daemon/manager.rs:1231-1237 | Create and start, then a destroy, or either prune, that cannot see the guest's end: half-way. |
| DaemonFailures.FailedWaitHangs | cuttlefish/cfctl/src/daemon/manager.rs:2194-2202 | Create and start, then a watcher whose wait fails: Running, no guest, nothing to be written. |
| DaemonFailures.UnverifiedBootUnwatched | cuttlefish/cfctl/src/daemon/manager.rs:1010-1025 | A start whose boot is not confirmed: Running, registered, and no watcher at all. |
| DaemonFailures.HoldOfDestroyed | cuttlefish/cfctl/src/daemon/manager.rs:1075-1091 | Create, a destroy that keeps the files, and a hold that succeeds: held, Destroyed and not listed. |
| DaemonFailures.ReadingRun | cuttlefish/cfctl/src/daemon/manager.rs:2206-2232 | A guest has exited and its watcher has read the metadata: settled, reached from an empty directory in four events. |
| DaemonFailures.HoldLost | cuttlefish/cfctl/src/daemon/manager.rs:2207-2249 | From there a hold succeeds and takes effect, the write takes it back, and the next prune of everything takes the instance. |
| DaemonFailures.DestroyUndone | cuttlefish/cfctl/src/daemon/manager.rs:2207-2249 | From there a destroy removes everything, and the write brings directory and metadata back. |
| DaemonFailures.RefusedDeployChanges | cuttlefish/cfctl/src/daemon/manager.rs:1280-1293 | A deploy that is refused leaves an instance deployed before booting the new boot image. |
| DaemonReplies.CreateServed | cuttlefish/cfctl/src/daemon/manager.rs:762-834 | A create is refused exactly when all 99 directories exist; else it takes the first free slot from the stored one on, answers and writes a new instance with its port, the default images and no hold, and stores the slot after it, going round. |
| DaemonReplies.StartServed | cuttlefish/cfctl/src/daemon/manager.rs:847-1036 | Every refusal of a start with its reason and order; the state and time stamp each outcome leaves; and a success names port and state as on disk. |
| DaemonReplies.CreateStartServed | cuttlefish/cfctl/src/daemon/manager.rs:836-845 | A create with a start does and answers what the two requests one after the other would. |
| DaemonReplies.StopServed | cuttlefish/cfctl/src/daemon/manager.rs:1038-1073 | A stop fails without metadata or when the guest's end cannot be seen; else it answers the state it wrote, Stopped unless processes remain or the exit seen was not a plain zero, dated by the last write. |
| DaemonReplies.HoldServed | cuttlefish/cfctl/src/daemon/manager.rs:1075-1091 | A hold succeeds exactly where there is metadata, and answers the state it found. |
| DaemonReplies.WaitServed | cuttlefish/cfctl/src/daemon/manager.rs:1317-1456 | Every outcome of a wait: its error, or port and state as on disk, and the time of the write. |
| DaemonReplies.DestroyServed | cuttlefish/cfctl/src/daemon/manager.rs:1093-1275 | A destroy succeeds exactly when the guest's end can be seen and no process is left; what remains of directory, artifacts and metadata in each case, for unknown instances too. |
| DaemonReplies.StatusServed | cuttlefish/cfctl/src/daemon/manager.rs:1811-1822 | A status is refused exactly when there is no metadata, answers what is on disk and changes nothing. |
| DaemonReplies.ListServed | cuttlefish/cfctl/src/daemon/manager.rs:539-598 | The list has exactly the instances with a directory and metadata that is not Destroyed, held or not, each with its port and state. |
| DaemonReplies.DeployServed | cuttlefish/cfctl/src/daemon/manager.rs:1277-1298 | A deploy is refused without metadata or when a copy fails; what each copy leaves in the artifacts, none made after a failing boot image; a successful one changes the images given and the time alone. |
| DaemonSlots.StepAllocates | cuttlefish/cfctl/src/daemon/manager.rs:762-803 | Over directories and cursor a create, alone or with a start, is one allocation, and no other step moves the cursor. |
| DaemonSlots.DaemonFair | cuttlefish/cfctl/src/daemon/manager.rs:762-803 | Between two creates of a running daemon that give the same slot every other slot was given out, or its directory existed when the cursor passed it, whatever requests and watchers did in between. |
| Manager.Store.RemoveIfHandle | cuttlefish/cfctl/src/daemon/guest.rs:165-177 | Only the very generation asked for is removed. |
| Manager.InstanceManager.Metadata | cuttlefish/cfctl/src/daemon/manager.rs:1892-1904 | The cached copy if there is one, else the file's; the cache is left as it is. |
| Manager.InstanceManager.WaitForAdb | cuttlefish/cfctl/src/daemon/manager.rs:1317-1456 | The deciding round and its bound as for the poll, success exactly when it answered, and the world the wait request specifies for that verdict. |
| Manager.InstanceManager.AwaitGuest | cuttlefish/cfctl/src/daemon/manager.rs:957-1036 | One timeout for both polls: each gets the seconds remaining, their deciding rounds and bounds hold, and the reply and the world follow from those rounds. |
| Manager.InstanceManager.StartInstance | cuttlefish/cfctl/src/daemon/manager.rs:847-1036 | Fields, files and registry end as the start function says for the polls' results; a start that reaches the polls succeeds exactly when the deciding adb round answers and the deciding boot round, if asked for, confirms. |
| Manager.InstanceManager.WaitReturns | cuttlefish/cfctl/src/daemon/manager.rs:2178-2186 | A watcher's first step: what it found in the registry decides whether it goes on to remove. |
| Manager.InstanceManager.RemoveMatched | cuttlefish/cfctl/src/daemon/guest.rs:171-173 | Its second step empties the entry whatever is registered by then. |
| Manager.InstanceManager.ReadExit | cuttlefish/cfctl/src/daemon/manager.rs:2206-2232 | Its third step reads the metadata, on a manager of its own, and puts the guest's end into the copy; without metadata it is done. |
| Manager.InstanceManager.WriteExit | cuttlefish/cfctl/src/daemon/manager.rs:2249-2250 | Its last step writes that copy whatever has been written since. |
| Manager.InstanceManager.CreateInstance | cuttlefish/cfctl/src/daemon/manager.rs:805-834 | The same for create, cursor included. |
| Manager.InstanceManager.StopInstance | cuttlefish/cfctl/src/daemon/manager.rs:1038-1073 | The same for stop. |
| Manager.InstanceManager.HoldInstance | cuttlefish/cfctl/src/daemon/manager.rs:1075-1091 | The same for hold. |
| Manager.InstanceManager.Deploy | cuttlefish/cfctl/src/daemon/manager.rs:1277-1298 | Artifacts, images and time end as the deploy function says, the boot image replaced also when the second copy fails. |
| Manager.InstanceManager.MarkMetadataState | cuttlefish/cfctl/src/daemon/manager.rs:1848-1890 | The state is recorded even where there was no metadata. |
| Manager.InstanceManager.PrepareDestroy | cuttlefish/cfctl/src/daemon/manager.rs:1191-1256 | Existing metadata is marked and the cached copy forgotten, also when the guest's end then cannot be seen. |
| Manager.InstanceManager.FinishDestroy | cuttlefish/cfctl/src/daemon/manager.rs:1258-1275 | The cleanup's effect for each of its outcomes. |
| Manager.InstanceManager.DestroyInstance | cuttlefish/cfctl/src/daemon/manager.rs:1093-1189 | A destroy over two managers ends as the destroy function says. |
| Manager.InstanceManager.PruneInstance | cuttlefish/cfctl/src/daemon/manager.rs:722-760 | A prune over two managers, whose view is taken over when guests remain; it counts exactly when the guest is gone. |
| Manager.InstanceManager.PruneExpiredInstances | cuttlefish/cfctl/src/daemon/manager.rs:600-662 | The loop over the listing yields the world and counts of the prune function, whose meaning is PruneMeaning. |
| Manager.InstanceManager.PruneAllInstances | cuttlefish/cfctl/src/daemon/manager.rs:664-720 | The same for the prune of everything. |
| LogTail.TailFile | cuttlefish/cfctl/src/daemon/util.rs:12-45 | Collects the last lines, at most as many as asked for, of the text behind the window's first newline, as lines are defined by the text alone; none holds a newline. |
| LogTail.LinesAreLines | cuttlefish/cfctl/src/daemon/util.rs:40 | The text is the lines one after the other, each followed by a newline or a return and a newline, the last possibly by nothing; no line holds a newline, and a return before a newline is part of none. |
| LogTail.OnlyLines | cuttlefish/cfctl/src/daemon/util.rs:40 | And no other list of lines has these properties. |
| LogTail.LastLinesMeaning | cuttlefish/cfctl/src/daemon/util.rs:41-43 | The last n are as many as there are, at most n, in their places. |
| LogTail.LinesSplit | cuttlefish/cfctl/src/daemon/util.rs:12-45 | Cutting a text where a line starts cuts its list of lines, for any text and cut. |
| LogTail.WindowLines | cuttlefish/cfctl/src/daemon/util.rs:12-45 | The text behind the window's first newline has exactly an end of the file's list of lines. |
| LogTail.TailIsSuffix | cuttlefish/cfctl/src/daemon/util.rs:12-45 | The lines collected are always an end of the whole file's lines, never a part of a line, and at most n. |
| LogTail.SmallFileExact | cuttlefish/cfctl/src/daemon/util.rs:12-45 | Up to one megabyte the answer is the file's last n lines. |
| LogTail.LastLinesStart | cuttlefish/cfctl/src/daemon/util.rs:12-45 | Any number of last lines begins at a line start, so the condition below always has its q. |
| LogTail.TailExactIff | cuttlefish/cfctl/src/daemon/util.rs:12-45 | On a larger file the answer is the last n lines if and only if the newline before them lies in the final megabyte. |
| Blit.CopyPixels | compositor-rs/src/main.rs:154-163 | The nested loops leave in each framebuffer position what the blit puts there, source and destination guards included. |
| Blit.DrawnPixels | compositor-rs/src/main.rs:154-163 | Every clip pixel that passes both guards arrives at its place, and every position that none lands on keeps its value. |
| Blit.OneDestination | compositor-rs/src/main.rs:154-163 | No two pixels of the clip have the same destination. |
| Blit.WholeClipIff | compositor-rs/src/main.rs:154-163 | The whole clip is copied if and only if its last pixel passes both guards. |
| Blit.PackedBlitExact | compositor-rs/src/main.rs:126-163 | For gapless rows and a full-size framebuffer the result is the buffer's top-left part over what was there. |
| Blit.PaddedRowsCut | compositor-rs/src/main.rs:126-128 | With gaps between rows the source slice ends too early: a concrete pixel is lost. |
| Blit.FullScreenIff | compositor-rs/src/main.rs:139-144 | With the length taken as a sixteen-bit product, a full-screen buffer's last pixel is copied if and only if the screen has fewer than 65536 pixels. |
| Supervisor.InvariantKept | qemu-init/init.zig:49-88 | One invariant over globals, children and counters survives every step of the main program and every signal, wherever it falls. |
| Supervisor.InvariantRun | qemu-init/init.zig:474-504 | So it holds after every interleaving of the handler with the loop. |
| Supervisor.Supervision | qemu-init/init.zig:474-504 | In every interleaving at most four children are spawned, at most one runs at a time, and respawns never exceed recorded exits. |
| Supervisor.ExitRespawns | qemu-init/init.zig:481-498 | From a test that finds an exit, with fewer than three respawns made, exactly one child is spawned by the fourth step of the program, wherever signals fall. |
| Supervisor.ExitAtLimit | qemu-init/init.zig:499-501 | With three made, none is spawned and the exit is cleared by the third step. |
| Supervisor.ExitAnswered | qemu-init/init.zig:478-504 | Over every run: between a test that finds an exit and the next heartbeat a child is spawned, or the limit was reached. |
| Supervisor.ChildBeginsEnding | qemu-init/init.zig:49-68 | When the supervised child exits, its pid is still remembered and its exit is waiting to be reaped. |
| Supervisor.ExitRecorded | qemu-init/init.zig:54-65 | Once the handler reaps it, whatever happens in between, the exit is recorded with the child's own status. |
| Supervisor.ShutdownEnds | qemu-init/init.zig:478-506 | After a termination signal the program takes at most eight more steps. |
| Supervisor.TerminationEnds | qemu-init/init.zig:51-53 | In particular after the signal itself, at whatever point it falls. |
| Supervisor.QuietRound | qemu-init/init.zig:478-504 | With nothing to notice the program goes round its loop and changes nothing. |
| Supervisor.QuietFork | qemu-init/init.zig:475-495 | A fork no signal meddles with leaves the new child supervised; the first leads into the loop, a later one to the heartbeat. |
| Supervisor.EndsOnlyOnShutdown | qemu-init/init.zig:478-506 | The loop ends only after such a signal. |
| Supervisor.AdriftForever | qemu-init/init.zig:474-504 | Once no child runs and no exit is noticed, nothing is ever spawned again, unless a stranger dies under the remembered pid. |
| Supervisor.SetAdriftIff | qemu-init/init.zig:70-88 | That state is entered in exactly three cases: the limit, a child reaped before its pid is stored, an exit recorded before the flag is cleared. |
| Supervisor.FirstExitLost | qemu-init/init.zig:85-86 | The run in which the first child's exit is lost between the two writes. |
| Supervisor.Globals.HandleTerminate | qemu-init/init.zig:51-53 | The globals follow the state machine on a termination signal. |
| Supervisor.Globals.HandleChild | qemu-init/init.zig:54-65 | For whatever children waitpid returns, the globals follow the state machine and keep its invariant. |
| Supervisor.Globals.SpawnChild | qemu-init/init.zig:70-88 | Without a signal in between, the new child is the supervised one and no exit is recorded. |

## Left out

- CpioIO.ReadCpio: what Python's `int(…, 16)` accepts beyond digits (signs, spaces, underscores, a `0x` prefix) is an error here, because such headers are outside the format.
- Names as text: they stay the bytes of the file, and the strict encoder is the test for UTF-8.
- Copies of entries: entries are values, so `clone` and the sharing of entry objects do not appear.
- Negative modification times, link targets that cannot be encoded, and other host file errors beyond missing and unsupported.
- The partial output file left when a name cannot be encoded, and the command line (`argparse`, `parse_mapping`).
- Process spawning, adb, pkill, lsof, ip, sockets, JSON, environment files, logging, trash and permission threads: only their outcome is a parameter.
- Isolation between ids when processes are matched by pattern: id 1 also matches 10 to 19.
- A request is one step against the watchers, which take no lock; interleaving inside a request is not modelled.
- Manager.InstanceManager.WaitForAdb: the handle is taken to stay registered while the loop polls.
- BootPoll.WaitForAdb: for the same reason no round loses the handle.
- Metadata and environment file writes and the clock are taken to succeed; preparing a start, polling and ending a guest, and removing files may fail.
- Images already removed by a cleanup that then fails: they are kept here.
- Destroys that time out, whose cleanup goes on after the reply.
- GuestHandle.Guest.WaitTimeout: no bound once a watcher waits on the handle, because the blocking wait keeps the mutex.
- Manager.Store.RemoveIfHandle: one step inside a request, as requests are single steps; the watchers' two calls are two steps.
- Prunes take no instance locks; here they are single steps like other requests.
- A daemon restarted over an existing state directory, which would start with no guests and no watchers.
- The read-only requests for logs and descriptions.
- Overflow checks of debug builds: port sums wrap, as in a release build.
- LogTail.TailFile: invalid UTF-8 at the window's start, a file that grows while it is read, and the joining of the lines.
- The compositor's mmap, DRM and Wayland objects, and the maps of surfaces, buffers and pools.
- In init.zig: mounts, modules, the gfx branches, the shutdown sequence, a failing fork.
- Supervisor.Globals.SpawnChild: signals between its writes are covered by the state machine, not by this method.
