# Durable state that stays right: a Dafny model

The system captures agent sessions into a vault and runs jobs and agents on top of it. Four of its
parts keep durable state that has to stay right across crashes, races and late writers; two more are
transformers that must be invertible or keep references. This project models them and proves what
they promise. `dafny verify dfyconfig.toml` checks everything.

| module | what it is about |
|---|---|
| `Wrappers`, `Paths` | option and result types; string order, sorted path sets, relative path validity |
| `CrashFile` | replacing a file and making a directory durable, with and without syncs |
| `JobProtocol`, `JobStore` | the attempt fence and ledger of a job, as a step relation with power loss, and the functions of `jobs.rs` as methods that take such steps |
| `Admission` | the queue of due jobs and its waiting bound |
| `Checkpoint`, `AgentRun`, `ReceiptStore` | the checkpoint order, the keyed receipt as a protocol of many processes, and the functions of `agent_run.rs` as methods |
| `DoorLock`, `LockStore` | the hard-link lock with flock-guarded recovery as a protocol, and its functions as methods among other processes |
| `DoorState`, `DoorRun`, `Door` | the frontier, whole runs of one door, and the door itself |
| `Launches` | one door together with the receipts of all its keys |
| `DeltaCodec`, `Reconstruction` | the body delta codec and the accumulator over envelopes |
| `Segments`, `Grammar`, `Generations` | the record reader, the values it reads, and reading a capture while it is being sealed |
| `Calendar` | the two civil-date algorithms against the Gregorian calendar |
| `SystemBlob`, `PiWriter` | splitting a rendered system message; writing a Pi session |

Protocols are given as a state, a `Step` datatype, `Enabled` and `Do`; a run is a sequence of steps
and `Reachable` states are those some run ends in. A file is what readers see plus what a power loss
would leave, and a power loss is possible between any two operations. Where the source is a set of
functions that change files or fields in place, a class has those fields and methods; a ghost list of
the protocol steps taken ties every method call to a run, so the theorems about reachable states hold
before and after each call. Methods that loop are proved against functions on values, and the
properties are lemmas about those functions.

## Where the code does not keep a promise

Each of these is kept as the code has it, with an exact condition and, where it is a run, a concrete
one.

- A ledger record whose newline was cut off passes the writability check; the next append glues to it
  and makes both records unreadable (`AppendedRecordReadableIff`, `ReadabilityFails`). "One record"
  and "no attempt lost" still hold, since the bytes are there.
- A compression fence that was renamed but not synced is resumed without a sync; a power loss can then
  erase the started attempt (`RunningSurvivesPowerLossIff`, `StartedAttemptCanVanish`).
- The checkpoint writer holds no lock between check and replacement, so a late one can turn a recorded
  success back into a pending claim (`ConclusiveStaysIff`, `ConclusiveCanRegress`). Launching at most
  once does not depend on it.
- `can_follow` is not transitive; the accepted-write relation is (`CanFollowIsNotTransitive`,
  `ReplacesIsPreorder`).
- The recorded pane of a capture uses the agent's own session id, so the session id a recovery waits
  for may change between two captures of one agent session (`SessionKeptIff`, `SessionMayChange`). It
  cannot where no agent session id is involved (`ChainKeepsSession`).
- The key of a legacy door claim leaves out content identity (`KeyDeterminesClaimIff`,
  `LegacyKeyIsShared`). Within one run it still stands for one claim (`AskedClaimsAreDisjoint`).
- The delta codec assumes the history key does not change to one under which the previous body already
  has an array (`ChainRightIff`, `KeyChangeBreaksChains`).
- The comment on `encode_delta` says degenerate bodies encode as an empty delta; a body with a
  non-array history still writes its other fields, and only the history is replaced by an empty array
  on replay (`RestoresBodyIff`).
- A live file whose last record is torn reads without error until it is detached, and not any more
  from then on (`DetachKeepsReadingIff`). Rewriting it while scrubbing adds the missing newline, which
  does not help; without redactions the file is not rewritten at all and keeps its unterminated end,
  which is harmless unless torn.
- Times from year 10000 on do not parse (`RoundTripIff`).
- Text after the concurrency note of an agent listing is dropped (`RendersBackIff`,
  `TextAfterNoteIsLost`).
- With zero ordinary turns an ordinary job waits for ever (`NoTurnsNoWork`).

## Model

| member | source | states |
|---|---|---|
| `JobProtocol.NoAttemptIsLost` | crates/plant/src/jobs.rs:682-766 | In every reachable state, with a power loss possible between any two operations and unsynced ledger bytes dropped, each published attempt is named by its fence (as readers see it and as it would survive), has a durable record, was marked retryable, or was waived as a declared safe repeat of a script without receipt. |
| `JobProtocol.OneRecordPerAttempt` | crates/plant/src/jobs.rs:1045-1083 | No interleaving of finish, compression resume, receipt reconciliation, operator unblock, failed write or sync, and crash ever gives an attempt id two ledger records. |
| `JobProtocol.StepKeepsInv` | crates/plant/src/jobs.rs:682-1081 | Each single step, including failed writes, write-back, power loss and arbitrary receipt changes, keeps the fence, ledger and lock-holder invariant both theorems rest on. |
| `JobProtocol.LastLineParsesIff` | crates/plant/src/jobs.rs:656-674 | A ledger may be appended to exactly when it is blank or its last non-blank line is one whole record. |
| `JobProtocol.RecordsStayReadable` | crates/plant/src/jobs.rs:613-654 | As long as no record was appended to a line that lacked its newline, every record in the ledger is found by the reconciling scan. |
| `JobProtocol.AppendedRecordReadableIff` | crates/plant/src/jobs.rs:1045-1054 | A record appended under the lock can be found again exactly when the ledger ended in a newline; otherwise the record before it, readable until then, becomes unreadable as well. |
| `JobProtocol.ReadabilityFails` | crates/plant/src/jobs.rs:656-674 | A run from an empty job in which two attempts end with durable records and no fence, and neither record can be found: `verify_ledger_writable` accepts a last record without its newline. |
| `JobProtocol.RunningSurvivesPowerLossIff` | crates/plant/src/jobs.rs:993-1015 | While an attempt runs, every power loss leaves it accounted for exactly when its fence is durable (or it was already marked retryable or waived). |
| `JobProtocol.StartedAttemptCanVanish` | crates/plant/src/jobs.rs:993-1015 | A run in which a half-published compression fence is resumed and a power loss then leaves a started attempt without any trace. |
| `JobProtocol.StartedAttemptsAccounted` | crates/plant/src/jobs.rs:906-920 | Every step other than the resume of an existing fence that starts an attempt leaves it published and accounted for. |
| `JobStore.AttemptFiles.Scan` | crates/plant/src/jobs.rs:613-654 | The line by line search finds, misses or refuses exactly as the specification scan does: first match wins, first malformed line is an error. |
| `JobStore.AttemptFiles.ReconcileFence` | crates/plant/src/jobs.rs:682-766 | There is no fence left exactly when there was none or a reason for its removal holds and the file operations it needs succeed; a compression is handed back exactly when its record is missing; the fence blocks exactly when no reason holds; a conclusive receipt becomes exactly one appended, synced record first; on an error the fence is in place, or gone for a reason with only the sync of its removal missing. |
| `JobStore.AttemptFiles.ReconcileFenceLive` | crates/plant/src/jobs.rs:792-820 | The second look happens exactly when the first is blocked by a checkpointed pending run that could be recovered; each outcome is given exactly by fence, ledger, decisive receipts and operations; an error leaves what one failed reconciliation leaves. |
| `JobStore.AttemptFiles.PublishAttempt` | crates/plant/src/jobs.rs:906-920 | An attempt is reported started only with its fence both visible and durable. |
| `JobStore.AttemptFiles.Begin` | crates/plant/src/jobs.rs:944-1015 | Once the ledger tail parses and no fence is left, a new attempt is published exactly for a due or manual start whose writes succeed, and a scheduled start that is not due does nothing; a scheduled start resumes exactly a compression fence in place; a start is blocked exactly by a fence that is held, or for a manual run by such a compression; an unparsable tail stops it before any file changes. |
| `JobStore.AttemptFiles.AppendLedgerRecord` | crates/plant/src/jobs.rs:1045-1054 | Exactly the bytes that were written are appended, and success means the whole record is durable. |
| `JobStore.AttemptFiles.FinishAttempt` | crates/plant/src/jobs.rs:1073-1083 | The fence is gone only after the record of its attempt is durable, whichever operation fails. |
| `JobStore.AttemptFiles.MarkAttemptRetryable` | crates/plant/src/jobs.rs:1018-1022 | Same fence with its flag set, ledger untouched. |
| `JobStore.AttemptFiles.UnblockJob` | crates/plant/src/jobs.rs:835-877 | Exactly one abandonment record, exactly for a fence ordinary reconciliation would keep and when its writes succeed; a fence that goes by itself or can be resumed is not forced; without a fence nothing happens; on an error the fence is in place or its record is durable. |
| `Admission.DueJobAdmission.Refresh` | crates/plant/src/jobs.rs:369-379 | The pending queue becomes what is still due in its old order, followed by new due names in theirs. |
| `Admission.DueJobAdmission.TakeWithReserved` | crates/plant/src/jobs.rs:391-408 | The in-place take returns and keeps exactly the two halves of the specification split. |
| `Admission.DueJobAdmission.Requeue` | crates/plant/src/jobs.rs:410-415 | A name is added at the back unless it is queued already. |
| `Admission.TakeSplits` | crates/plant/src/jobs.rs:391-408 | A take is an order-keeping split of the queue, takes every reserved job and min(turns, ordinary) ordinary ones. |
| `Admission.ReservedAreSelected` | crates/plant/src/jobs.rs:456-462 | A due `health` or `seal-push` is selected in every round, whatever the turns. |
| `Admission.RefreshIsOrdered` | crates/plant/src/jobs.rs:369-379 | A refresh leaves what is queued in front and adds new due names in the order in which they are first listed. |
| `Admission.QueueStaysDistinct` | crates/plant/src/jobs.rs:1509-1561 | Over any sequence of refresh, take and requeue rounds the queue never holds a name twice. |
| `Admission.SelectedIff` | crates/plant/src/jobs.rs:391-408 | A due ordinary job is selected in a round exactly when fewer ordinary jobs than turns are ahead of it. |
| `Admission.BoundedWait` | crates/plant/src/jobs.rs:363-415 | With at least one turn, a job with k ordinary jobs ahead that stays due is selected within floor(k/turns)+1 takes, whatever arrives, leaves or is requeued. |
| `Admission.NoTurnsNoWork` | crates/plant/src/jobs.rs:391-408 | With no ordinary turns no ordinary job is ever selected, so the bound needs its condition. |
| `CrashFile.Path.ReplaceFile` | crates/plant/src/state.rs:107-139 | With `Fsync`, wherever the call stops, a power loss leaves what it could have left before or the whole new content, and after success only the new content; with `Rename`, success leaves the old entry or any prefix of the new bytes, exactly. |
| `CrashFile.RenameMayTear` | crates/plant/src/state.rs:94-103 | Without syncs a replacement is atomic for readers, yet no single content is sure to survive, not even a whole one. |
| `CrashFile.SyncedStays` | crates/plant/src/state.rs:94-103 | What is synced stays whole, what was never made stays absent, and a synced entry of unsynced bytes leaves any prefix of them. |
| `CrashFile.Ancestors.EnsureDirDurable` | crates/plant/src/state.rs:54-90 | On success every prefix of the path is a directory and every one that was missing is synced; existing entries are never changed, and another file on the way is refused. |
| `Checkpoint.ReplacesIffKeepsIdentity` | crates/plant/src/herdr.rs:467-482 | An update replaces the recorded checkpoint exactly when it keeps target, terminal and bound session and does not lower the rank. |
| `Checkpoint.ReplacesIsPreorder` | crates/plant/src/herdr.rs:467-557 | The accepted-write relation is reflexive and transitive. |
| `Checkpoint.CanFollowIsNotTransitive` | crates/plant/src/herdr.rs:467-482 | Three checkpoints for which `can_follow` alone fails to be transitive. |
| `Checkpoint.ChainKeepsIdentity` | crates/plant/src/agent_run.rs:254-300 | Over any updates in any order, what is recorded later keeps the target, terminal and bound pane session and never a lower rank than what was recorded earlier; for the session id of a capture see the next rows. |
| `Checkpoint.SessionMayChange` | crates/plant/src/herdr.rs:376-393 | Two captures of one agent session, in one pane, under different session ids, the second of which replaces the first. |
| `Checkpoint.SessionKeptIff` | crates/plant/src/herdr.rs:420-446 | Once a session is bound, an accepted update is sure to keep the session id a recovery waits for exactly when neither side is a capture with an agent session id of its own. |
| `Checkpoint.ChainKeepsSession` | crates/plant/src/agent_run.rs:62-80 | Over any updates without agent session ids, in any order, a recorded session id is never replaced by another. |
| `AgentRun.AtMostOneLaunch` | crates/plant/src/agent_run.rs:182-346 | In every interleaving of claimers, crashes, checkpoint writes, recovery and late completion, one key passes the Herdr probe at most once. |
| `AgentRun.LaunchedReceiptStays` | crates/plant/src/agent_run.rs:304-346 | Once the probe was passed, no step or power loss removes the receipt, and no second claim, probe or release is possible. |
| `AgentRun.ReleaseDropsOnlyOwnClaim` | crates/plant/src/agent_run.rs:323-334 | The early unavailable exit removes nothing but an untouched claim of a run that was never launched, while no other process is at work on the key. |
| `AgentRun.ConclusiveStaysIff` | crates/plant/src/agent_run.rs:230-300 | A conclusive receipt stays conclusive through every step except a checkpoint replacement, which then acts on an outdated check, and a power loss before the receipt was synced. |
| `AgentRun.ConclusiveIsAbsorbing` | crates/plant/src/agent_run.rs:230-391 | With check and replacement taken as one step and no power loss, a conclusive receipt stays conclusive over every run. |
| `AgentRun.ConclusiveCanRegress` | crates/plant/src/agent_run.rs:254-300 | A reachable state in which a durable success becomes pending again, because no lock is held between check and replacement. |
| `AgentRun.FreshReplacementKeepsIdentity` | crates/plant/src/agent_run.rs:254-300 | A replacement acting on the record it checked is an accepted update of that record. |
| `AgentRun.RecordedIdentitySurvives` | crates/plant/src/agent_run.rs:254-391 | Over a whole run of launchers, recoverers and deaths with up-to-date replacements and no power loss, the recorded target, rank, terminal and session survive until the receipt is conclusive. |
| `AgentRun.DurableIdentitySurvives` | crates/plant/src/agent_run.rs:254-391 | An identity on stable storage survives every later step with up-to-date replacements, any number of power losses included: the receipt, visible and durable, is conclusive or keeps target, terminal and session and at least the rank. |
| `AgentRun.DurableConclusionStays` | crates/plant/src/agent_run.rs:230-391 | A conclusive receipt on stable storage stays conclusive over every such run, power losses included. |
| `ReceiptStore.ReceiptFile.ClaimAgentRun` | crates/plant/src/agent_run.rs:182-228 | Execution is granted only on a file that did not exist and is now whole and durable; an existing receipt is left alone and answered for what it is; a failed creation is undone. |
| `ReceiptStore.ReceiptFile.PersistAgentCheckpoint` | crates/plant/src/agent_run.rs:254-300 | It succeeds exactly when there is a whole receipt, conclusive or with a checkpoint that can be followed, and a write that is needed goes through; the file changes only by an accepted replacement. |
| `ReceiptStore.ReceiptFile.PersistAgentOutcome` | crates/plant/src/agent_run.rs:230-252 | The outcome replaces whatever the file holds, and success means it is durable. |
| `ReceiptStore.ReceiptFile.ReleaseClaim` | crates/plant/src/agent_run.rs:323-334 | Release leaves no file, and success means a durable absence. |
| `ReceiptStore.ReceiptFile.Work` | crates/plant/src/herdr.rs:1249-1262 | The work goes on exactly as long as each report is recorded in the file it meets, whatever other processes do meanwhile, and the files are then those after all these turns. |
| `ReceiptStore.ReportsInOrder` | crates/plant/src/agent_run.rs:254-300 | Undisturbed reports whose writes succeed are all recorded when each may replace the one before it. |
| `ReceiptStore.ReceiptFile.RunIdempotent` | crates/plant/src/agent_run.rs:304-346 | A conclusive receipt is replayed and any other refused, without any change; a launched run concludes with its own outcome exactly when every report was recorded, and as failed otherwise; it answers that conclusion exactly when the last write is durable; it answers retryable exactly when the claim was made and released without launch. |
| `ReceiptStore.ReceiptFile.RecoverPending` | crates/plant/src/agent_run.rs:348-391 | It succeeds exactly for the checkpoint that was looked up, with every observation recorded, a decided outcome and a durable last write; recovery never launches. |
| `DoorLock.MutualExclusion` | ts/vaultr-door/state.ts:495-571 | With any number of processes publishing, dying, recovering and releasing in any interleaving, at most one live process holds the lease. |
| `DoorLock.RecoveryRemovesOnlyStale` | ts/vaultr-door/state.ts:426-493 | A recoverer removes the name only while it names the flocked inode of a dead owner; no live lease is lost, and no second recoverer is that far. |
| `DoorLock.LeaseIsStable` | ts/vaultr-door/state.ts:532-571 | No step of another process takes the lease or the entry from a live holder, so its release finds its own token. |
| `DoorLock.StaleLockIsRecoverable` | ts/vaultr-door/state.ts:426-571 | From every state whose lock owner is dead, an idle process can reach the lease, also when another recoverer holds the kernel lock and then fails or dies. |
| `LockStore.LockDirectory.AcquireLock` | ts/vaultr-door/state.ts:532-571 | With other processes taking any steps in between, a returned lease is held by this process alone and the name is its own lock file; without a lease nothing of ours is left in progress. Undisturbed, a free name or a removable stale lock gives the lease, and a live owner gives busy. |
| `LockStore.LockDirectory.PublishLock` | ts/vaultr-door/state.ts:495-525 | Publication succeeds exactly when the name was free at the moment of linking; then the name stays ours and the lease is held. |
| `LockStore.LockDirectory.RecoverStaleLock` | ts/vaultr-door/state.ts:426-493 | The name is removed only while it links to the file of a dead owner whose kernel lock is held here; every exit leaves the process without lock or claim. |
| `LockStore.LockDirectory.ReleaseLock` | ts/vaultr-door/state.ts:552-565 | The holder always finds its own token, and the name is free afterwards. |
| `DoorState.ExactNovelty` | ts/vaultr-door/state.ts:573-592 | After advancing over a claim with last mtime m, a file is new exactly when it was new before and is later than m, or equals m and was not claimed. |
| `DoorState.ClaimedIsOld` | ts/vaultr-door/state.ts:573-592 | No file of a sorted claim is new after the advance. |
| `DoorState.AdvancedFrontierIsValid` | ts/vaultr-door/state.ts:159-172 | Advancing a valid frontier over well formed files gives a valid frontier: sorted, without repeats, above the closed path. |
| `DoorState.MigrationKeepsNovelty` | ts/vaultr-door/state.ts:261-321 | Migrating a legacy state keeps exactly the same set of new files, and the result is accepted by the loader. |
| `DoorState.MigrationCarriesOver` | ts/vaultr-door/state.ts:261-321 | Migration succeeds exactly on states an older version could have written, and carries over fires, pause, and the pending claim with its files, key and cursor. |
| `DoorState.CursorFrontierExact` | ts/vaultr-door/state.ts:281-291 | The frontier a cursor migrates to admits exactly the files the old comparison put after the cursor. |
| `DoorRun.FilesAreClaimedOnce` | ts/vaultr-door/index.ts:197-276 | Over any run with crashes, power losses, retries and re-arms, two completions whose claims share a (path, mtime) pair are completions of one and the same claim, lost saves included. |
| `DoorRun.SavedStatesLoad` | ts/vaultr-door/state.ts:216-259 | Every state a door saves is accepted by its loader. |
| `DoorRun.KeyNamesBatch` | ts/vaultr-door/state.ts:181-203 | Two acceptable claims with one key are over the same frontier and files, and identical unless the claim is a legacy one. |
| `DoorRun.KeyDeterminesClaimIff` | ts/vaultr-door/state.ts:191-203 | A key stands for one claim, contents included, exactly when the claim is not a legacy one. |
| `DoorRun.LegacyKeyIsShared` | ts/vaultr-door/state.ts:191-203 | Two acceptable legacy claims on one file with different contents and one key. |
| `DoorRun.PendingKeyIsFresh` | ts/vaultr-door/index.ts:158-195 | A pending claim has the key of a claim ever handed to an agent exactly when it is that claim. |
| `DoorRun.NewBatchIsFresh` | ts/vaultr-door/index.ts:182-194 | A newly prepared batch shares no file and no key with any claim ever handed to an agent, so no cached receipt can swallow it. |
| `DoorRun.AskedClaimsAreKept` | ts/vaultr-door/index.ts:197-232 | Whatever power is lost, every claim ever handed to an agent is recorded as done or still pending, in the visible and in the durable state. |
| `DoorRun.AskedClaimsAreDisjoint` | ts/vaultr-door/state.ts:181-203 | Two claims ever handed to an agent are the same claim, or share no file and no key; this includes legacy claims. |
| `DoorRun.CompletedKeysDiffer` | ts/vaultr-door/index.ts:219-255 | Two completions of the whole run have one key exactly when they are of one claim, and that claim is recorded or still pending in the durable state. |
| `DoorRun.AtMostMaxFiresPerWindow` | ts/vaultr-door/index.ts:170-194 | With a clock that does not go back, at most `max` different claims are completed in any one hour of the whole run, completions with a lost save included, although fires are counted when claiming and recorded when completing. |
| `DoorRun.PausesIff` | ts/vaultr-door/index.ts:170-181 | A door that is about to claim pauses exactly when `max` of its recorded fires lie within the last hour, and claims otherwise. |
| `Door.Scan` | ts/vaultr-door/index.ts:120-156 | The result is exactly the listed files that are new and kept, in ascending order. |
| `Door.DoorStore.SaveState` | ts/vaultr-door/state.ts:344-364 | A successful save is visible and durable, an unsynced one visible only, an unpublished one changes nothing. |
| `Door.DoorStore.PrepareClaim` | ts/vaultr-door/index.ts:158-195 | Nothing new, the fire limit, and a claim on exactly the new kept files are told apart exactly by listing, frontier, recent fires and the save; nothing new leaves the files alone, the limit pauses without a claim, a failed save leaves the durable state. |
| `Door.DoorStore.BindLegacyClaim` | ts/vaultr-door/index.ts:87-113 | A claim is refused exactly when it needs content and cannot be given it; whatever the outcome it stays on the same files in the same order; a refusal changes nothing, and a failed save leaves the durable state as it was. |
| `Door.DoorStore.CompleteClaim` | ts/vaultr-door/index.ts:252-263 | A success records one fire, removes the claim and closes exactly its files; a failed save leaves the durable state with the claim. |
| `Door.DoorStore.LaunchClaim` | ts/vaultr-door/index.ts:231-263 | No agent is asked on changed files, a run without a durable receipt holds everything back, and each outcome is exact in files, receipt and save. |
| `Door.DoorStore.Fire` | ts/vaultr-door/index.ts:197-276 | Each outcome is given exactly by the loaded state, listing, fire limit, identities, file changes, receipt and saves. In particular an agent is asked exactly when a claim was taken up and bound and its files are unchanged, and a claim is completed exactly then and on a durable receipt; every other outcome keeps the durable frontier, and what is on disk keeps the claim. |
| `Launches.ClaimsLaunchOnce` | ts/vaultr-door/index.ts:219-255 | Door and receipts together: each key launches at most one agent, and each claim ever completed launched exactly one. |
| `Launches.LaunchesMatchCompletions` | crates/plant/src/agent_run.rs:304-346 | Over the whole run, completions of different claims belong to different launches over disjoint files. |
| `Launches.OneLaunchPerFile` | crates/plant/src/agent_run.rs:304-346 | Over any run, with whatever crashes and lost saves, at most one agent is launched on each (path, mtime) pair. |
| `Launches.LaunchesBelongToClaims` | ts/vaultr-door/index.ts:219-232 | Every launch was for exactly one claim, and that claim is recorded or still pending on disk. |
| `Launches.FreshBatchHasNoReceipt` | ts/vaultr-door/state.ts:181-189 | A batch about to be claimed has no receipt under its key, and no agent was ever launched on any of its files. |
| `DeltaCodec.CommonPrefixIsLongest` | crates/vaultr/src/recon.rs:670-673 | The common prefix is common and cannot be longer. |
| `DeltaCodec.EncodeDelta` | crates/vaultr/src/recon.rs:682-723 | Set holds exactly the changed or small fields, remove exactly the vanished ones once each, and the history part is the common prefix and what follows it. |
| `DeltaCodec.ReplayedIffAligned` | crates/vaultr/src/recon.rs:726-788 | A history delta lands on the body's history exactly when the messages held begin with what the delta keeps; it is refused exactly when they are too short. |
| `DeltaCodec.ReplayedAsShaped` | crates/vaultr/src/recon.rs:726-788 | Of all deltas, exactly these are accepted: append with a prefix no longer than the messages, append without prefix, and an order of known ids; the first keeps the prefix and appends, the second appends, the third replaces all messages by those its ids stand for and adds its own to the dictionary. |
| `DeltaCodec.RestoresBodyIff` | crates/vaultr/src/recon.rs:675-681 | Replaying a delta over the prior body never fails, and restores the body exactly when it is an object with an array history. |
| `DeltaCodec.ChainRightIff` | crates/vaultr/src/recon.rs:682-788 | For any chain of bodies and keys, the fold holds the latest history after every turn exactly when each turn keeps no more than the history really replayed. |
| `DeltaCodec.SteadyKeyChainIsRight` | crates/vaultr/src/recon.rs:682-788 | Under one history key, or a change to a key without an array in the previous body, folding never fails and leaves the last body's history, for bodies of any shape. |
| `DeltaCodec.KeyChangeBreaksChains` | crates/vaultr/src/recon.rs:682-788 | Two chains with a changed key: one the fold refuses, one it replays wrongly without an error. |
| `DeltaCodec.ResolvedExactly` | crates/vaultr/src/recon.rs:764-783 | An order delta resolves exactly when every entry is an id known to it or to the dictionary, its own entries first. |
| `DeltaCodec.OrdersStayResolvable` | crates/vaultr/src/recon.rs:764-783 | An order that resolved once resolves after any further deltas, and to the same messages unless an id was redefined. |
| `Reconstruction.ReconState.ApplyDelta` | crates/vaultr/src/recon.rs:726-788 | The in-place delta accepts exactly the well-shaped deltas, does to messages and dictionary what their shape says, and changes nothing when it fails. |
| `Reconstruction.ReconState.Apply` | crates/vaultr/src/recon.rs:539-587 | One envelope updates harness, fold, key, count and trailing output together, or changes nothing. |
| `Reconstruction.HarnessIsTheAgreedLabel` | crates/vaultr/src/recon.rs:18-25 | The harness is the label all labelled envelopes agree on, and without labels Codex exactly when some history key was "input". |
| `Reconstruction.KeyIsLastNamed` | crates/vaultr/src/recon.rs:539-587 | The history key is the last one an envelope named, and "messages" before the first. |
| `Reconstruction.FirstEnvelopeReads` | crates/vaultr/src/recon.rs:539-587 | Where an envelope keeps label and history, and what the labels codex, claude and claude-code mean. |
| `Reconstruction.EnvelopesFold` | crates/vaultr/src/recon.rs:539-587 | With agreeing labels, a capture fails exactly where the fold of its deltas fails, and otherwise holds the same messages. |
| `Reconstruction.CaptureReconstructs` | crates/vaultr/src/recon.rs:387-391 | A capture encoded under one key reconstructs to the last request's history followed by the last response. |
| `Segments.RunSegment` | crates/vaultr/src/recon.rs:604-668 | The record loop visits and refuses exactly what the specification reader does. |
| `Segments.ReadValues` | crates/vaultr/src/recon.rs:638-665 | The stream over one record yields every complete value and says whether other text is left. |
| `Segments.CutReadsPrefix` | crates/vaultr/src/recon.rs:604-668 | A live file cut after any byte reads without error and yields a prefix of what the whole file yields, also with several values in one record. |
| `Segments.SealedReadsIff` | crates/vaultr/src/recon.rs:604-668 | A sealed segment reads as given values exactly when it consists of these values, line by line with whitespace around them; anything else is rejected. |
| `Segments.SealedReadIsComplete` | crates/vaultr/src/recon.rs:604-611 | A sealed segment that is accepted was read in full. |
| `Grammar.CompleteIff` | crates/vaultr/src/recon.rs:604-611 | A value is complete exactly when it is an object of plain characters, quoted strings with escapes, and further objects. |
| `Segments.HeldIsRead` | crates/vaultr/src/recon.rs:604-668 | Whatever consists of complete values is read as exactly these values, by either kind of reading. |
| `Segments.ReadUntorn` | crates/vaultr/src/recon.rs:612-668 | Text without a torn tail, with or without a final newline, read strictly and then the rest: the same values and success as reading both together. |
| `Segments.ReadConcat` | crates/vaultr/src/recon.rs:612-668 | Reading newline-terminated text strictly and then the rest is reading both together, record numbers included. |
| `Segments.StrictDiffersIffTorn` | crates/vaultr/src/recon.rs:646-660 | Strict and tolerant reading differ exactly on text that is sound up to a torn tail, and then only in the error. |
| `Generations.VisitSnapshot` | crates/vaultr/src/recon.rs:393-439 | The snapshot reader does what the specification says, including every lineage error. |
| `Generations.LineageErrorsIff` | crates/vaultr/src/recon.rs:402-431 | Each lineage error is reported exactly for what it names: a base without a sealed file, a sealed file shorter than the base, a longer one without a frame beginning there, or with other content there. |
| `Generations.SuffixIff` | crates/vaultr/src/recon.rs:321-332 | A suffix can be decoded exactly where a frame begins, and is then the frames from there on. |
| `Generations.SealingIsInvisible` | crates/vaultr/src/recon.rs:393-439 | In every state of detaching (as it is, or rewritten with a final newline), committing a frame and dropping the detached file, with records arriving meanwhile, a snapshot visits exactly what one reading of the whole log visits, and fails exactly when that fails, as long as nothing with a torn tail was detached. |
| `Generations.EnvelopesVisitedOnceInOrder` | crates/vaultr/src/recon.rs:335-340 | Every envelope of the log is visited once and in order through all stages of sealing; a last write cut short costs only itself. |
| `Generations.StepKeepsInv` | crates/plant/src/capture/generation.rs:203-235 | Each step of the sealing writer keeps the log equal to frames, waiting generation and live file together, and everything sealed readable unless a torn tail was detached. |
| `Generations.DetachKeepsReadingIff` | crates/plant/src/capture/generation.rs:30-116 | In every state without a detached generation, detaching, rewritten or not, leaves the visit as it was exactly unless the live file has a torn tail that was tolerated until then; in that case the capture fails from then on. |
| `Generations.DetachStaysReadableIff` | crates/plant/src/capture/generation.rs:203-235 | A reachable capture that reads without error keeps its visit through detaching exactly when what is detached has no torn tail. |
| `Calendar.CivilIsTheCalendar` | crates/plant/src/capture.rs:120-136 | `civil` prints the first of January 1970 for day 0 and the next calendar date for each next day. |
| `Calendar.CivilIsValidAndInverted` | crates/plant/src/capture.rs:120-136 | Every date printed is a valid Gregorian date, and the parser's day count inverts it. |
| `Calendar.CivilOf` | crates/vaultr/src/learn.rs:192-203 | Every valid date is what `civil` prints for its day count, so the two algorithms are inverse both ways. |
| `Calendar.RoundTripIff` | crates/vaultr/src/learn.rs:184-203 | For s seconds and r nanoseconds from the epoch, `iso_to_epoch(iso_at(t))` is s exactly up to the end of year 9999, and nothing from year 10000 on. |
| `Calendar.IsoLayout` | crates/plant/src/capture.rs:112-117 | The printed text by position: 24 characters, the marks at 4, 7, 10, 13, 16, 19 and 23, and between them year, month, day, hour, minute, second and milliseconds. |
| `Calendar.BeforeEpoch` | crates/plant/src/capture.rs:112-114 | Times before the epoch print as the epoch. |
| `Calendar.CutTimesParse` | crates/vaultr/src/learn.rs:184-191 | A printed time parses the same with any part of its fraction, and not at all when shorter. |
| `Calendar.StringOrderIsTimeOrder` | crates/plant/src/capture.rs:112-117 | Up to the end of year 9999, for times in nanoseconds from the epoch, string order is the order of milliseconds, and equal strings mean equal milliseconds. |
| `SystemBlob.ParseSystemBlob` | crates/vaultr/src/claude_writer.rs:192-266 | Marks found, sorted and deduplicated, segments cut and parsed; what is returned renders back to the input exactly when no text follows a concurrency note. |
| `SystemBlob.RendersBackIff` | crates/vaultr/src/claude_writer.rs:179-191 | Whenever attachments are returned, rendering and joining them gives the input byte for byte, exactly when no agent listing has text after its concurrency note. |
| `SystemBlob.HookIsExact` | crates/vaultr/src/claude_writer.rs:224-234 | A hook segment is divided at its first formula, and the event is the name up to its first colon. |
| `SystemBlob.ListingIsExact` | crates/vaultr/src/claude_writer.rs:235-259 | A listing has the note exactly when its text occurs, its lines are those before the last occurrence, and its types name the lines with a dash, in order, up to the first colon. |
| `SystemBlob.NothingIff` | crates/vaultr/src/claude_writer.rs:213-217 | Nothing is returned exactly when no mark stands at the start or a header is cut by the next blank line; hook segments always split. |
| `SystemBlob.MarksAreExact` | crates/vaultr/src/claude_writer.rs:195-212 | The marks are exactly the listing and skill headers that begin a paragraph, and the short lines followed by a hook formula that does not overlap an earlier counted one. |
| `SystemBlob.MarksAreApart` | crates/vaultr/src/claude_writer.rs:195-212 | Two marks never begin at one place, and each later one follows a blank line of its own. |
| `SystemBlob.TextAfterNoteIsLost` | crates/vaultr/src/claude_writer.rs:236-241 | A message whose rendering loses one character after the concurrency note. |
| `PiWriter.SessionWriter.AppendEntry` | crates/vaultr/src/pi_writer.rs:264-283 | One entry is added below the last one, one millisecond later, under an unused id. |
| `PiWriter.SessionWriter.EntryId` | crates/vaultr/src/pi_writer.rs:285-292 | The first draw that was not used before is taken and remembered. |
| `PiWriter.SessionWriter.FlushUserText` | crates/vaultr/src/pi_writer.rs:230-246 | Gathered texts become exactly one user message entry with these texts and the next millisecond; none are written when there are none. |
| `PiWriter.SessionWriter.WriteAssistant` | crates/vaultr/src/pi_writer.rs:99-152 | All blocks of the message, in order, become exactly one message, and none when there are none; tool calls are mapped exactly when valid and known. |
| `PiWriter.SessionWriter.WriteUser` | crates/vaultr/src/pi_writer.rs:153-215 | Texts are flushed before each result, and a result is answered to its call exactly when the call is known. |
| `PiWriter.SessionWriter.Write` | crates/vaultr/src/pi_writer.rs:84-226 | The entries form one parent chain with distinct ids and rising times; flattened, they are the input blocks one for one in order; calls take the drawn call ids in order; nothing is written exactly when there is nothing to write; the session gets through whenever there are more different draws than blocks and one. |
| `PiWriter.ResultsNameEarlierCalls` | crates/vaultr/src/pi_writer.rs:184-207 | Every tool result names a call made by an earlier entry, under the same tool name, and both come from blocks with one correlation id. |
| `PiWriter.CallIdsDiffer` | crates/vaultr/src/pi_writer.rs:112-124 | With different draws no two tool calls share an id, so a result names one call only. |

## Left out

- HTTP, TLS, WebSocket and the proxy tee, the broker, Herdr socket traffic, prompts, sleeps and time-outs: observations and outcomes are inputs of the methods and free choices of the step relations.
- Script execution, process spawning, worker leases, job discovery and the command line: an execution is a chosen outcome.
- Credentials, tracing, rendering, learn-record folding, duration parsing and header scanning: small functions that read off one body.
- Symlink and path containment checks, inode revalidation of a snapshot's inventory, and permissions: environment assumptions.
- Lock-busy answers of the per-job lock and of the door: a process that does not get the lock takes no step.
- JobProtocol.NoAttemptIsLost: is about one job, as fence, lock and ledger are per job and nothing else is shared; attempt ids are fresh random numbers, and other jobs' receipts appear only as arbitrary receipt changes.
- JobProtocol.AppendedRecordReadableIff: ledger bytes are modelled as whole records, cut records and newlines; a power loss leaves a prefix of them, possibly ending in a cut record.
- JobStore.AttemptFiles.Begin: whether a job is due is an input; the reads of the last ledger timestamp are not modelled.
- JobStore.AttemptFiles.ReconcileFenceLive: the recovery of a pending run is an input, the receipts it leaves; `ReceiptStore` models that recovery.
- AgentRun.AtMostOneLaunch: a launch is the passing of the Herdr probe; workspaces, panes and their clean-up are not modelled.
- AgentRun.RecordedIdentitySurvives: is stated without power loss, because a reverted write also reverts the identity it recorded; `DurableIdentitySurvives` has power losses. Both take check and replacement as one step, which the code does not guarantee (`ConclusiveCanRegress`).
- ReceiptStore.ReceiptFile.RunIdempotent: other processes may take any steps while the agent works, not between the file operations of one call; `AgentRun` has all interleavings.
- ReceiptStore.ReceiptFile.ClaimAgentRun: a digest collision of two keys is not modelled, a receipt file belongs to one key.
- Legacy receipt formats and the Herdr event subscription: conversions and waiting that end in one of the modelled checkpoints.
- DoorLock.MutualExclusion: assumes that a pid reported dead stays dead; polling for an incomplete owner file and retry counts are free choices of the process.
- LockStore.LockDirectory.AcquireLock: file errors while writing or linking the lock file are not modelled here; `DoorLock` has the aborted publication as a step.
- DoorRun.AtMostMaxFiresPerWindow: counts claims; a completion repeated because its save was lost is the same claim with the same receipt and launches nothing.
- DoorState.MigrationKeepsNovelty: timestamps are the ordered bit patterns of non-negative doubles; type checks on parsed JSON are not modelled.
- Door.DoorStore.Fire: file contents, globbing and prompts are inputs: the listing with its identities, and whether claimed files are unchanged.
- Launches.ClaimsLaunchOnce: one door with the keys it asks for; other users of the receipt directory use other keys.
- SHA-256 is an injective function: door keys are the hashed tuples, and the digest of a generation is its text.
- DeltaCodec.EncodeDelta: JSON numbers are integers, and object members have no order.
- Reconstruction.CaptureReconstructs: what a response yields for a harness is a function given from outside.
- Segments.CutReadsPrefix: envelope values are objects of a small grammar (nested braces, strings, escapes); other JSON values count as malformed text, and the contents of an object are not checked further. A visitor that fails stops the original reader; here visitors do not fail.
- Generations.SealingIsInvisible: redaction of the text while scrubbing is not modelled, only the newline that rewriting adds; captures whose generations lack a final newline are taken to hold no form feed, which JSON text cannot contain (section 7 of RFC 8259); zstd frames decode to their text and begin at their byte offsets only (section 3.1 of RFC 8878).
- Herdr sidecar generations: sealed by the same steps as captures.
- Calendar.RoundTripIff: times are integers of nanoseconds; a clock beyond 64-bit seconds is not modelled.
- SystemBlob.ParseSystemBlob: a character is one byte; tool use ids drawn for hooks are left out.
- PiWriter.SessionWriter.EntryId: the original draws for ever; here the draws are a finite list that may run out, and then the session is not written (`Write` says how many different draws suffice).
- PiWriter.SessionWriter.Write: the session header line, usage counters and file placement are left out; the tool vocabulary, call ids and the set of valid correlations are inputs, so the result holds for any of them.
