# Verification of the local brain core

This project models eight stateful parts of the local brain service in Dafny and proves what each of
them is for. The main one is the restore of a brain from a cloud bundle: a journaled transaction over
directories and JSON files that may be cut short between any two steps.

| file | models |
|---|---|
| `RestoreDisk.dfy` | the disk as slots (trees, registry, journal, receipts, idempotency maps), one step per directory move or atomic write, and faults: an exception or the death of the process at any step, with a partly built or partly removed tree left behind |
| `RestoreApply.dfy`, `RestoreRollback.dfy` | apply, its undo, recovery on replay, the public rollback and the revert of a failed one, as functions of the disk, the request and a fault plan |
| `RestoreSafety.dfy`, `RestoreCalls.dfy` | what each block keeps wherever it stops, and what a whole call can leave |
| `RestoreAdmission.dfy`, `RestoreAnswers.dfy`, `RestoreRegistry.dfy` | what callers are told: which requests are refused, what an answered one did to trees and registry, and what asking again is answered |
| `RestorePlan.dfy` | what a fault plan does to the apply block: when it commits without faults, and which step a plan cuts short |
| `RestoreRuns.dfy`, `RestoreCrash.dfy`, `RestoreReplay.dfy`, `RestoreRetry.dfy`, `RestoreStack.dfy` | properties of runs: crash safety, replay, failed rollbacks that never happened, and restores unwinding as a stack |
| `RestoreWitness.dfy`, `RestoreLastWrite.dfy`, `RestoreStuck.dfy` | where replay and rollback fall short: runs that reach such states, the last journal write of an apply, and rollbacks that are never finished |
| `RestoreStore.dfy` | the same transaction as it is written: a store updated in place, each method proved equal to its function for every fault plan |
| `FreshId.dfy`, `BrainRegistry.dfy` | the fresh-id search and the registry of brains: operations, invariant, runs, and the file updated in place |
| `RegistryChanges.dfy`, `BootstrapChoice.dfy` | what each registry operation changes, field by field, and which brain a bootstrap chooses |
| `BrainProfile.dfy` | the metric D + (s/k)UᵀU over exact reals: validation, construction, conditioning, and the score as a cosine; `ProfileLimits.dfy` has its limits |
| `GraphView.dfy`, `GraphViewShows.dfy` | the round-robin sample of a large graph, and what it shows of buckets and nodes |
| `EvidenceLane.dfy`, `EvidenceDiversity.dfy` | greedy diversification of evidence rows, what its score rewards, and the protected bridge row |
| `GrowBinding.dfy` | where compiler claims come from, claim split, binding of compiled nodes to claims, and the write plan; `GrowPlan.dfy` says what each decision leads to |
| `RecentList.dfy`, `DocumentRegistry.dfy` | a generic most-recent list, and the bounded document index that refines it |
| `SourceRevision.dfy` | the revision counter that follows content |
| `SnapshotGraph.dfy`, `SnapshotTexts.dfy` | validation of a snapshot, the graph materialized from it, and the texts both read |
| `Wrappers.dfy`, `StringOrder.dfy`, `DistinctItems.dfy` | optional values and outcomes, the order of strings, and sequences without repetitions |

A fault plan is a sequence with one entry per step: no fault, an exception, or a crash. A lemma that
quantifies over every plan therefore speaks of every position at which a call can be cut short, and
a crash at position *n* shows the state between two steps.

The lemmas carry `{:induction false}`: every induction is written out.

## Where the code falls short of its promise

Where a condition is named it is exact: the lemma proves both directions, for all inputs. Each comes with
inputs that reach it.

* An apply that fails on its last journal write is undone, but its idempotency record stays: replaying the
  request then reports success over the old destination (`FailedApplyReplaysAsSuccessIff`; every first
  request that would commit can meet this, `FailedCallReplaysAsSuccess`).
* An apply that dies at that write, or in the undo of a failure there, is not recovered by any replay either:
  each is answered with the receipt, and every rollback under a new rollback key is refused. A restore over an
  existing brain can be rolled back afterwards exactly when it would commit and no step of it fails; once its
  idempotency record is written, exactly when the last journal write passes (`RollsBackIff`). After any
  disciplined run that stays so (`UnappliedForGood`). Every first request over an existing brain that would
  commit can end like this, with the new tree in place or with none (`StoppedForGood`).
* Replaying a key whose restore failed and was undone, without leaving its idempotency record, puts back the
  registry that restore found, and, if the brain was new to the disk, removes whatever is at the destination
  now (`SettledReplayDisturbsIff`). A second restore applied in between loses its registration, and over one
  new brain its tree (`ReplayUndoesAnother`).
* The replay of an interrupted key recovers it exactly when the request matches, no idempotency record was
  written, and the backup was not already moved back under a status that still expects it; otherwise it
  changes nothing (`InterruptedKeyRecoversIff`; the last case is reached from any disk with a registered brain
  by a crash in the apply and one in the recovery, `StrandedRun`).
* A public rollback left pending, because the process died in its block, or known to need recovery, because
  its revert failed, is never completed or undone: from then on the key's record and places stay as they are,
  every apply request with the key is refused and no rollback of it is answered (`PendingForGood`). From every
  disk on which a rollback is accepted this can leave the brain without a tree (`RollbackCanEmpty`).
* Importing over the active (or default) brain without claiming the flag leaves no active (default) brain
  while others remain (`ImportKeepsIff`, with a concrete registry in `ImportCanDropActive`).
* A bootstrap turns every managed brain that no discovered directory accounts for into a legacy one
  (`BootstrapKeepsLayoutIff`; two bootstraps in a row with nothing discovered, `SecondBootstrapForgets`), after
  which a restore over it is refused.
* Validation and materialization of an edge prefer opposite spellings of its endpoints, so an accepted
  snapshot can have a dangling edge (`ClosedIff`, `AcceptedButDangling`).
* An excluded bridge row in the visible prefix stops the protection of an eligible one
  (`ProtectedShowsEligibleIff`; through the whole ranking in `ExcludedHidesEligible`, with three sorted rows of
  one query in `LowWeightHidesEligible`), and with a limit of 1 the protected row is inserted at the second
  place, out of sight (`ProtectedKeepsRows`).

## Runs

The restore code locks one call at a time and lets any key touch any brain. The theorems about runs speak of
disciplined ones: no call touches a brain while another key's restore or rollback of it is underway. A key is
no longer underway when its status is `applied`, `apply_rolled_back` or `rolled_back`, or when it has an
idempotency record, so that its replays are answered (`Closed`). Replaying an interrupted key without faults
ends it, whatever the answer (`ReplayClosesIff`), so a client that replays such a key before it uses another one
on the brain keeps the discipline, except for two kinds of key that no call can bring to an end: those whose
backup was moved back by a recovery that died (`StrandedRun`), and those whose rollback is pending or needs
recovery (`PendingForGood`). After such a key, runs that touch its brain under another key are not covered; runs
on other brains and on the key itself are.

## Model

| member | source | states |
|---|---|---|
| RestoreCrash.RunIsCrashSafe | agvm_api/brain_sync_restore_materializer.py:597-666 | Fix a brain, the tree at its destination and an unused key. After any run of apply and rollback calls, each cut short at any step, in which no call touches a brain while another key's restore or rollback of it is underway, and other keys touch this brain only while this key's restore stands: the tree is in the backup if the restore is applied, at the destination if it was not begun, was undone or was rolled back, and otherwise in the backup or, with the backup slot empty, at the destination |
| RestoreCrash.RunKeepsWhole | agvm_api/brain_sync_restore_materializer.py:597-666 | The same from any state of the key, for a destination that was empty before too |
| RestoreCrash.EventKeepsWhole | agvm_api/brain_sync_restore_materializer.py:394-991 | One call on any key, under any plan, keeps the fixed tree where it belongs |
| RestoreCrash.UndoneNewBrainIsGone | agvm_api/brain_sync_restore_materializer.py:1151-1159 | A restore of a brain new to the disk that is undone leaves nothing at its destination |
| RestoreRuns.RunKeepsWorld | agvm_api/brain_sync_restore_materializer.py:394-991 | After any disciplined run, of every key at once: the tree its last attempt found is in its backup, or at its destination with the backup slot empty, unless it was undone or rolled back. A key with an idempotency record that was never applied stays in the runs, and other keys may go on with its brain; its tree is the one in its backup, or it was undone |
| RestoreRuns.EventKeepsWorld | agvm_api/brain_sync_restore_materializer.py:394-666 | One call, with any fault plan, keeps every journaled key safe, not only the key it is about |
| RestoreRuns.RecoveryKeepsWorld | agvm_api/brain_sync_restore_materializer.py:483-511 | Recovery on replay, cut short anywhere, keeps every journaled key safe, and puts back the tree an interrupted restore found when it finishes |
| RestoreRuns.ApplyKeepsWorld | agvm_api/brain_sync_restore_materializer.py:394-666 | A whole apply call, recovery and the new attempt that follows it included, keeps every journaled key safe |
| RestoreRuns.RollbackKeepsWorld | agvm_api/brain_sync_restore_materializer.py:908-991 | A public rollback, its revert and its cleanup, cut short anywhere, keep every journaled key safe |
| RestoreRuns.SettledTreeSurvivesApply | agvm_api/brain_sync_restore_materializer.py:597-651 | A tree at the destination of a settled or unknown key survives every apply call: it is there or in the new backup, except on replay of a failed restore that was new to the disk |
| RestoreSafety.ApplyBlockStops | agvm_api/brain_sync_restore_materializer.py:599-652 | With a fault at any position or none, the block either commits (new tree installed, original in the backup, registry, receipt, idempotency record and journal written) or stops where the undo cannot be refused and the original is kept |
| RestoreSafety.UndoStops | agvm_api/brain_sync_restore_materializer.py:1143-1172 | The undo never loses the original wherever it stops; when it finishes, destination, stage and registry are back and the journal says so |
| RestoreSafety.UndoFinishesIff | agvm_api/brain_sync_restore_materializer.py:1151-1159 | Without a fault of its own the undo finishes unless the backup is gone under a status that needs it; then it changes nothing |
| RestoreCalls.ApplyFailureIsAtomic | agvm_api/brain_sync_restore_materializer.py:599-666 | For every position at which a step of the block raises, the handler leaves all trees and the registry as before and journals `apply_rolled_back`, whether or not the destination existed; if the handler fails too, the original is still kept |
| RestoreCalls.AttemptStops | agvm_api/brain_sync_restore_materializer.py:513-666 | Everything a fresh attempt can leave: refused with nothing changed, not started, undone, committed, or in flight with the original kept; a receipt is returned only when it is on disk with its idempotency record and the journal says applied |
| RestoreRollback.RollbackBlockStops | agvm_api/brain_sync_restore_materializer.py:918-950 | The rollback block stops in one of three arrangements of old and new tree or completes; with no fault and an intact backup it completes |
| RestoreRollback.RevertStops | agvm_api/brain_sync_restore_materializer.py:994-1015 | From wherever the block stopped, the revert meets no backup collision, fails only by a fault of its own, loses nothing, and when it finishes puts back trees, registry, status and records |
| RestoreCalls.FailedRollbackNeverHappened | agvm_api/brain_sync_restore_materializer.py:908-984 | A rollback reported as failed and reverted leaves trees, journal entry, receipts and keys as before (the registry up to its digest), and the same request can be accepted again |
| RestoreCalls.RollbackStops | agvm_api/brain_sync_restore_materializer.py:784-991 | Everything an accepted rollback can leave: applied with nothing moved, rolled back with the old tree and registry in place, or pending in one of the three arrangements |
| RestoreReplay.RecordedReplay | agvm_api/brain_sync_restore_materializer.py:430-511 | Replaying a key with its idempotency record and receipt, whatever its status, changes no slot under any fault plan and never recovers it; it returns the same receipt exactly when the fingerprint matches and no rollback began, and is refused otherwise |
| RestoreReplay.AppliedKeyAnswersForever | agvm_api/brain_sync_restore_materializer.py:430-511 | After any disciplined run that does not roll it back, an applied key still answers with its first receipt and refuses every other request |
| RestoreReplay.RolledBackKeyIsSpent | agvm_api/brain_sync_restore_materializer.py:440-446 | Once rolled back, a key never applies again after any run |
| RestoreAnswers.AnswersOnlyTheSame | agvm_api/brain_sync_restore_materializer.py:430-511 | After an answered first request and any disciplined run without a rollback of it, a request with its key is answered, with the same receipt, exactly when bundle, brain, confirmation, selection and expected state are the same; otherwise it is refused. Either way nothing changes |
| RestoreAnswers.ReplayTells | agvm_api/brain_sync_restore_materializer.py:430-475 | What a recorded key is told for each status, and what for another request |
| RestoreAnswers.LostFilesComeBack | agvm_api/brain_sync_restore_materializer.py:449-482 | If the receipt or the idempotency record of an applied key is lost, or both, the next fault-free replay answers and puts them back; one that meets a fault is answered only if it did |
| RestoreAnswers.LostRollbackReceiptComesBack | agvm_api/brain_sync_restore_materializer.py:725-728 | The same of a lost receipt of a rollback |
| RestoreAnswers.RollsBackOnlyIfAdmitted | agvm_api/brain_sync_restore_materializer.py:740-830 | A rollback under a new rollback key changes the disk or is answered only if its restore is applied over an existing brain and tree, backup and registry still have the digests recorded then, the first of which the client names; it is refused exactly if not, and without faults answered exactly if so |
| RestoreAnswers.RollbackRefusals | agvm_api/brain_sync_restore_materializer.py:740-880 | Each of those conditions has its own refusal, the first missing one decides, and nothing on disk changes |
| RestoreAnswers.RollbackTells | agvm_api/brain_sync_restore_materializer.py:892-991 | The receipt of a rollback done just now names its restore, rollback key and brain and the digest of the tree that is at the destination again; the old registry is back, the backup used up, and the replaced tree gone or noted as pending |
| RestoreAnswers.FailedApplyTells | agvm_api/brain_sync_restore_materializer.py:555-666 | What each failure of a first call means: nothing journaled if not started, all as before if undone, and if it needs recovery, in flight with the original in place or in the backup |
| RestoreAnswers.FailedRollbackTells | agvm_api/brain_sync_restore_materializer.py:892-991 | What each failure of a rollback means: nothing done, reverted, complete but for its cleanup, or in need of recovery |
| RestoreAnswers.NeedsRecoveryIsMarked | agvm_api/brain_sync_restore_materializer.py:951-975 | A rollback whose revert raises at the last fault ends marked as needing recovery |
| RestoreAnswers.FailedRecoveryTells | agvm_api/brain_sync_restore_materializer.py:483-511 | A replay whose recovery raises says so, with the key journaled as before and every key safe |
| RestoreAnswers.RolledBackAnswersForever | agvm_api/brain_sync_restore_materializer.py:714-738 | Once a rollback was answered, and after any disciplined run, the same request is answered with the same receipt and changes nothing, under any faults; another request under that rollback key, for another digest or restore, is refused without effect |
| RestoreAdmission.ChangesOnlyIfAdmitted | agvm_api/brain_sync_restore_materializer.py:513-575 | A call with a new key, under any faults, changes the disk or is answered only if the client named the destination as it is now and either the brain is registered, managed in its own directory, and the request authorized and confirmed, or it is not registered and its destination is free; it is refused exactly if not |
| RestoreAdmission.FreshRefusals | agvm_api/brain_sync_restore_materializer.py:528-575 | Each of those conditions has its own refusal, the first missing one decides, and nothing on disk changes |
| RestoreRegistry.FirstReceiptTells | agvm_api/brain_sync_restore_materializer.py:597-652 | In a consistent registry an answered first request has a receipt that says whether the brain was created or overwritten and whether it is selected, which it is if asked for or active before; its tree is at the destination, and the registry has that brain and no other change: the default brain stays, the active one changes only if it is selected, every other record keeps all but what the scan says |
| RestoreRegistry.UpdateRestores | agvm_api/brain_sync_restore_materializer.py:1098-1140 | Creation, refresh and selection together make just that registry |
| RestorePlan.BlockCommitsIff | agvm_api/brain_sync_restore_materializer.py:599-652 | Without faults the block commits exactly when, at its start, a tree to back up is there, the registry accepts the selection, and the brain ends usable and selected as the receipt says |
| RestorePlan.FirstApplyCommitsIff | agvm_api/brain_sync_restore_materializer.py:513-652 | A first request without faults is answered with a receipt exactly when it is admitted (RestoreAdmission.Admits, which names its conditions), its backup slot is free and the block's conditions hold beforehand |
| RestorePlan.FirstApplyInConsistent | agvm_api/brain_sync_restore_materializer.py:513-652 | In a consistent registry those conditions are: admission, a free backup slot, the tree of a registered brain, and storage that passes the scan |
| RestorePlan.LastWriteFailsIff | agvm_api/brain_sync_restore_materializer.py:637-652 | The block raises with the record in memory already at `applied` exactly for a plan that lets all its steps but the last pass, in a block that would commit, and raises at the last |
| RestoreReplay.FailedApplyReplaysAsSuccessIff | agvm_api/brain_sync_restore_materializer.py:637-653 | After an undone failure the replay answers with the receipt exactly for such a plan, counted in steps of the block; otherwise the key is tried again. Trees and registry are the old ones |
| RestoreReplay.LastWriteCanFail | agvm_api/brain_sync_restore_materializer.py:637-653 | Such a plan exists for every block that commits |
| RestoreReplay.FailedCallReplaysAsSuccess | agvm_api/brain_sync_restore_materializer.py:430-666 | Any first request that would commit can be told it failed and was undone, with trees and registry as before, and be told on replay that it was applied |
| RestoreReplay.SettledReplayDisturbsIff | agvm_api/brain_sync_restore_materializer.py:430-511 | The replay of a settled failed key recovers exactly when it matches and the key has no idempotency record. It then changes the destination exactly when the restore was new to the disk and something is there now, and the registry exactly when it is not the one that restore found, before it goes on with a new attempt. Any other replay changes nothing under any faults, and a recorded key is answered with its receipt |
| RestoreWitness.ReplayUndoesAnother | agvm_api/brain_sync_restore_materializer.py:483-511 | A disciplined run: a restore fails and is undone, another is applied, the first is replayed; its recovery puts back the registry from before both, and over one brain new to the disk removes the other's tree |
| RestoreReplay.InterruptedKeyRecoversIff | agvm_api/brain_sync_restore_materializer.py:430-511 | The replay of an interrupted key recovers exactly when it matches, the key has no idempotency record, and its backup was not moved back under a status that needs it; it then puts back tree and registry and goes on with a new attempt. Any other replay changes nothing under any faults: a recorded key is answered as if it were applied, and a stranded one has its tree at its destination |
| RestoreLastWrite.BlockRecordsIff | agvm_api/brain_sync_restore_materializer.py:599-652 | The block leaves the key's idempotency record exactly for a plan that lets all its steps but the last pass in a block that would commit; it ends exactly when the last passes too, and dies with the record on disk exactly when the plan crashes there |
| RestoreLastWrite.FirstCallIff | agvm_api/brain_sync_restore_materializer.py:394-666 | The same of whole first requests, counted in steps of the call: record, status `applied` and receipt each come with exactly such plans, and a recorded key is closed |
| RestoreLastWrite.RollsBackIff | agvm_api/brain_sync_restore_materializer.py:394-991 | A restore over an existing brain can be rolled back afterwards exactly when it would commit and its plan has no fault up to its last journal write; once it is recorded all its replays are answered, and it can be rolled back exactly when that write passes |
| RestoreLastWrite.UnappliedForGood | agvm_api/brain_sync_restore_materializer.py:430-991 | A recorded key that was never applied answers its request with the receipt after any disciplined run, and no rollback of it is answered or moves a tree |
| RestoreLastWrite.StoppedForGood | agvm_api/brain_sync_restore_materializer.py:599-666 | Every first request over an existing brain that would commit can end so: dead at its last write with the new tree in place, or dead in the undo of a failure there with no tree at all, the old one in the backup in either case |
| RestoreStuck.ReplayClosesIff | agvm_api/brain_sync_restore_materializer.py:430-666 | Replaying an interrupted key without faults, with the request it began with, ends it by an answer or by undoing it, exactly unless its backup was moved back already |
| RestoreStuck.PendingForGood | agvm_api/brain_sync_restore_materializer.py:443-763 | Once a rollback of a key is pending or needs recovery, then after any disciplined run its record and places are unchanged, every apply request with the key is refused without effect, and no rollback of it is answered or moves a tree |
| RestoreStuck.RollbackCanEmpty | agvm_api/brain_sync_restore_materializer.py:908-991 | From any safe disk on which a rollback is accepted, a rollback that dies after its first move leaves the destination empty and the old tree in the backup, and after any disciplined run that is still so |
| RestoreWitness.RecoveryCanStrand | agvm_api/brain_sync_restore_materializer.py:1151-1159 | From any interrupted key whose backup is there and needed, recovery can die right after moving it back, in a state the next recovery refuses, with the original at its destination |
| RestoreWitness.StrandedRun | agvm_api/brain_sync_restore_materializer.py:483-511 | From any disk with a registered brain, two crashes lead to a key that no replay changes or answers, under any plan, with the old tree at its destination |
| RestoreRetry.RunSeals | agvm_api/brain_sync_restore_materializer.py:629-636 | After any disciplined run every key that was applied has recorded its registry together with that registry's digest |
| RestoreRetry.FailedRollbackAfterRun | agvm_api/brain_sync_restore_materializer.py:908-984 | In every state a disciplined run reaches, a rollback that reports failed and reverted left trees, receipts, keys and the registry's digest as they were, and the same request can be accepted again |
| RestoreStack.CommitPushes | agvm_api/brain_sync_restore_materializer.py:608-652 | A successful restore, with any faults it survived, pushes the old destination and registry on the stack of restores of that brain |
| RestoreStack.RollbackPops | agvm_api/brain_sync_restore_materializer.py:784-991 | Rolling back the newest restore pops it when answered: destination and registry are those from before it. Without faults it is answered |
| RestoreStack.OutOfOrderRefused | agvm_api/brain_sync_restore_materializer.py:784-892 | With different tree digests, a rollback of any but the newest restore is refused and changes nothing, whatever it claims to expect |
| RestoreStack.MisaskedRefused | agvm_api/brain_sync_restore_materializer.py:697-830 | So is every request to roll back a standing restore that is not the newest, under a rollback key used before or with another digest expected: refused, with the disk unchanged, under any faults |
| RestoreStack.UnwindNewest | agvm_api/brain_sync_restore_materializer.py:784-950 | Undoing the last k restores newest first gives back exactly the destination and registry from before them |
| RestoreStack.UnansweredRestoreStays | agvm_api/brain_sync_restore_materializer.py:513-666 | A first request that came back refused, not begun or undone leaves every standing restore as it is |
| RestoreStack.UnansweredRollbackStays | agvm_api/brain_sync_restore_materializer.py:908-984 | So does a rollback of the newest restore that was not begun or was reverted |
| RestoreStack.DiskRefinesStack | agvm_api/brain_sync_restore_materializer.py:394-991 | One call, with any faults that leave what it began finished or undone, is one step of a stack machine: answered restores push, answered rollbacks pop. A rollback of a standing restore is answered only if it asks correctly for the newest, and without faults exactly then; any other leaves the disk as it is. A restore without faults is answered exactly when its conditions hold beforehand |
| RestoreStack.RunRefinesStack | agvm_api/brain_sync_restore_materializer.py:394-991 | Any run of new restores and of requests to roll back standing ones, in any order, with any rollback keys and digests and with such faults, ends where the stack machine ends |
| RestoreStore.Store.Perform | agvm_api/brain_sync_restore_materializer.py:1971-1988 | One step on the store in place, completed, refused or cut short, is the step of the specification |
| RestoreStore.Store.RunBlock | agvm_api/brain_sync_restore_materializer.py:599-652 | The block as written, status by status on the transaction record, does what its specification says under every fault plan |
| RestoreStore.Store.RollbackTransaction | agvm_api/brain_sync_restore_materializer.py:1143-1172 | The undo as written is the specified undo under every fault plan |
| RestoreStore.Store.UpdateRegistry | agvm_api/brain_sync_restore_materializer.py:1098-1140 | Create, refresh, select and the selectability checks, each registry write a step, as specified |
| RestoreStore.Store.ApplyRestore | agvm_api/brain_sync_restore_materializer.py:394-666 | The whole apply call in place, replay and recovery included, has the specified disk, remaining plan and reply, and keeps every journaled key of the store safe; with a new key it changes the store or answers only if it is admitted, and is refused exactly if not |
| RestoreStore.Store.RevertPublicRollback | agvm_api/brain_sync_restore_materializer.py:994-1015 | The revert as written is the specified revert |
| RestoreStore.Store.RollbackRestore | agvm_api/brain_sync_restore_materializer.py:669-991 | The whole public rollback in place has the specified disk, remaining plan and reply, and keeps every journaled key of the store safe; repeating a completed one answers with its receipt and changes nothing |
| FreshId.SuffixedInjective | agvm_api/brain_registry.py:154-161 | Different suffix numbers render to different ids |
| FreshId.DecimalReads | agvm_api/brain_registry.py:154-161 | A suffix is rendered in decimal without leading zeros and reads back |
| FreshId.UniqueBrainId | agvm_api/brain_registry.py:154-161 | The suffix loop terminates for every finite set and returns an id outside it, with the smallest free suffix |
| FreshId.FirstFree | agvm_api/brain_registry.py:154-161 | The least free suffix from a given one up: it is found after at most as many misses as there are taken ids, and all smaller ones are taken |
| BrainRegistry.RunConsistent | agvm_api/brain_registry.py:622-1301 | After any run of create, rename, select, delete, import, refresh and bootstrap in which no import drops a flag (exactly when one does is ImportKeepsIff), the ids are distinct, one record is active, one is default, and the header names them; a bootstrap establishes this from any file |
| BrainRegistry.BootstrapConsistent | agvm_api/brain_registry.py:639-773 | Bootstrap yields a consistent registry from any previous file and any discovered directories |
| BrainRegistry.BootstrapRetains | agvm_api/brain_registry.py:700-746 | Every registered brain with a storage path is still registered after a bootstrap |
| BrainRegistry.BootstrapKeepsActive | agvm_api/brain_registry.py:639-773 | An unrequested bootstrap over a consistent registry keeps its active brain |
| BootstrapChoice.BootstrapHonours | agvm_api/brain_registry.py:622-663 | A bootstrap makes one brain both active and default. A requested one that is known and ends up registered is that brain; a request for an unknown brain is as good as none. Then the previous active brain stays if registered before and after; with none registered before, the previous default; with neither, the brain of the current directory |
| BootstrapChoice.BootstrapFallsBack | agvm_api/brain_registry.py:622-636 | If the brain these rules name does not end up registered, it is the first discovered brain that was active before, else the first that was the default, else the first of all |
| BootstrapChoice.DictionaryHoldsLast | agvm_api/brain_registry.py:646-650 | Of previous records that share an id the last one counts |
| BootstrapChoice.BootstrapKeepsRecord | agvm_api/brain_registry.py:675-719 | Every registered brain with storage keeps its record, up to its flags and its layout |
| BootstrapChoice.BootstrapRegistersDiscovered | agvm_api/brain_registry.py:668-699 | Every discovered directory is registered in the order of discovery: a brain registered before keeps its record, a new one is a legacy brain where it was found, under its own id if that is free |
| BootstrapChoice.BootstrapKeepsOrder | agvm_api/brain_registry.py:700-719 | Brains that no directory accounts for come after the discovered ones, in the order they had |
| BrainRegistry.BootstrapKeepsLayoutIff | agvm_api/brain_registry.py:691-719 | A bootstrap keeps a registered brain's storage layout exactly when its directory was discovered or the layout was the legacy one already |
| BrainRegistry.BootstrapForgetsManaged | agvm_api/brain_registry.py:708-719 | With no directory discovered, every managed brain becomes a legacy one |
| BrainRegistry.SecondBootstrapForgets | agvm_api/brain_registry.py:639-773 | Two bootstraps in a row from no file and with nothing discovered: the first registers one managed brain, the second makes it a legacy one |
| BrainRegistry.SelectTakesEffect | agvm_api/brain_registry.py:1276-1301 | Selecting a registered brain makes it the one the unscoped caller gets, and the default exactly if asked; all brains keep everything but flags |
| BrainRegistry.SelectAndBack | agvm_api/brain_registry.py:1276-1301 | Selecting another brain and then the old one gives back the registry |
| RegistryChanges.SelectChangesFlags | agvm_api/brain_registry.py:1276-1301 | Selecting is refused exactly for an unknown id; else that brain alone is active, alone the default if asked, and nothing else changes |
| RegistryChanges.RenameChangesOne | agvm_api/brain_registry.py:953-976 | Renaming is refused exactly for an unknown id; else it changes name and description of that brain and nothing else |
| RegistryChanges.RefreshRescans | agvm_api/brain_registry.py:801-830 | A refresh changes only which brains are safe: those that pass the scan |
| BrainRegistry.CreateAddsOne | agvm_api/brain_registry.py:913-950 | A creation appends one managed brain of a new id and moves active and default to it exactly as asked; the others keep everything but flags |
| RegistryChanges.CreateAppends | agvm_api/brain_registry.py:913-950 | A created brain comes last with the given texts, managed in a directory of its own, not yet safe, under the id asked for or with the least free suffix; the others lose just the flags it was given |
| BrainRegistry.DeleteRemovesOne | agvm_api/brain_registry.py:1212-1254 | In a consistent registry a deletion is accepted exactly when it is confirmed and names a brain neither active nor default; it removes that brain and nothing else |
| RegistryChanges.DeleteRefusals | agvm_api/brain_registry.py:1212-1233 | The refusals of a deletion, in order |
| BrainRegistry.CreateAndDelete | agvm_api/brain_registry.py:913-1254 | Creating a brain without a flag and deleting it gives back the registry |
| BrainRegistry.ImportReplacesOne | agvm_api/brain_registry.py:1127-1209 | An import that drops no flag adds or replaces exactly the brain of its id, leaves every other one as it was but for the flags it claims, and moves active and default exactly as asked |
| RegistryChanges.ImportRefusals | agvm_api/brain_registry.py:1150-1160 | An import is refused exactly over a brain that is there without leave to overwrite or that the registry does not manage |
| RegistryChanges.ImportAppends | agvm_api/brain_registry.py:1163-1209 | One that drops no flag puts a managed brain with the imported texts last and keeps the others in order but for the flags it claims |
| BrainRegistry.ImportKeepsIff | agvm_api/brain_registry.py:1150-1209 | An accepted import keeps the invariant exactly when it does not overwrite a flagged brain without claiming the flag while others remain |
| BrainRegistry.ImportCanDropActive | agvm_api/brain_registry.py:1150-1209 | A concrete registry that an accepted import leaves without an active brain |
| BrainRegistry.ConsistentIffValidated | agvm_api/brain_registry.py:570-619 | The invariant is what the validator counts, plus a header that agrees with the records |
| BrainRegistry.ResolveFindsActive | agvm_api/brain_registry.py:1304-1328 | In a consistent registry the unscoped caller gets the one active brain |
| BrainRegistry.ResolveFindsRequested | agvm_api/brain_registry.py:1304-1328 | A scoped caller gets the brain of that id, or an error exactly when there is none |
| RegistryChanges.ResolveUnscoped | agvm_api/brain_registry.py:1304-1328 | In any registry, what the unscoped caller gets, and exactly when it is refused |
| BrainRegistry.LocalBrainRegistry.Create | agvm_api/brain_registry.py:913-950 | Creation in place gives exactly the specified registry |
| BrainRegistry.LocalBrainRegistry.Rename | agvm_api/brain_registry.py:953-976 | Renaming in place, with its error leaving the registry as it was |
| BrainRegistry.LocalBrainRegistry.Select | agvm_api/brain_registry.py:1276-1301 | Selection in place, with its errors leaving the registry as it was |
| BrainRegistry.LocalBrainRegistry.Delete | agvm_api/brain_registry.py:1212-1254 | Deletion in place, with its errors leaving the registry as it was |
| BrainRegistry.LocalBrainRegistry.Import | agvm_api/brain_registry.py:1127-1209 | Import in place, with its errors leaving the registry as it was |
| BrainRegistry.LocalBrainRegistry.Bootstrap | agvm_api/brain_registry.py:639-773 | The bootstrap loops in place give exactly the specified registry |
| BrainProfile.BuildMetric | agvm_api/brain_profile_v1.py:442-512 | Accepts exactly the inputs that pass every check; the nested loops then compute the metric; a rejection names the first check that fails |
| BrainProfile.ValidateDiagonal | agvm_api/brain_profile_v1.py:136-279 | Accepts exactly twelve weights in range, and says of the first bad one whether it is not positive or out of bounds |
| BrainProfile.ValidateFactors | agvm_api/brain_profile_v1.py:136-298 | Accepts exactly the factor lists within rank, length and coefficient bounds |
| BrainProfile.ValidateCondition | agvm_api/brain_profile_v1.py:301-323 | The gate, computed by loops, passes exactly when the spectral upper bound is at most 500 times the least weight |
| BrainProfile.MatrixIsForm | agvm_api/brain_profile_v1.py:449-512 | The nested sum over the accumulated matrix equals the sum of weighted squares plus s times the squared projections |
| BrainProfile.BuiltMetricProperties | agvm_api/brain_profile_v1.py:301-512 | The matrix of an accepted profile is symmetric, positive definite, bounded on both sides, and of true condition number at most 500 |
| BrainProfile.FormBounds | agvm_api/brain_profile_v1.py:301-323 | min(d)·x² ≤ form(x, x) ≤ (max(d) + s·sum of squared factor norms)·x² for every x |
| BrainProfile.ConditionNumber | agvm_api/brain_profile_v1.py:301-323 | Where the gate passes, the ratio of form to squared length varies by a factor of at most 500 |
| BrainProfile.CauchySchwarz | agvm_api/brain_profile_v1.py:606-631 | form(x, y)² ≤ form(x, x)·form(y, y) |
| BrainProfile.Score | agvm_api/brain_profile_v1.py:606-631 | The loops compute the clamped cosine of the two vectors in the matrix's form |
| BrainProfile.ScoreIsCosine | agvm_api/brain_profile_v1.py:606-631 | The score is in [0, 1], the upper clamp never acts, and it is 0 exactly when an argument is zero or the form of the two is not positive |
| BrainProfile.ScoreOfSelf | agvm_api/brain_profile_v1.py:606-631 | A non-zero vector scores 1 against itself |
| BrainProfile.ScoreSymmetric | agvm_api/brain_profile_v1.py:606-631 | The score does not depend on the order of its arguments |
| BrainProfile.ScoreScaleInvariant | agvm_api/brain_profile_v1.py:606-631 | The score does not change under positive scaling of an argument |
| BrainProfile.AcceptedScore | agvm_api/brain_profile_v1.py:442-631 | On the matrix built for an accepted profile the score is a cosine: range, inactive upper clamp, exact zero condition, symmetry, and 1 for a non-zero vector against itself |
| BrainProfile.AcceptedScoreScaled | agvm_api/brain_profile_v1.py:442-631 | Nor does it change under positive scaling |
| ProfileLimits.AcceptedIff | agvm_api/brain_profile_v1.py:136-323 | The numbers: twelve weights from 0.05 to 20, at most four factors of twelve coefficients up to 4 in size, intensity up to 0.35, a condition bound of 500 |
| ProfileLimits.ScaleTells | agvm_api/brain_profile_v1.py:442-512 | The factors share the intensity evenly |
| ProfileLimits.ScoreTells | agvm_api/brain_profile_v1.py:606-631 | The score times the root of the product of the squared norms is the form of the two, or 0 if that is negative |
| GraphView.Sample | agvm_api/graph_view.py:61-78 | The loop terminates, picks no id twice and never more than the limit; with distinct ids it picks exactly the limit, in round-robin order |
| GraphView.BuildGraphView | agvm_api/graph_view.py:45-103 | A graph within the limit is shown whole; otherwise exactly the limit is shown, in the order of the graph; no edge, link or highway leaves the view, every edge inside it is shown, and two buckets show numbers of nodes that differ by more than one only if the one with fewer shows all it has |
| GraphView.PickedIsPrefixes | agvm_api/graph_view.py:61-78 | What was picked at any moment is exactly a top prefix of every bucket |
| GraphView.ContributionIsTop | agvm_api/graph_view.py:18-60 | No node a bucket has not contributed outranks one that it has |
| GraphView.ShownInBucket | agvm_api/graph_view.py:53-80 | Of every bucket exactly as many nodes are shown as the round-robin took from it |
| GraphView.ViewIsFair | agvm_api/graph_view.py:61-85 | In any view over what the round-robin picked, two buckets show numbers of nodes that differ by more than one only if the one with fewer shows all it has |
| GraphView.RoundProgresses | agvm_api/graph_view.py:61-78 | While fewer than all nodes are picked, a round picks one, so the loop does not stop early |
| GraphView.BucketsCoverNodes | agvm_api/graph_view.py:53-60 | The buckets partition the nodes |
| GraphViewShows.ShownBeforeHidden | agvm_api/graph_view.py:18-24 | No node is left out for one of its bucket that comes after it: anchors before others, then higher confidence, stability and id |
| GraphViewShows.BucketsInOrder | agvm_api/graph_view.py:53-63 | The rounds go over the buckets in the order in which they first appear |
| GraphViewShows.NodeShows | agvm_api/graph_view.py:27-42 | A shown node is as it was but for links and highways: of each those to shown nodes, the first eight if there are more |
| GraphViewShows.TargetsKept | agvm_api/graph_view.py:32-41 | Filtering keeps each shown target as often as it is linked, in place |
| GraphViewShows.EdgesKept | agvm_api/graph_view.py:82-86 | And each edge between shown nodes |
| EvidenceLane.Diversify | agvm_api/document_evidence_lane.py:917-987 | The output is a permutation of the input with row 0 first, in greedy order: each next row is the earliest maximiser against the coverage already chosen |
| EvidenceLane.GreedyUnique | agvm_api/document_evidence_lane.py:917-987 | There is only one greedy order |
| EvidenceDiversity.ScoreDifference | agvm_api/document_evidence_lane.py:947-977 | Scores of two rows differ by their own parts and, for what they add to the coverage chosen, by exactly 0.38 for the share of uncovered weight and 0.12 for each of up to two uncovered strong terms, and by 0.08 for the share of all their terms |
| EvidenceDiversity.RelationCounts | agvm_api/document_evidence_lane.py:938-977 | Of two rows that differ in their relation alone, a primary one scores 0.05 more than one without a bonus, a supporting one 0.035 and a near miss 0.015 |
| EvidenceDiversity.CoveringLowersScores | agvm_api/document_evidence_lane.py:951-977 | Covering more never raises a score |
| EvidenceDiversity.CoveredRowScores | agvm_api/document_evidence_lane.py:951-977 | A row whose terms are all covered scores its own part and its quality |
| EvidenceDiversity.NoveltyComesFirst | agvm_api/document_evidence_lane.py:943-987 | In the greedy order no row comes next while one that is otherwise alike adds more to what is covered |
| EvidenceDiversity.CoveredRowWaits | agvm_api/document_evidence_lane.py:943-987 | A row that adds nothing waits for every row that is alike and adds weight |
| EvidenceDiversity.ThirdComesSecond | agvm_api/document_evidence_lane.py:917-987 | Three rows on which it shows: one with a lower score comes before one that covers nothing new |
| EvidenceDiversity.TermWeightTells | agvm_api/document_evidence_lane.py:925-935 | A term weighs its base weight and as much again divided by the number of rows that cover it |
| EvidenceDiversity.RarerWeighsMore | agvm_api/document_evidence_lane.py:925-935 | Of two terms of one base weight the rarer weighs more |
| EvidenceDiversity.WeightAdds | agvm_api/document_evidence_lane.py:955-959 | The weight of a set of terms is the sum over its target terms |
| EvidenceLane.ScoreNonNegative | agvm_api/document_evidence_lane.py:947-987 | Selection scores are never negative, so the search always beats its start value and the loop never stops early |
| EvidenceLane.Protect | agvm_api/document_evidence_lane.py:990-1023 | Returns the rows unchanged, or with the earliest highest-ranked eligible hidden row moved up to its slot and all else in order |
| EvidenceLane.ProtectedIsUnique | agvm_api/document_evidence_lane.py:990-1023 | That description fixes the result |
| EvidenceLane.TopBridgeIsLifted | agvm_api/document_evidence_lane.py:990-1023 | With a limit of at least 2, no visible bridge row and an eligible one hidden, the last visible row becomes the highest of those by bridge score, rank signal, score and title, and all others keep their order |
| EvidenceLane.ProtectedKeepsRows | agvm_api/document_evidence_lane.py:990-1023 | Protection is a permutation that keeps row 0, and with a limit of 1 does not change what is visible |
| EvidenceLane.ProtectedShowsBridgeIff | agvm_api/document_evidence_lane.py:990-1023 | With a limit of at least 2 a bridge row is visible afterwards exactly when one was visible or an eligible one was hidden |
| EvidenceLane.ProtectedShowsEligibleIff | agvm_api/document_evidence_lane.py:990-1023 | An eligible bridge row is visible afterwards exactly when one was, or none of any kind was visible and one was hidden |
| EvidenceLane.ExcludedHidesEligible | agvm_api/document_evidence_lane.py:917-1160 | Through the whole ranking with a limit of 2: of a primary row, an eligible bridge row and an excluded bridge row that covers the same terms and otherwise scores higher, the first and the excluded one are shown, and no eligible bridge row is |
| EvidenceLane.LowWeightHidesEligible | agvm_api/document_evidence_lane.py:648-861 | Three rows, sorted as the ranking sorts them, to which this happens; the excluded one has neither title nor source label |
| EvidenceLane.RankedIsUnique | agvm_api/document_evidence_lane.py:917-1139 | Promotion, greedy order and protection together fix the ranking |
| EvidenceLane.FirstRowTells | agvm_api/document_evidence_lane.py:1128-1136 | The first row stays first, and is made primary exactly if it was supporting or a near miss with a score of at least 0.30 and at least 0.24 of the terms matched |
| EvidenceLane.Rank | agvm_api/document_evidence_lane.py:1124-1177 | Promotion, diversification, protection and cut together: the one ranking those describe, a permutation of the promoted rows led by the first, with a bridge row visible whenever an eligible one exists, unless the limit is 1 |
| GrowBinding.DirectClaims | agvm_api/grow_engine.py:754-795 | Returns all claims to compile, or fails exactly at the first one whose targets its decision does not allow |
| GrowBinding.CompiledExactly | agvm_api/grow_engine.py:754-795 | A claim is compiled as often as it occurs if its decision is direct and not set aside, and never otherwise |
| GrowPlan.CompiledTells | agvm_api/grow_engine.py:754-795 | A claim is compiled unless its decision is not a direct one, or it supersedes or deletes in a batch where another direct decision stands |
| GrowPlan.ForbiddenTells | agvm_api/grow_engine.py:775-794 | What the first claim that does not name the targets it may is refused with |
| GrowPlan.AllowedTells | agvm_api/grow_engine.py:775-794 | What every claim of a batch that passes names |
| GrowBinding.ProduceClaims | agvm_api/grow_investigator.py:4222-4266 | The claims handed to the compiler, one per claim of the investigation whose last ruling does not defer it |
| GrowBinding.ProducedExactly | agvm_api/grow_investigator.py:4222-4266 | A claim is handed over exactly when its id is investigated and its ruling is the one it carries |
| GrowPlan.ProducedTells | agvm_api/grow_investigator.py:4222-4266 | The claim handed over for an id carries decision, targets and decision id of its last ruling, and there is one exactly if that does not defer |
| GrowPlan.UnruledIsNotProduced | agvm_api/grow_investigator.py:4222-4266 | No claim is handed over without a ruling |
| GrowBinding.CompiledXorDeferred | agvm_api/grow_engine.py:286-311 | Where claims of one id carry one decision, every direct claim with an id is compiled or deferred to maintenance, never both |
| GrowBinding.ProducedXorDeferred | agvm_api/grow_engine.py:286-311 | So it is for all claims the investigation produces: none is lost, none goes to both |
| GrowBinding.SetAsideIsDeferredIff | agvm_api/grow_engine.py:295-311 | For any list of claims: one set aside reaches maintenance exactly when its id is not blank and not shared with a compiled claim |
| GrowBinding.Action | agvm_api/grow_engine.py:1254-1288 | Succeeds exactly when the decision is direct and its targets fit, and says which decisions need review; what act and relation each decision stands for is GrowPlan.ActsTell and TransitionsTell |
| GrowBinding.CompiledPassAction | agvm_api/grow_engine.py:754-795 | Every compiled claim passes the later action check |
| GrowBinding.Bind | agvm_api/grow_engine.py:1098-1251 | Succeeds exactly when every node is claimed or structural, every claim has a node, the actions are legal and there is a node; says exactly when a binding is missing or incomplete, and of every other error which node's action is refused first or that nothing is bound; returns the kept nodes in order, the suppressed ones, and the plan |
| GrowBinding.TableHoldsLast | agvm_api/grow_engine.py:1102-1107 | Of claims that share an id, the last one is bound |
| GrowBinding.KeptInOrder | agvm_api/grow_engine.py:1116-1218 | The bound nodes are exactly the kept ones in their order |
| GrowBinding.NodesConserved | agvm_api/grow_engine.py:1116-1151 | Raw nodes are bound nodes plus suppressed duplicates |
| GrowBinding.SuppressedHasEarlier | agvm_api/grow_engine.py:1140-1151 | A node is suppressed only after an earlier node was bound to the same claim |
| GrowBinding.BindingIsBijection | agvm_api/grow_engine.py:1098-1218 | Bound claim nodes and distinct eligible claim ids correspond one to one, and the first node naming a claim wins |
| GrowPlan.BoundTells | agvm_api/grow_engine.py:1117-1180 | A bound node is bound to the claim it names itself, else to the one its source unit names, else to one with a blank id; it is selected exactly if it was and the decision needs no review |
| GrowBinding.SplitThenBindableIff | agvm_api/grow_engine.py:291-385 | After the split, binding fails only for want of a claim or of a node, or over a structural node's own decision |
| GrowBinding.WritePlan | agvm_api/grow_engine.py:1291-1393 | One act per claim node in order, acts plus structure make the create count, transitions, mutation checks and review count as the acts require |
| GrowBinding.PlanCoversClaims | agvm_api/grow_engine.py:1291-1393 | One act per eligible claim and no more, the create count is the raw nodes less the suppressed ones, and no act that needs review is selected by default |
| GrowPlan.ActsTell | agvm_api/grow_engine.py:1254-1340 | For each decision, the kind of every act of the plan, its targets, review and selection |
| GrowPlan.TransitionsTell | agvm_api/grow_engine.py:1340-1352 | The transitions are those of the enriching, contradicting and superseding acts, one each in order, with their targets and the relation the decision stands for |
| GrowPlan.ChecksTell | agvm_api/grow_engine.py:1353-1362 | The target checks are those of the evolving acts, in order |
| GrowPlan.RefusedActionTells | agvm_api/grow_engine.py:1275-1288 | What a decision whose targets do not fit is refused with |
| GrowBinding.CountsAgreeIff | agvm_api/grow_engine.py:1206-1216 | For any bound nodes: the reported structural count agrees with the planned one exactly when no structural node carries a direct decision of its own |
| GrowBinding.BoundNodesNameIff | agvm_api/grow_engine.py:1117-1139 | Every bound node carries the id of its claim, or of its claim as source unit, exactly when no claim has a blank id |
| GrowBinding.ProducedNodesName | agvm_api/grow_engine.py:1117-1139 | So every node bound to a claim the investigation produced names it |
| DocumentRegistry.OrderIsNewest | agvm_api/core_document_registry.py:48-65 | Over any history the order list is that of the 128 most recently indexed distinct documents |
| DocumentRegistry.ListedExactly | agvm_api/core_document_registry.py:48-65 | A document is listed exactly when it was indexed and fewer than 128 others were since |
| DocumentRegistry.EntriesAreListed | agvm_api/core_document_registry.py:48-65 | Every entry belongs to a listed document, under its id or one of its other identifiers |
| DocumentRegistry.NewestIsFound | agvm_api/core_document_registry.py:28-57 | The newest record is found under its id and under each of its other identifiers |
| DocumentRegistry.LookupById | agvm_api/core_document_registry.py:162-169 | If no other document uses the id as a key, lookup gives the latest version exactly when the document is listed |
| DocumentRegistry.PreviewDocuments.IndexDocument | agvm_api/core_document_registry.py:48-57 | Indexing in place changes the two globals exactly as specified |
| DocumentRegistry.PreviewDocuments.Trim | agvm_api/core_document_registry.py:60-65 | Trimming in place expires the oldest documents and all their keys |
| SourceRevision.RunTracksContent | agvm_api/core_brain_router.py:479-521 | Over any run revisions meet their minimum and never decrease, and two requests get the same one exactly when in between the content stayed and no more was asked for |
| SourceRevision.SameRevisionSameContent | agvm_api/core_brain_router.py:479-521 | Equal revisions mean equal content digests and an unchanged state |
| SourceRevision.ChangeAndBack | agvm_api/core_brain_router.py:479-521 | Content that changes and changes back gets three strictly increasing revisions |
| SourceRevision.RunCountsChanges | agvm_api/core_brain_router.py:479-521 | A run that asks for no more than is stored raises the revision by one for each change of content, and by nothing else |
| SourceRevision.ForcedRevision | agvm_api/core_brain_router.py:479-521 | A request that asks for more than the present revision gets just what it asks for |
| SourceRevision.RevisionFile.RevisionFor | agvm_api/core_brain_router.py:479-521 | The persisted state in place moves as specified and the returned revision is the stored one |
| SnapshotGraph.ValidateReferences | agvm_api/brain_sync_restore_materializer.py:1523-1556 | Accepts exactly the snapshots with distinct, non-blank ids and edges between known nodes; reports sources before nodes before edges, of each kind the first item that fails, and how |
| SnapshotGraph.Materialize | agvm_api/brain_sync_restore_materializer.py:1029-1039 | Nodes and edges are normalized one by one in order, or the first blank endpoint raises |
| SnapshotGraph.ClosedIff | agvm_api/brain_sync_restore_materializer.py:1523-1649 | An accepted snapshot becomes a closed graph exactly when every endpoint spelled twice names a node in its second spelling too |
| SnapshotGraph.AgreeingSpellingsClose | agvm_api/brain_sync_restore_materializer.py:1523-1649 | When the spellings agree, every materialized edge joins the very nodes that validation checked |
| SnapshotGraph.AcceptedButDangling | agvm_api/brain_sync_restore_materializer.py:1633-1649 | A concrete accepted snapshot with a dangling materialized edge |
| SnapshotGraph.MaterializedValidates | agvm_api/brain_sync_restore_materializer.py:1523-1649 | A closed materialized graph passes validation again |
| SnapshotTexts.AcceptedEdgesJoin | agvm_api/brain_sync_restore_materializer.py:1545-1552 | In an accepted snapshot every edge joins two of its nodes, read from the plain spelling of each endpoint if there is one |
| SnapshotTexts.AcceptedNodesName | agvm_api/brain_sync_restore_materializer.py:1536-1543 | In an accepted snapshot with sources every node names one of them, or none |
| SnapshotTexts.SourcelessNodesNameAny | agvm_api/brain_sync_restore_materializer.py:1536-1543 | Without sources what the nodes name does not matter |
| SnapshotTexts.SourceKeys | agvm_api/brain_sync_restore_materializer.py:1530-1534 | The sources are known under the plain spelling of their id if there is one, else under the other |
| SnapshotTexts.LinkTells | agvm_api/brain_sync_restore_materializer.py:1633-1649 | A materialized edge takes the other spelling first, keeps one of two edge types, and notes any other in its reason |
| SnapshotTexts.StripTells | agvm_api/brain_sync_restore_materializer.py:1523-1556 | Stripping takes all blanks off both ends and nothing else |

## Left out

Restore:

- RestoreStack.RunRefinesStack: a rollback in these runs names a standing restore, and a call comes back with what it began finished or undone; runs in which one dies underway are covered by RestoreCrash.RunIsCrashSafe
- RestoreCrash.RunIsCrashSafe: assumes no outside edits of the slots and a disciplined run (see "Runs"), since nothing in the code enforces that
- the two digests of a bundle, of the whole and of its content, are one value
- digests are uninterpreted functions of a tree, a registry or a destination binding; nothing assumes they tell inputs apart, and the directory encoding is not modelled
- receipt, transaction and rollback ids and request fingerprints are the structured values they are computed from, so two of them are equal only if those values are
- the bundle's schema, signature and count checks, request headers and the lock around each call
- materialization is one step that yields a tree or raises, possibly leaving part of one
- creation of empty parent directories, temporary files of an atomic write, and directories that a registry refresh creates for registered brains
- when an undo fails after an HTTP error the caller sees that undo's own error; the model gives both cases one reply
- time stamps, `last_rollback_error`, and path checks of records that the service itself wrote
- missing, unreadable or corrupt state files; the registry file exists when a restore begins
- preflight and the status query, which change nothing

Registry:

- `_safe_id` normalization: ids are the normalized ones, so they are never empty
- storage scans (node counts, lifecycle, quality, portable paths): whether a brain is safe is an input
- archives, their extraction and the directories of a deleted brain; only the registry is modelled
- the validation block and the missing-path list that are recomputed on each write
- `_reconcile_resolved_brain_record`, which refreshes one resolved record

Other parts:

- BrainProfile.Score: exact reals, and the exact square root is an input constrained by its square; floating-point rounding, the projection of routing values to vectors, and the record's digests are not modelled
- EvidenceLane.Diversify: row scores, coverage sets, term weights and bridge signals are inputs in the ranges the scorer guarantees; the library sort before it and the presentation after it are not modelled
- GraphView.BuildGraphView: text truncation, metadata, and non-numeric confidences; the library sort is an insertion sort with the same order
- GrowBinding.Bind: ids, decisions and targets are texts without surrounding blanks; provenance, temporal fields and node annotations are not modelled, and raw nodes carry no earlier structural-binding marks
- GrowBinding.DirectClaims: the hydrated evidence is the set of its ids; the compiler and the maintenance packets' contents are not modelled
- GrowBinding.ProduceClaims: of the investigation only this last step is modelled; its claim ids are digests with a prefix, taken as non-blank texts
- DocumentRegistry.PreviewDocuments.IndexDocument: persistence and reload of the index, and cleaning of keys
- SnapshotGraph.Materialize: positions, routing and colours of nodes, confidences, and white space outside ASCII
- SourceRevision.RevisionFile.RevisionFor: the snapshot projection that produces the content, and the lock
- routing of HTTP requests, searches, feedback ledgers, job queues, health checks and edition gates
