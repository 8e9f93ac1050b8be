/** Applying a restore: the request checks, the journaled block, and the undo that both the
    in-process handler and the recovery of an interrupted key run. */
module RestoreApply {
  import opened Wrappers
  import opened BrainRegistry
  import opened RestoreDisk

  /** A validated request. `tree` is what materialization yields, `nonce` the random part of
      the stage name, `safe` the brains whose storage scan passes. */
  datatype Request = Request(
    key: string, bundle: string, brain: string, displayName: string,
    authorized: bool, overwrite: bool, select: bool, expectedState: string,
    tree: Tree, nonce: nat, safe: set<string>)
  {
    function Fingerprint(): RestoreDisk.Fingerprint {
      RestoreDisk.Fingerprint(key, bundle, brain, overwrite, select, expectedState)
    }
    function Id(): ReceiptId { ReceiptId(key, bundle, brain) }
  }

  function Existing(d: Disk, brain: string): Option<Record> {
    if HasId(d.registry.brains, brain) then Some(Find(d.registry.brains, brain)) else None
  }

  function StateDigest(dg: Digests, d: Disk, brain: string): string {
    dg.binding(Binding(brain, Existing(d, brain).Some?, Dest(brain) in d.trees, Existing(d, brain),
        DigestAt(dg, d.trees, Dest(brain))))
  }

  function ShouldSelect(d: Disk, req: Request): bool {
    req.select || (Existing(d, req.brain).Some? && Existing(d, req.brain).value.isActive)
  }

  // ----- Undo

  /** The statuses from which recovery needs the backup to be there. */
  predicate NeedsBackup(status: Status) {
    status == BackupCreated || status == DestinationInstalled || status == RegistryCommitted
  }

  predicate Refuses(d: Disk, tx: Transaction) {
    tx.existed && tx.Backup() !in d.trees && NeedsBackup(tx.status)
  }

  /** Puts the destination back: from the backup when there is one, or by removing a
      destination that did not exist before. */
  function UndoDestination(m: Machine, plan: seq<Fault>): Res {
    var d, tx := m.disk, m.tx;
    var r := Res(m, plan, Done);
    if tx.existed && tx.Backup() in d.trees then
      Then(ThenIf(r, tx.Dest() in d.trees, Remove(tx.Dest())), Move(tx.Backup(), tx.Dest()))
    else if !tx.existed && tx.Dest() in d.trees then Then(r, Remove(tx.Dest()))
    else ThenIf(r, Refuses(d, tx), Check(false, false))
  }

  /** `_rollback_restore_transaction`. */
  function Undo(m: Machine, plan: seq<Fault>): Res {
    var tx := m.tx;
    var r := UndoDestination(m, plan);
    var r := ThenIf(r, tx.stage in m.disk.trees, Remove(tx.stage));
    var r := Then(r, WriteRegistry(tx.originalRegistry));
    Then(r, Commit(tx.(status := ApplyRolledBack)))
  }

  // ----- The journaled block

  function Opened(req: Request, d: Disk): Transaction {
    var existing := Existing(d, req.brain);
    Transaction(
      req.key, req.Fingerprint(), Staging, Stage(req.Id(), req.nonce), existing.Some?, d.registry,
      Receipt(req.Id(), req.brain, existing.None?, existing.Some?, ShouldSelect(d, req)),
      None, None, None, None, NoRollback, None, false)
  }

  /** Before the block: a stale stage is cleared, the backup slot must be free, and the
      transaction is journaled. A failure here is not undone; there is nothing to undo. */
  function Open(req: Request, d: Disk, tx: Transaction, plan: seq<Fault>): Res {
    var r := Res(Machine(d, tx), plan, Done);
    var r := ThenIf(r, tx.stage in d.trees, Remove(tx.stage));
    var r := Then(r, Check(tx.Backup() !in d.trees, true));
    Then(r, Commit(tx))
  }

  function StagePhase(r: Res, req: Request): Res {
    var tx := r.m.tx;
    Then(Then(r, Build(tx.stage, req.tree)), Commit(tx.(status := Staged)))
  }

  function BackupPhase(dg: Digests, r: Res): Res {
    if !r.end.Done? then r
    else
      var tx := r.m.tx;
      var r := Then(r, Move(tx.Dest(), tx.Backup()));
      var r := Then(r, Hash(tx.Backup()));
      Then(r, Commit(tx.(backupDigest := DigestAt(dg, r.m.disk.trees, tx.Backup()), status := BackupCreated)))
  }

  function InstallPhase(dg: Digests, r: Res): Res {
    if !r.end.Done? then r
    else
      var tx := r.m.tx;
      var r := Then(r, Move(tx.stage, tx.Dest()));
      var r := Then(r, Hash(tx.Dest()));
      Then(r, Commit(tx.(appliedDigest := DigestAt(dg, r.m.disk.trees, tx.Dest()), status := DestinationInstalled)))
  }

  /** The registry writes of a restore, as the registry values they produce. */
  datatype RegistryUpdate = RegistryUpdate(created: Registry, refreshed: Registry, selection: Result<Registry, string>,
      after: Registry)

  function UpdateOf(before: Registry, req: Request, existed: bool, selected: bool): RegistryUpdate {
    var created := if existed then before else CreateOf(before, req.brain, req.displayName, "restored", false, false);
    var refreshed := RefreshOf(created, req.safe);
    var isDefault := HasId(before.brains, req.brain) && Find(before.brains, req.brain).isDefault;
    var selection := SelectOf(refreshed, req.brain, isDefault);
    RegistryUpdate(created, refreshed, selection, if selected && selection.Ok? then selection.value else refreshed)
  }

  predicate Selectable(r: Registry, brain: string) {
    HasId(r.brains, brain) && Find(r.brains, brain).safe
  }

  predicate SelectionIs(r: Registry, brain: string, selected: bool) {
    HasId(r.brains, brain) && Find(r.brains, brain).isActive == selected
  }

  function RegistryChain(r: Res, u: RegistryUpdate, existed: bool, selected: bool, selectable: bool, matches: bool)
      : Res {
    var r := ThenIf(r, !existed, WriteRegistry(u.created));
    var r := ThenIf(r, true, WriteRegistry(u.refreshed));
    var r := ThenIf(r, selected, Check(u.selection.Ok?, true));
    var r := ThenIf(r, selected, WriteRegistry(u.after));
    var r := ThenIf(r, true, Check(selectable, true));
    ThenIf(r, true, Check(matches, false))
  }

  /** `_update_registry_after_restore`: create, refresh and select, each a registry write,
      and the checks that the brain can be used and is selected as the receipt says. */
  function RegistrySteps(r: Res, req: Request): Res {
    if !r.end.Done? then r
    else
      var tx := r.m.tx;
      var u := UpdateOf(r.m.disk.registry, req, tx.existed, tx.receipt.selected);
      RegistryChain(r, u, tx.existed, tx.receipt.selected, Selectable(u.after, req.brain),
          SelectionIs(u.after, req.brain, tx.receipt.selected))
  }

  function RegistryPhase(dg: Digests, r: Res, req: Request): Res {
    var r := RegistrySteps(r, req);
    if !r.end.Done? then r
    else
      var reg := r.m.disk.registry;
      Then(r, Commit(r.m.tx.(appliedRegistry := Some(reg), appliedRegistryDigest := Some(dg.registry(reg)),
          status := RegistryCommitted)))
  }

  function FinishPhase(r: Res): Res {
    var tx := r.m.tx;
    var r := Then(r, WriteReceipt(tx.receipt));
    var r := Then(r, WriteIdempotency(tx.fingerprint));
    Then(r, Commit(tx.(status := Applied)))
  }

  /** Everything inside the `try`, from the machine the journaled transaction left. */
  function ApplyBlock(dg: Digests, m: Machine, req: Request, plan: seq<Fault>): Res {
    var r := Res(m, plan, Done);
    var r := StagePhase(r, req);
    var r := if m.tx.existed then BackupPhase(dg, r) else r;
    var r := InstallPhase(dg, r);
    var r := RegistryPhase(dg, r, req);
    FinishPhase(r)
  }

  // ----- The whole call

  datatype Replay =
    | Answer(receipt: Receipt)
    | RepairReceipt(receipt: Receipt)
    | RepairBoth(receipt: Receipt)
    | Reject(code: string)
    | Recover
    | Fresh

  /** What an earlier call with the same key decides. */
  function ReplayOf(d: Disk, req: Request): Replay {
    if req.key in d.idempotency then
      if d.idempotency[req.key] != req.Fingerprint() then Reject("idempotency_replay_mismatch")
      else if req.key in d.journal && d.journal[req.key].status == RolledBack then Reject("transaction_rolled_back")
      else if req.key in d.journal && d.journal[req.key].status in {RollbackPending, RollbackRecoveryRequired} then
          Reject("recovery_required")
      else if req.Id() in d.receipts then Answer(d.receipts[req.Id()])
      else if req.key in d.journal && d.journal[req.key].status == Applied
          && d.journal[req.key].fingerprint == req.Fingerprint()
      then RepairReceipt(d.journal[req.key].receipt)
      else Reject("idempotency_receipt_missing")
    else if req.key in d.journal then
      if d.journal[req.key].fingerprint != req.Fingerprint() then Reject("idempotency_replay_mismatch")
      else if d.journal[req.key].status == Applied then RepairBoth(d.journal[req.key].receipt)
      else Recover
    else Fresh
  }

  /** Why a fresh attempt is refused, if it is. */
  function Objection(dg: Digests, d: Disk, req: Request): Option<string> {
    var existing := Existing(d, req.brain);
    if existing.Some? && !req.authorized then Some("existing_destination_not_authorized")
    else if existing.Some? && !req.overwrite then Some("overwrite_confirmation_required")
    else if existing.Some? && existing.value.layout != RegistryManaged then
        Some("registry_managed_destination_required")
    else if existing.Some? && existing.value.folder != req.brain then Some("destination_path_mismatch")
    else if existing.None? && Dest(req.brain) in d.trees then Some("unregistered_destination_exists")
    else if StateDigest(dg, d, req.brain) != req.expectedState then Some("destination_changed_since_preflight")
    else None
  }

  /** The block, and on an exception the undo. */
  function ApplyOrUndo(dg: Digests, m: Machine, req: Request, plan: seq<Fault>): Call<Receipt> {
    var r := ApplyBlock(dg, m, req, plan);
    match r.end
    case Done => Call(r.m.disk, r.plan, Replied(m.tx.receipt))
    case Crashed => Call(r.m.disk, r.plan, Dead)
    case Raised(http) =>
      var u := Undo(r.m, r.plan);
      Call(u.m.disk, u.plan, match u.end
        case Crashed => Dead
        case Raised(_) => Failed(RecoveryRequired)
        case Done => Failed(if http then ApplyError else ApplyFailedRolledBack))
  }

  /** An attempt that passed the checks. */
  function AttemptFrom(dg: Digests, d: Disk, req: Request, tx: Transaction, plan: seq<Fault>): Call<Receipt> {
    var o := Open(req, d, tx, plan);
    match o.end
    case Crashed => Call(o.m.disk, o.plan, Dead)
    case Raised(_) => Call(o.m.disk, o.plan, Failed(NotStarted))
    case Done => ApplyOrUndo(dg, o.m, req, o.plan)
  }

  function Attempt(dg: Digests, d: Disk, req: Request, plan: seq<Fault>): Call<Receipt> {
    var objection := Objection(dg, d, req);
    if objection.Some? then Call(d, plan, Refused(objection.value))
    else AttemptFrom(dg, d, req, Opened(req, d), plan)
  }

  function Reported<T>(r: Res, value: T): Call<T> {
    Call(r.m.disk, r.plan,
        match r.end case Done => Replied(value) case Raised(_) => Failed(WriteFailed) case Crashed => Dead)
  }

  /** `_apply_restore_under_lock`. */
  function Apply(dg: Digests, d: Disk, req: Request, plan: seq<Fault>): Call<Receipt> {
    match ReplayOf(d, req)
    case Reject(code) => Call(d, plan, Refused(code))
    case Answer(receipt) => Call(d, plan, Replied(receipt))
    case RepairReceipt(receipt) =>
        Reported(Then(Res(Machine(d, d.journal[req.key]), plan, Done), WriteReceipt(receipt)), receipt)
    case RepairBoth(receipt) =>
      var r := Res(Machine(d, d.journal[req.key]), plan, Done);
      Reported(Then(Then(r, WriteReceipt(receipt)), WriteIdempotency(req.Fingerprint())), receipt)
    case Recover =>
      var u := Undo(Machine(d, d.journal[req.key]), plan);
      (match u.end
       case Done => Attempt(dg, u.m.disk, req, u.plan)
       case Raised(_) => Call(u.m.disk, u.plan, Failed(RecoveryFailed))
       case Crashed => Call(u.m.disk, u.plan, Dead))
    case Fresh => Attempt(dg, d, req, plan)
  }
}
