/** The disk the restore transaction works on, one slot per file or directory, and the
    steps it takes. Every directory move and every atomic file write is one step; a step
    may be cut short by an exception or by the death of the process. */
module RestoreDisk {
  import opened Wrappers
  import opened BrainRegistry

  /** A directory tree: relative path to contents. */
  type Tree = map<string, string>

  datatype ReceiptId = ReceiptId(key: string, bundle: string, brain: string)
  datatype RollbackId = RollbackId(key: string, rollbackKey: string)

  /** Where a directory tree can sit under the brain root. */
  datatype Place =
    | Dest(brain: string)
    | Backup(receipt: ReceiptId)
    | Stage(receipt: ReceiptId, nonce: nat)
    | RollbackStage(rollback: RollbackId)

  type Trees = map<Place, Tree>

  datatype Status =
    | Staging | Staged | BackupCreated | DestinationInstalled | RegistryCommitted | Applied
    | ApplyRolledBack
    | RollbackPending | RolledBack | RollbackRecoveryRequired

  datatype Phase = NoRollback | Prepared | DestinationRetained | BackupInstalled | RegistryRestored

  /** What an apply request is identified by when its key is replayed. */
  datatype Fingerprint = Fingerprint(
    key: string, bundle: string, brain: string, overwrite: bool, select: bool, expectedState: string)

  datatype RollbackFingerprint = RollbackFingerprint(key: string, expectedDestination: string)

  datatype Receipt = Receipt(id: ReceiptId, brain: string, created: bool, overwritten: bool, selected: bool)

  datatype RollbackReceipt = RollbackReceipt(id: RollbackId, brain: string, restored: string)

  /** The journal record of one restore. */
  datatype Transaction = Transaction(
    key: string,
    fingerprint: Fingerprint,
    status: Status,
    stage: Place,
    existed: bool,
    originalRegistry: Registry,
    receipt: Receipt,
    backupDigest: Option<string>,
    appliedDigest: Option<string>,
    appliedRegistry: Option<Registry>,
    appliedRegistryDigest: Option<string>,
    phase: Phase,
    rollbackReceipt: Option<RollbackReceipt>,
    cleanupPending: bool)
  {
    function Dest(): Place { Place.Dest(receipt.brain) }
    function Backup(): Place { Place.Backup(receipt.id) }
  }

  datatype Disk = Disk(
    trees: Trees,
    registry: Registry,
    journal: map<string, Transaction>,
    receipts: map<ReceiptId, Receipt>,
    idempotency: map<string, Fingerprint>,
    rollbackReceipts: map<RollbackId, RollbackReceipt>,
    rollbackIdempotency: map<string, RollbackFingerprint>)

  /** What the destination looked like when the request was prepared. */
  datatype Binding = Binding(brain: string, registered: bool, present: bool, record: Option<Record>,
      tree: Option<string>)

  /** The digests, uninterpreted: nothing here assumes that they tell inputs apart. */
  datatype Digests = Digests(tree: Tree -> string, registry: Registry -> string, binding: Binding -> string)

  function At(trees: Trees, p: Place): Option<Tree> {
    if p in trees then Some(trees[p]) else None
  }

  function DigestAt(dg: Digests, trees: Trees, p: Place): Option<string> {
    if p in trees then Some(dg.tree(trees[p])) else None
  }

  // ----- Steps

  datatype Step =
    | Build(place: Place, tree: Tree)
    | Move(source: Place, target: Place)
    | Remove(place: Place)
    | Hash(place: Place)
    | Check(ok: bool, http: bool)
    | WriteRegistry(registry: Registry)
    | Commit(transaction: Transaction)
    | WriteReceipt(receipt: Receipt)
    | WriteIdempotency(fingerprint: Fingerprint)
    | WriteRollbackReceipt(slot: RollbackId, rollbackReceipt: RollbackReceipt)
    | WriteRollbackIdempotency(rollbackKey: string, rollbackFingerprint: RollbackFingerprint)
    | UnlinkRollbackIdempotency(rollbackKey: string)
    | UnlinkRollbackReceipt(rollback: RollbackId)

  /** The disk and the transaction record the running process holds in memory. */
  datatype Machine = Machine(disk: Disk, tx: Transaction)

  /** What happens to one step. Building and removing a tree are not atomic: a fault may
      leave `partial` behind. */
  datatype Fault = NoFault | Raise(partial: Option<Tree>, http: bool) | Crash(partial: Option<Tree>)

  datatype End = Done | Raised(http: bool) | Crashed
  {
    predicate IsFailure() { !Done? }
    function PropagateFailure(): End { this }
  }

  datatype Res = Res(m: Machine, plan: seq<Fault>, end: End)

  /** When the step can complete: a move needs its source and a free target. */
  predicate Enabled(d: Disk, s: Step) {
    match s
    case Build(p, _) => p !in d.trees
    case Move(src, dst) => src in d.trees && dst !in d.trees
    case Hash(p) => p in d.trees
    case Check(ok, _) => ok
    case _ => true
  }

  function Completed(m: Machine, s: Step): Machine {
    var d := m.disk;
    match s
    case Build(p, t) => m.(disk := d.(trees := d.trees[p := t]))
    case Move(src, dst) => if src in d.trees then m.(disk := d.(trees := (d.trees - {src})[dst := d.trees[src]])) else m
    case Remove(p) => m.(disk := d.(trees := d.trees - {p}))
    case Hash(_) => m
    case Check(_, _) => m
    case WriteRegistry(r) => m.(disk := d.(registry := r))
    case Commit(tx) => Machine(d.(journal := d.journal[tx.key := tx]), tx)
    case WriteReceipt(r) => m.(disk := d.(receipts := d.receipts[r.id := r]))
    case WriteIdempotency(f) => m.(disk := d.(idempotency := d.idempotency[f.key := f]))
    case WriteRollbackReceipt(id, r) => m.(disk := d.(rollbackReceipts := d.rollbackReceipts[id := r]))
    case WriteRollbackIdempotency(k, f) => m.(disk := d.(rollbackIdempotency := d.rollbackIdempotency[k := f]))
    case UnlinkRollbackIdempotency(k) => m.(disk := d.(rollbackIdempotency := d.rollbackIdempotency - {k}))
    case UnlinkRollbackReceipt(id) => m.(disk := d.(rollbackReceipts := d.rollbackReceipts - {id}))
  }

  /** The state a faulted step leaves. A journal write changes the record in memory first. */
  function Interrupted(m: Machine, s: Step, partial: Option<Tree>): Machine {
    var d := m.disk;
    match s
    case Build(p, _) => if partial.Some? && p !in d.trees then m.(disk := d.(trees := d.trees[p := partial.value]))
        else m
    case Remove(p) => if partial.Some? && p in d.trees then m.(disk := d.(trees := d.trees[p := partial.value])) else m
    case Commit(tx) => m.(tx := tx)
    case _ => m
  }

  /** Takes one more step, unless an earlier one already failed. */
  function Then(r: Res, s: Step): Res {
    if !r.end.Done? then r
    else
      var fault := if r.plan == [] then NoFault else r.plan[0];
      var plan := if r.plan == [] then [] else r.plan[1..];
      match fault
      case NoFault =>
        if Enabled(r.m.disk, s) then Res(Completed(r.m, s), plan, Done)
        else Res(r.m, plan, Raised(s.Check? && s.http))
      case Raise(partial, http) => Res(Interrupted(r.m, s, partial), plan, Raised(http))
      case Crash(partial) => Res(Interrupted(r.m, s, partial), plan, Crashed)
  }

  function ThenIf(r: Res, condition: bool, s: Step): Res {
    if condition then Then(r, s) else r
  }

  /** The outcome of a call as its caller sees it; `Dead` when the process died. */
  datatype Reply<+T> = Replied(value: T) | Refused(code: string) | Failed(why: Failure) | Dead

  datatype Failure =
    | NotStarted | ApplyError | ApplyFailedRolledBack | RecoveryRequired | RecoveryFailed | WriteFailed
    | RollbackNotStarted | RollbackFailedReverted | RollbackNeedsRecovery | CleanupFailed

  datatype Call<+T> = Call(disk: Disk, plan: seq<Fault>, reply: Reply<T>)
}
