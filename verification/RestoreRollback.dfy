/** The public rollback of an applied restore, and the undo of a failed public rollback. */
module RestoreRollback {
  import opened Wrappers
  import opened BrainRegistry
  import opened RestoreDisk
  import opened RestoreApply
  import opened RestoreSafety

  datatype RollbackRequest = RollbackRequest(key: string, rollbackKey: string, expectedDestination: string)
  {
    function Fingerprint(): RollbackFingerprint { RollbackFingerprint(key, expectedDestination) }
    function Id(): RollbackId { RollbackId(key, rollbackKey) }
    function Stage(): Place { RollbackStage(Id()) }
  }

  /** Why a rollback is refused before anything is changed, if it is. */
  function RollbackObjection(dg: Digests, d: Disk, tx: Transaction, req: RollbackRequest): Option<string> {
    if tx.status == RolledBack then Some("transaction_already_rolled_back")
    else if tx.status == RollbackPending then Some("rollback_recovery_required")
    else if tx.status != Applied then Some("transaction_not_applied")
    else if tx.appliedDigest.None? then Some("destination_integrity_unavailable")
    else if Some(req.expectedDestination) != tx.appliedDigest then Some("expected_destination_mismatch")
    else if !tx.existed then Some("retained_backup_required")
    else if DigestAt(dg, d.trees, tx.Dest()) != tx.appliedDigest then Some("destination_changed")
    else if tx.Backup() !in d.trees then Some("retained_backup_missing")
    else if tx.appliedRegistry.None? || tx.appliedRegistryDigest.None? then Some("registry_integrity_unavailable")
    else if Some(dg.registry(d.registry)) != tx.appliedRegistryDigest then Some("registry_changed")
    else if tx.backupDigest.Some? && DigestAt(dg, d.trees, tx.Backup()) != tx.backupDigest then
        Some("retained_backup_changed")
    else if req.Stage() in d.trees then Some("rollback_recovery_required")
    else None
  }

  function BackupDigest(dg: Digests, d: Disk, tx: Transaction): string
    requires tx.Backup() in d.trees
  {
    if tx.backupDigest.Some? then tx.backupDigest.value else dg.tree(d.trees[tx.Backup()])
  }

  /** Moves the installed tree aside, the backup back, and the old registry in. */
  function SwapBack(dg: Digests, m: Machine, req: RollbackRequest, digest: string, plan: seq<Fault>): Res {
    var tx := m.tx;
    var r := Res(m, plan, Done);
    var r := Then(r, Move(tx.Dest(), req.Stage()));
    var r := Then(r, Commit(tx.(phase := DestinationRetained)));
    var r := Then(r, Move(tx.Backup(), tx.Dest()));
    var r := Then(r, Commit(tx.(phase := BackupInstalled)));
    var r := Then(r, Hash(tx.Dest()));
    Then(r, Check(DigestAt(dg, r.m.disk.trees, tx.Dest()) == Some(digest), false))
  }

  function RecordRollback(r: Res, tx: Transaction, req: RollbackRequest, receipt: RollbackReceipt): Res {
    var r := Then(r, WriteRegistry(tx.originalRegistry));
    var r := Then(r, Commit(tx.(phase := RegistryRestored)));
    var r := Then(r, WriteRollbackReceipt(req.Id(), receipt));
    var r := Then(r, WriteRollbackIdempotency(req.rollbackKey, req.Fingerprint()));
    Then(r, Commit(tx.(phase := RegistryRestored, rollbackReceipt := Some(receipt), status := RolledBack)))
  }

  /** Everything inside the `try` of a public rollback. */
  function RollbackBlock(dg: Digests, m: Machine, req: RollbackRequest, receipt: RollbackReceipt, plan: seq<Fault>)
      : Res {
    RecordRollback(SwapBack(dg, m, req, receipt.restored, plan), m.tx, req, receipt)
  }

  /** The trees part of `_revert_public_rollback`. */
  function RevertTrees(m: Machine, req: RollbackRequest, plan: seq<Fault>): Res {
    var d, tx := m.disk, m.tx;
    var r := Res(m, plan, Done);
    if req.Stage() !in d.trees then r
    else
      var r := ThenIf(r, tx.Dest() in d.trees && tx.Backup() in d.trees, Check(false, false));
      var r := ThenIf(r, tx.Dest() in d.trees && tx.Backup() !in d.trees, Move(tx.Dest(), tx.Backup()));
      Then(r, Move(req.Stage(), tx.Dest()))
  }

  /** `_revert_public_rollback` and the removal of the two rollback records. */
  function Revert(m: Machine, req: RollbackRequest, plan: seq<Fault>): Res {
    var tx := m.tx;
    var r := RevertTrees(m, req, plan);
    var r := ThenIf(r, tx.appliedRegistry.Some?,
        WriteRegistry(if tx.appliedRegistry.Some? then tx.appliedRegistry.value else m.disk.registry));
    var r := Then(r, Commit(tx.(status := Applied, phase := NoRollback)));
    var r := Then(r, UnlinkRollbackIdempotency(req.rollbackKey));
    Then(r, UnlinkRollbackReceipt(req.Id()))
  }

  /** After a successful rollback the replaced tree is deleted; a failed deletion is noted. */
  function Cleanup(r: Res, req: RollbackRequest): Res {
    var c := Then(r, Remove(req.Stage()));
    if c.end.Raised? then Then(Res(c.m, c.plan, Done), Commit(c.m.tx.(cleanupPending := true))) else c
  }

  /** A revert that fails itself is journaled as needing recovery, if that write succeeds. */
  function Escalate(u: Res): Res {
    if u.end.Raised? then Then(Res(u.m, u.plan, Done), Commit(u.m.tx.(status := RollbackRecoveryRequired))) else u
  }

  /** From the journaled `rollback_pending` on: the block, then cleanup or revert. */
  function RollbackOrRevert(dg: Digests, m: Machine, req: RollbackRequest, receipt: RollbackReceipt, plan: seq<Fault>)
      : Call<RollbackReceipt> {
    var r := RollbackBlock(dg, m, req, receipt, plan);
    match r.end
    case Crashed => Call(r.m.disk, r.plan, Dead)
    case Done =>
      var c := Cleanup(r, req);
      Call(c.m.disk, c.plan,
          match c.end case Done => Replied(receipt) case Raised(_) => Failed(CleanupFailed) case Crashed => Dead)
    case Raised(_) =>
      var u := Revert(r.m, req, r.plan);
      if u.end.Done? then Call(u.m.disk, u.plan, Failed(RollbackFailedReverted))
      else
        var e := Escalate(u);
        Call(e.m.disk, e.plan, if e.end.Crashed? then Dead else Failed(RollbackNeedsRecovery))
  }

  function PendingOf(tx: Transaction): Transaction {
    tx.(phase := Prepared, status := RollbackPending)
  }

  function RollbackAccepted(dg: Digests, d: Disk, tx: Transaction, req: RollbackRequest, plan: seq<Fault>)
      : Call<RollbackReceipt>
    requires tx.Backup() in d.trees
  {
    var receipt := RollbackReceipt(req.Id(), tx.receipt.brain, BackupDigest(dg, d, tx));
    var o := Then(Res(Machine(d, tx), plan, Done), Commit(PendingOf(tx)));
    match o.end
    case Crashed => Call(o.m.disk, o.plan, Dead)
    case Raised(_) => Call(o.m.disk, o.plan, Failed(RollbackNotStarted))
    case Done => RollbackOrRevert(dg, o.m, req, receipt, o.plan)
  }

  /** The answer to a rollback key that was used before. */
  function RollbackReplay(d: Disk, tx: Transaction, req: RollbackRequest, plan: seq<Fault>): Call<RollbackReceipt>
    requires req.rollbackKey in d.rollbackIdempotency
  {
    if d.rollbackIdempotency[req.rollbackKey] != req.Fingerprint() then
        Call(d, plan, Refused("rollback_idempotency_replay_mismatch"))
    else if req.Id() in d.rollbackReceipts then
      Call(d, plan, if tx.status == RolledBack then Replied(d.rollbackReceipts[req.Id()])
          else Refused("rollback_receipt_missing"))
    else if tx.rollbackReceipt.Some? then
      var r := Then(Res(Machine(d, tx), plan, Done), WriteRollbackReceipt(req.Id(), tx.rollbackReceipt.value));
      Call(r.m.disk, r.plan, match r.end
        case Crashed => Dead
        case Raised(_) => Failed(WriteFailed)
        case Done => if tx.status == RolledBack then Replied(tx.rollbackReceipt.value)
            else Refused("rollback_receipt_missing"))
    else Call(d, plan, Refused("rollback_receipt_missing"))
  }

  /** `_rollback_applied_restore_under_lock`. */
  function Rollback(dg: Digests, d: Disk, req: RollbackRequest, plan: seq<Fault>): Call<RollbackReceipt> {
    if req.key !in d.journal then Call(d, plan, Refused("transaction_not_found"))
    else
      var tx := d.journal[req.key];
      if req.rollbackKey in d.rollbackIdempotency then RollbackReplay(d, tx, req, plan)
      else if RollbackObjection(dg, d, tx, req).Some? then
          Call(d, plan, Refused(RollbackObjection(dg, d, tx, req).value))
      else RollbackAccepted(dg, d, tx, req, plan)
  }

  // ----- Where the trees can be

  /** The three arrangements of original and installed tree that a public rollback and its
      undo pass through; every other place is untouched. */
  ghost predicate Arranged(before: Trees, trees: Trees, tx: Transaction, aside: Place) {
    && (forall p: Place :: p != tx.Dest() && p != tx.Backup() && p != aside ==> At(before, p) == At(trees, p))
    && (|| (aside !in trees && At(trees, tx.Dest()) == At(before, tx.Dest())
        && At(trees, tx.Backup()) == At(before, tx.Backup()))
        || (At(trees, aside) == At(before, tx.Dest()) && tx.Dest() !in trees
            && At(trees, tx.Backup()) == At(before, tx.Backup()))
        || (At(trees, aside) == At(before, tx.Dest()) && At(trees, tx.Dest()) == At(before, tx.Backup())
            && tx.Backup() !in trees))
  }

  predicate SwappedBack(before: Trees, trees: Trees, tx: Transaction, aside: Place) {
    At(trees, aside) == At(before, tx.Dest()) && At(trees, tx.Dest()) == At(before, tx.Backup())
        && tx.Backup() !in trees
  }

  /** The transaction and disk at the start of the block. */
  predicate Pending(m: Machine, req: RollbackRequest) {
    var tx := m.tx;
    && WellFormed(tx) && tx.existed && tx.status == RollbackPending && tx.key == req.key
    && tx.Dest() in m.disk.trees && tx.Backup() in m.disk.trees && req.Stage() !in m.disk.trees
    && tx.appliedRegistry.Some?
    && tx.key in m.disk.journal && m.disk.journal[tx.key] == tx
    && req.rollbackKey !in m.disk.rollbackIdempotency
  }

  /** The journaled record keeps the identity and everything a later rollback checks. */
  predicate SameRestore(a: Transaction, b: Transaction) {
    && SameTransaction(a, b)
    && a.backupDigest == b.backupDigest && a.appliedDigest == b.appliedDigest
    && a.appliedRegistry == b.appliedRegistry && a.appliedRegistryDigest == b.appliedRegistryDigest
  }

  ghost predicate OnlyRollbackFiles(before: Disk, after: Disk, req: RollbackRequest) {
    && before.journal - {req.key} == after.journal - {req.key}
    && before.receipts == after.receipts && before.idempotency == after.idempotency
    && before.rollbackReceipts - {req.Id()} == after.rollbackReceipts - {req.Id()}
    && before.rollbackIdempotency - {req.rollbackKey} == after.rollbackIdempotency - {req.rollbackKey}
  }

  /** Holds wherever the block stops. */
  ghost predicate Revertible(m0: Machine, m: Machine, req: RollbackRequest) {
    && Arranged(m0.disk.trees, m.disk.trees, m0.tx, req.Stage())
    && SameRestore(m.tx, m0.tx)
    && OnlyRollbackFiles(m0.disk, m.disk, req)
    && req.key in m.disk.journal && SameRestore(m.disk.journal[req.key], m0.tx)
    && m.disk.journal[req.key].status == RollbackPending
  }

  predicate RollbackStep(m0: Machine, m: Machine, req: RollbackRequest, s: Step) {
    var tx := m0.tx;
    match s
    case Move(src, dst) =>
      || (src == tx.Dest() && dst == req.Stage() && At(m.disk.trees, tx.Backup()) == At(m0.disk.trees, tx.Backup())
          && At(m.disk.trees, tx.Dest()) == At(m0.disk.trees, tx.Dest()))
      || (src == tx.Backup() && dst == tx.Dest() && At(m.disk.trees, req.Stage()) == At(m0.disk.trees, tx.Dest())
          && At(m.disk.trees, tx.Backup()) == At(m0.disk.trees, tx.Backup()))
    case Hash(_) => true
    case Check(_, _) => true
    case WriteRegistry(_) => true
    case Commit(t) => SameRestore(t, tx) && t.status == RollbackPending
    case WriteRollbackReceipt(id, r) => id == req.Id()
    case WriteRollbackIdempotency(k, f) => k == req.rollbackKey
    case _ => false
  }

  lemma {:induction false} RevertibleCompleted(m0: Machine, m: Machine, req: RollbackRequest, s: Step)
    requires Pending(m0, req) && Revertible(m0, m, req) && RollbackStep(m0, m, req, s) && Enabled(m.disk, s)
    ensures Revertible(m0, Completed(m, s), req)
  {
    match s
    case Commit(t) => ExceptUpdate(m.disk.journal, t.key, t);
    case WriteRollbackReceipt(id, r) => ExceptUpdate(m.disk.rollbackReceipts, id, r);
    case WriteRollbackIdempotency(k, f) => ExceptUpdate(m.disk.rollbackIdempotency, k, f);
    case _ =>
  }

  lemma {:induction false} RevertibleThen(m0: Machine, r: Res, req: RollbackRequest, s: Step)
    requires Pending(m0, req) && Revertible(m0, r.m, req) && (r.end.Done? ==> RollbackStep(m0, r.m, req, s))
    ensures Revertible(m0, Then(r, s).m, req)
    ensures Then(r, s).end.Done? ==> r.end.Done? && Enabled(r.m.disk, s) && Then(r, s).m == Completed(r.m, s)
  {
    if r.end.Done? && Enabled(r.m.disk, s) { RevertibleCompleted(m0, r.m, req, s); }
    var partial := ThenCases(r, s);
    ThenDone(r, s);
  }

  /** A step that moves no tree. */
  lemma {:induction false} FileThen(m0: Machine, r: Res, req: RollbackRequest, s: Step)
    requires Pending(m0, req) && Revertible(m0, r.m, req)
    requires s.Hash? || s.Check? || s.Commit? || s.WriteRegistry? || s.WriteRollbackReceipt?
        || s.WriteRollbackIdempotency?
    requires r.end.Done? ==> RollbackStep(m0, r.m, req, s)
    ensures var r' := Then(r, s);
            && Revertible(m0, r'.m, req)
            && r'.m.disk.trees == r.m.disk.trees
            && (!s.WriteRegistry? ==> r'.m.disk.registry == r.m.disk.registry)
            && (!s.WriteRollbackReceipt? ==> r'.m.disk.rollbackReceipts == r.m.disk.rollbackReceipts)
            && (!s.WriteRollbackIdempotency? ==> r'.m.disk.rollbackIdempotency == r.m.disk.rollbackIdempotency)
            && (r'.end.Done? ==> r.end.Done? && Enabled(r.m.disk, s) && r'.m == Completed(r.m, s))
            && (r.end.Done? && r.plan == [] && Enabled(r.m.disk, s) ==> r'.end.Done? && r'.plan == [])
  {
    RevertibleThen(m0, r, req, s);
    var partial := ThenCases(r, s);
  }

  predicate RollbackRecordsUntouched(m0: Machine, m: Machine) {
    && m.disk.registry == m0.disk.registry
    && m.disk.rollbackReceipts == m0.disk.rollbackReceipts && m.disk.rollbackIdempotency == m0.disk.rollbackIdempotency
  }

  predicate MovedAside(before: Trees, trees: Trees, tx: Transaction, aside: Place) {
    At(trees, aside) == At(before, tx.Dest()) && tx.Dest() !in trees
        && At(trees, tx.Backup()) == At(before, tx.Backup())
  }

  lemma {:induction false} MoveAsideStops(m0: Machine, r0: Res, req: RollbackRequest)
    requires Pending(m0, req) && r0.m == m0
    ensures var r := Then(Then(r0, Move(m0.tx.Dest(), req.Stage())), Commit(m0.tx.(phase := DestinationRetained)));
            && Revertible(m0, r.m, req) && RollbackRecordsUntouched(m0, r.m)
            && (r.end.Done? ==> MovedAside(m0.disk.trees, r.m.disk.trees, m0.tx, req.Stage()))
            && (r0.end.Done? && r0.plan == [] ==> r.end.Done? && r.plan == [])
  {
    var s1 := Move(m0.tx.Dest(), req.Stage());
    MoveStops(r0, m0.tx.Dest(), req.Stage());
    RevertibleThen(m0, r0, req, s1);
    FileThen(m0, Then(r0, s1), req, Commit(m0.tx.(phase := DestinationRetained)));
  }

  lemma {:induction false} MoveBackStops(m0: Machine, r2: Res, req: RollbackRequest)
    requires Pending(m0, req) && Revertible(m0, r2.m, req) && RollbackRecordsUntouched(m0, r2.m)
    requires r2.end.Done? ==> MovedAside(m0.disk.trees, r2.m.disk.trees, m0.tx, req.Stage())
    ensures var r := Then(Then(r2, Move(m0.tx.Backup(), m0.tx.Dest())), Commit(m0.tx.(phase := BackupInstalled)));
            && Revertible(m0, r.m, req) && RollbackRecordsUntouched(m0, r.m)
            && (r.end.Done? ==> SwappedBack(m0.disk.trees, r.m.disk.trees, m0.tx, req.Stage()))
            && (r2.end.Done? && r2.plan == [] ==> r.end.Done? && r.plan == [])
  {
    var s3 := Move(m0.tx.Backup(), m0.tx.Dest());
    MoveStops(r2, m0.tx.Backup(), m0.tx.Dest());
    RevertibleThen(m0, r2, req, s3);
    FileThen(m0, Then(r2, s3), req, Commit(m0.tx.(phase := BackupInstalled)));
  }

  lemma {:induction false} SwapBackStops(dg: Digests, m0: Machine, req: RollbackRequest, digest: string,
      plan: seq<Fault>)
    requires Pending(m0, req)
    ensures var r := SwapBack(dg, m0, req, digest, plan);
            && Revertible(m0, r.m, req)
            && (r.end.Done? ==> SwappedBack(m0.disk.trees, r.m.disk.trees, m0.tx, req.Stage()))
            && (r.end.Done? ==> DigestAt(dg, m0.disk.trees, m0.tx.Backup()) == Some(digest))
            && RollbackRecordsUntouched(m0, r.m)
            && (plan == [] && DigestAt(dg, m0.disk.trees, m0.tx.Backup()) == Some(digest) ==>
                r.end.Done? && r.plan == [])
  {
    var tx := m0.tx;
    var r0 := Res(m0, plan, Done);
    MoveAsideStops(m0, r0, req);
    var r2 := Then(Then(r0, Move(tx.Dest(), req.Stage())), Commit(tx.(phase := DestinationRetained)));
    MoveBackStops(m0, r2, req);
    var r4 := Then(Then(r2, Move(tx.Backup(), tx.Dest())), Commit(tx.(phase := BackupInstalled)));
    FileThen(m0, r4, req, Hash(tx.Dest()));
    var r5 := Then(r4, Hash(tx.Dest()));
    FileThen(m0, r5, req, Check(DigestAt(dg, r5.m.disk.trees, tx.Dest()) == Some(digest), false));
  }

  /** A completed public rollback: the original tree and registry are back, recorded. */
  ghost predicate RolledBackDisk(m0: Machine, m: Machine, req: RollbackRequest, receipt: RollbackReceipt) {
    && SwappedBack(m0.disk.trees, m.disk.trees, m0.tx, req.Stage())
    && Arranged(m0.disk.trees, m.disk.trees, m0.tx, req.Stage())
    && m.disk.registry == m0.tx.originalRegistry
    && OnlyRollbackFiles(m0.disk, m.disk, req)
    && SameRestore(m.tx, m0.tx) && m.tx.status == RolledBack && m.tx.rollbackReceipt == Some(receipt)
    && req.key in m.disk.journal && m.disk.journal[req.key] == m.tx
    && req.Id() in m.disk.rollbackReceipts && m.disk.rollbackReceipts[req.Id()] == receipt
    && req.rollbackKey in m.disk.rollbackIdempotency && m.disk.rollbackIdempotency[req.rollbackKey] == req.Fingerprint()
  }

  lemma {:induction false} RecordRollbackStops(m0: Machine, r0: Res, req: RollbackRequest, receipt: RollbackReceipt)
    requires Pending(m0, req) && Revertible(m0, r0.m, req) && receipt.id == req.Id()
    requires r0.end.Done? ==> SwappedBack(m0.disk.trees, r0.m.disk.trees, m0.tx, req.Stage())
    ensures var r := RecordRollback(r0, m0.tx, req, receipt);
            && (if r.end.Done? then r0.end.Done? && RolledBackDisk(m0, r.m, req, receipt) else Revertible(m0, r.m, req))
            && (r0.end.Done? && r0.plan == [] ==> r.end.Done? && r.plan == [])
  {
    var tx := m0.tx;
    var s1, s2 := WriteRegistry(tx.originalRegistry), Commit(tx.(phase := RegistryRestored));
    FileThen(m0, r0, req, s1);
    var r1 := Then(r0, s1);
    FileThen(m0, r1, req, s2);
    var r2 := Then(r1, s2);
    var s3, s4 := WriteRollbackReceipt(req.Id(), receipt), WriteRollbackIdempotency(req.rollbackKey, req.Fingerprint());
    FileThen(m0, r2, req, s3);
    var r3 := Then(r2, s3);
    FileThen(m0, r3, req, s4);
    FinalRecordStops(m0, Then(r3, s4), req, receipt);
  }

  lemma {:induction false} FinalRecordStops(m0: Machine, r4: Res, req: RollbackRequest, receipt: RollbackReceipt)
    requires Pending(m0, req) && Revertible(m0, r4.m, req)
    requires r4.end.Done? ==>
        SwappedBack(m0.disk.trees, r4.m.disk.trees, m0.tx, req.Stage()) && r4.m.disk.registry == m0.tx.originalRegistry
                              && req.Id() in r4.m.disk.rollbackReceipts
                                  && r4.m.disk.rollbackReceipts[req.Id()] == receipt
                              && req.rollbackKey in r4.m.disk.rollbackIdempotency
                                  && r4.m.disk.rollbackIdempotency[req.rollbackKey] == req.Fingerprint()
    ensures var r :=
        Then(r4, Commit(m0.tx.(phase := RegistryRestored, rollbackReceipt := Some(receipt), status := RolledBack)));
            && (if r.end.Done? then r4.end.Done? && RolledBackDisk(m0, r.m, req, receipt) else Revertible(m0, r.m, req))
            && (r4.end.Done? && r4.plan == [] ==> r.end.Done? && r.plan == [])
  {
    var last := m0.tx.(phase := RegistryRestored, rollbackReceipt := Some(receipt), status := RolledBack);
    var p5 := ThenCases(r4, Commit(last));
    ThenDone(r4, Commit(last));
    ExceptUpdate(r4.m.disk.journal, last.key, last);
  }

  /** The rollback block, with a fault at any position or none: it stops revertible or is complete. */
  lemma {:induction false} RollbackBlockStops(dg: Digests, m0: Machine, req: RollbackRequest, receipt: RollbackReceipt,
      plan: seq<Fault>)
    requires Pending(m0, req) && receipt.id == req.Id()
    ensures var r := RollbackBlock(dg, m0, req, receipt, plan);
            && (if r.end.Done? then
                RolledBackDisk(m0, r.m, req, receipt)
                && DigestAt(dg, m0.disk.trees, m0.tx.Backup()) == Some(receipt.restored)
                else Revertible(m0, r.m, req))
            && (plan == [] && DigestAt(dg, m0.disk.trees, m0.tx.Backup()) == Some(receipt.restored) ==>
                r.end.Done? && r.plan == [])
  {
    SwapBackStops(dg, m0, req, receipt.restored, plan);
    RecordRollbackStops(m0, SwapBack(dg, m0, req, receipt.restored, plan), req, receipt);
  }

  // ----- Reverting a failed rollback

  ghost predicate Unmoved(before: Trees, trees: Trees, aside: Place) {
    aside !in trees && forall p: Place :: p != aside ==> At(before, p) == At(trees, p)
  }

  lemma {:induction false} RevertTreesStop(m0: Machine, m: Machine, req: RollbackRequest, plan: seq<Fault>)
    requires Pending(m0, req) && Revertible(m0, m, req)
    ensures var r := RevertTrees(m, req, plan);
            && r.m == m.(disk := m.disk.(trees := r.m.disk.trees))
            && Arranged(m0.disk.trees, r.m.disk.trees, m0.tx, req.Stage())
            && (r.end.Done? ==> Unmoved(m0.disk.trees, r.m.disk.trees, req.Stage()))
            && (plan == [] ==> r.end.Done? && r.plan == [])
  {
    var d, tx := m.disk, m.tx;
    assert tx.Dest() == m0.tx.Dest() && tx.Backup() == m0.tx.Backup();
    if req.Stage() in d.trees {
      assert !(tx.Dest() in d.trees && tx.Backup() in d.trees);
      var r0 := Res(m, plan, Done);
      var move := tx.Dest() in d.trees && tx.Backup() !in d.trees;
      MoveStops(r0, tx.Dest(), tx.Backup());
      var r1 := ThenIf(r0, move, Move(tx.Dest(), tx.Backup()));
      assert Arranged(m0.disk.trees, r1.m.disk.trees, m0.tx, req.Stage());
      MoveStops(r1, req.Stage(), tx.Dest());
    }
  }

  /** The rollback failed and was undone: everything is as before the request, except that a
      registry with the recorded digest is replaced by the recorded registry. */
  ghost predicate RevertedDisk(m0: Machine, d: Disk, req: RollbackRequest) {
    && Unmoved(m0.disk.trees, d.trees, req.Stage())
    && Some(d.registry) == m0.tx.appliedRegistry
    && d.journal - {req.key} == m0.disk.journal - {req.key}
    && req.key in d.journal && SameRestore(d.journal[req.key], m0.tx) && d.journal[req.key].status == Applied
    && d.receipts == m0.disk.receipts && d.idempotency == m0.disk.idempotency
    && d.rollbackIdempotency == m0.disk.rollbackIdempotency
    && d.rollbackReceipts == m0.disk.rollbackReceipts - {req.Id()}
  }

  lemma {:induction false} RevertFilesStop(m0: Machine, m: Machine, r1: Res, req: RollbackRequest)
    requires Pending(m0, req) && Revertible(m0, m, req)
    requires r1.m == m.(disk := m.disk.(trees := r1.m.disk.trees))
    requires Arranged(m0.disk.trees, r1.m.disk.trees, m0.tx, req.Stage())
    requires r1.end.Done? ==> Unmoved(m0.disk.trees, r1.m.disk.trees, req.Stage())
    ensures var r :=
        ThenIf(r1, m.tx.appliedRegistry.Some?,
        WriteRegistry(if m.tx.appliedRegistry.Some? then m.tx.appliedRegistry.value else m.disk.registry));
            var r := Then(r, Commit(m.tx.(status := Applied, phase := NoRollback)));
            && Arranged(m0.disk.trees, r.m.disk.trees, m0.tx, req.Stage())
            && OnlyRollbackFiles(m0.disk, r.m.disk, req)
            && SameRestore(r.m.tx, m0.tx)
            && req.key in r.m.disk.journal && SameRestore(r.m.disk.journal[req.key], m0.tx)
            && (!r.end.Done? ==> r.m.disk.journal[req.key].status == RollbackPending)
            && (r.end.Done? ==>
                Unmoved(m0.disk.trees, r.m.disk.trees, req.Stage()) && Some(r.m.disk.registry) == m0.tx.appliedRegistry
                                && r.m.disk.journal[req.key].status == Applied)
            && (r1.end.Done? && r1.plan == [] ==> r.end.Done? && r.plan == [])
  {
    var s2 := WriteRegistry(m.tx.appliedRegistry.value);
    RegistryBackStops(r1, m.tx.appliedRegistry.value);
    AppliedAgainStops(m0, m, Then(r1, s2), req);
  }

  lemma {:induction false} RegistryBackStops(r1: Res, reg: Registry)
    ensures var r := Then(r1, WriteRegistry(reg));
            && r.m == r1.m.(disk := r1.m.disk.(registry := r.m.disk.registry))
            && (r.end.Done? ==> r1.end.Done? && r.m.disk.registry == reg)
            && (r1.end.Done? && r1.plan == [] ==> r.end.Done? && r.plan == [])
  {
    var partial := ThenCases(r1, WriteRegistry(reg));
    ThenDone(r1, WriteRegistry(reg));
  }

  lemma {:induction false} AppliedAgainStops(m0: Machine, m: Machine, r2: Res, req: RollbackRequest)
    requires Pending(m0, req) && Revertible(m0, m, req)
    requires r2.m == m.(disk := m.disk.(trees := r2.m.disk.trees, registry := r2.m.disk.registry))
    ensures var r := Then(r2, Commit(m.tx.(status := Applied, phase := NoRollback)));
            && r.m.disk.trees == r2.m.disk.trees && r.m.disk.registry == r2.m.disk.registry
            && OnlyRollbackFiles(m0.disk, r.m.disk, req)
            && SameRestore(r.m.tx, m0.tx)
            && req.key in r.m.disk.journal && SameRestore(r.m.disk.journal[req.key], m0.tx)
            && (!r.end.Done? ==> r.m.disk.journal[req.key].status == RollbackPending)
            && (r.end.Done? ==> r2.end.Done? && r.m.disk.journal[req.key].status == Applied)
            && (r2.end.Done? && r2.plan == [] ==> r.end.Done? && r.plan == [])
  {
    var last := m.tx.(status := Applied, phase := NoRollback);
    var partial := ThenCases(r2, Commit(last));
    ThenDone(r2, Commit(last));
    ExceptUpdate(r2.m.disk.journal, last.key, last);
  }

  lemma {:induction false} RevertUnlinkStop(m0: Machine, r3: Res, req: RollbackRequest)
    requires Pending(m0, req) && OnlyRollbackFiles(m0.disk, r3.m.disk, req)
    ensures var r := Then(Then(r3, UnlinkRollbackIdempotency(req.rollbackKey)), UnlinkRollbackReceipt(req.Id()));
            && r.m == r3.m.(disk :=
                r3.m.disk.(rollbackIdempotency := r.m.disk.rollbackIdempotency,
                rollbackReceipts := r.m.disk.rollbackReceipts))
            && OnlyRollbackFiles(m0.disk, r.m.disk, req)
            && (r.end.Done? ==> r3.end.Done? && r.m.disk.rollbackIdempotency == m0.disk.rollbackIdempotency
                                && r.m.disk.rollbackReceipts == m0.disk.rollbackReceipts - {req.Id()})
            && (r3.end.Done? && r3.plan == [] ==> r.end.Done?)
  {
    var s4, s5 := UnlinkRollbackIdempotency(req.rollbackKey), UnlinkRollbackReceipt(req.Id());
    var r4 := Then(r3, s4);
    var p4 := ThenCases(r3, s4);
    ThenDone(r3, s4);
    var p5 := ThenCases(r4, s5);
    ThenDone(r4, s5);
    assert m0.disk.rollbackIdempotency - {req.rollbackKey} == m0.disk.rollbackIdempotency;
  }

  /** The revert of a rollback that failed anywhere: its collision error cannot occur, it
      fails only by a fault of its own, and when it finishes the rollback never happened. */
  lemma {:induction false} RevertStops(m0: Machine, m: Machine, req: RollbackRequest, plan: seq<Fault>)
    requires Pending(m0, req) && Revertible(m0, m, req)
    ensures var r := Revert(m, req, plan);
            && Arranged(m0.disk.trees, r.m.disk.trees, m0.tx, req.Stage())
            && OnlyRollbackFiles(m0.disk, r.m.disk, req)
            && SameRestore(r.m.tx, m0.tx)
            && req.key in r.m.disk.journal && SameRestore(r.m.disk.journal[req.key], m0.tx)
            && r.m.disk.journal[req.key].status in {RollbackPending, Applied}
            && (r.m.disk.journal[req.key].status == Applied ==> Unmoved(m0.disk.trees, r.m.disk.trees, req.Stage()))
            && (r.end.Done? ==> RevertedDisk(m0, r.m.disk, req))
            && (plan == [] ==> r.end.Done?)
  {
    RevertTreesStop(m0, m, req, plan);
    var r1 := RevertTrees(m, req, plan);
    RevertFilesStop(m0, m, r1, req);
    var r2 := ThenIf(r1, m.tx.appliedRegistry.Some?,
        WriteRegistry(if m.tx.appliedRegistry.Some? then m.tx.appliedRegistry.value else m.disk.registry));
    var r3 := Then(r2, Commit(m.tx.(status := Applied, phase := NoRollback)));
    RevertUnlinkStop(m0, r3, req);
  }
}
