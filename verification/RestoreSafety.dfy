/** What the apply block and the undo keep at every position where they can stop, and what
    they establish when they finish. */
module RestoreSafety {
  import opened Wrappers
  import opened BrainRegistry
  import opened RestoreDisk
  import opened RestoreApply

  /** The original destination tree sits whole in the backup or, if the backup slot is
      empty, still (or again) at the destination. A brain new to the disk has no backup. */
  predicate Kept(original: Option<Tree>, trees: Trees, tx: Transaction) {
    if !tx.existed then tx.Backup() !in trees
    else if tx.Backup() in trees then original == At(trees, tx.Backup())
    else original == At(trees, tx.Dest())
  }

  /** Only this transaction's own three places may differ. */
  ghost predicate OnlyOwnPlaces(before: Trees, after: Trees, tx: Transaction) {
    forall p: Place :: p != tx.Dest() && p != tx.Backup() && p != tx.stage ==> At(before, p) == At(after, p)
  }

  predicate SameTransaction(a: Transaction, b: Transaction) {
    && a.key == b.key && a.fingerprint == b.fingerprint && a.stage == b.stage && a.existed == b.existed
    && a.originalRegistry == b.originalRegistry && a.receipt == b.receipt
  }

  predicate InFlight(status: Status) {
    status in {Staging, Staged, BackupCreated, DestinationInstalled, RegistryCommitted}
  }

  /** Only this key's journal record, receipt and idempotency record may differ. */
  ghost predicate OnlyOwnFiles(before: Disk, after: Disk, tx: Transaction) {
    && before.journal - {tx.key} == after.journal - {tx.key}
    && before.receipts - {tx.receipt.id} == after.receipts - {tx.receipt.id}
    && before.idempotency - {tx.key} == after.idempotency - {tx.key}
    && before.rollbackReceipts == after.rollbackReceipts
    && before.rollbackIdempotency == after.rollbackIdempotency
  }

  predicate WellFormed(tx: Transaction) {
    && tx.receipt.id.key == tx.key == tx.fingerprint.key
    && tx.receipt.brain == tx.receipt.id.brain == tx.fingerprint.brain
    && tx.receipt.id.bundle == tx.fingerprint.bundle
    && tx.stage.Stage? && tx.stage.receipt == tx.receipt.id
  }

  /** Where the block starts: journaled as staging, with nothing of its own on disk yet. */
  predicate Ready(m: Machine) {
    var tx := m.tx;
    && WellFormed(tx) && tx.status == Staging
    && tx.stage !in m.disk.trees && tx.Backup() !in m.disk.trees
    && (!tx.existed ==> tx.Dest() !in m.disk.trees)
    && tx.originalRegistry == m.disk.registry
    && tx.key in m.disk.journal && m.disk.journal[tx.key] == tx
    && tx.key !in m.disk.idempotency
  }

  /** Holds wherever the block stops: nothing is lost and the undo will not be refused. */
  ghost predicate Undoable(m0: Machine, m: Machine) {
    var tx := m0.tx;
    && SameTransaction(m.tx, tx)
    && Kept(At(m0.disk.trees, tx.Dest()), m.disk.trees, tx)
    && OnlyOwnPlaces(m0.disk.trees, m.disk.trees, tx)
    && OnlyOwnFiles(m0.disk, m.disk, tx)
    && tx.key in m.disk.journal && SameTransaction(m.disk.journal[tx.key], tx)
        && InFlight(m.disk.journal[tx.key].status)
    && !Refuses(m.disk, m.tx)
    && (tx.key in m.disk.idempotency <==> m.tx.status == Applied)
    && (tx.key in m.disk.idempotency ==> m.disk.idempotency[tx.key] == tx.fingerprint
                                         && tx.receipt.id in m.disk.receipts
                                             && m.disk.receipts[tx.receipt.id] == tx.receipt)
  }

  /** The trees once the backup is taken. */
  predicate Retained(trees0: Trees, trees: Trees, tx: Transaction) {
    if tx.existed then At(trees, tx.Backup()) == At(trees0, tx.Dest()) && tx.Backup() in trees && tx.Dest() !in trees
    else tx.Backup() !in trees && tx.Dest() !in trees
  }

  predicate Installed(trees0: Trees, trees: Trees, tx: Transaction, tree: Tree) {
    && At(trees, tx.Dest()) == Some(tree) && tx.stage !in trees
    && (if tx.existed then At(trees, tx.Backup()) == At(trees0, tx.Dest()) && tx.Backup() in trees
        else tx.Backup() !in trees)
  }

  // ----- One step

  lemma {:induction false} ThenDone(r: Res, s: Step)
    ensures Then(r, s).end.Done? ==> r.end.Done? && Enabled(r.m.disk, s) && Then(r, s).m == Completed(r.m, s)
  {
  }

  lemma {:induction false} ExceptUpdate<K, V>(m: map<K, V>, k: K, v: V)
    ensures m[k := v] - {k} == m - {k}
  {
  }

  /** The steps the block takes, with what each needs where it is taken. */
  predicate BlockStep(m0: Machine, m: Machine, s: Step) {
    var tx := m0.tx;
    match s
    case Build(p, _) => p == tx.stage
    case Move(src, dst) =>
      (src == tx.Dest() && dst == tx.Backup() && tx.existed)
          || (src == tx.stage && dst == tx.Dest() && (tx.existed ==> tx.Backup() in m.disk.trees))
    case Hash(_) => true
    case Check(_, _) => true
    case WriteRegistry(_) => true
    case Commit(t) =>
        SameTransaction(t, tx) && InFlight(t.status) && !Refuses(m.disk, t) && tx.key !in m.disk.idempotency
    case WriteReceipt(r) => r == tx.receipt && tx.key !in m.disk.idempotency
    case _ => false
  }

  lemma {:induction false} UndoableFiles(m0: Machine, m: Machine, s: Step)
    requires WellFormed(m0.tx) && Undoable(m0, m) && BlockStep(m0, m, s)
    ensures OnlyOwnFiles(m0.disk, Completed(m, s).disk, m0.tx)
  {
    match s
    case Commit(t) => ExceptUpdate(m.disk.journal, t.key, t);
    case WriteReceipt(r) => ExceptUpdate(m.disk.receipts, r.id, r);
    case _ =>
  }

  lemma {:induction false} UndoableTrees(m0: Machine, m: Machine, s: Step)
    requires WellFormed(m0.tx) && Undoable(m0, m) && BlockStep(m0, m, s) && Enabled(m.disk, s)
    ensures Kept(At(m0.disk.trees, m0.tx.Dest()), Completed(m, s).disk.trees, m0.tx)
    ensures OnlyOwnPlaces(m0.disk.trees, Completed(m, s).disk.trees, m0.tx)
    ensures !Refuses(Completed(m, s).disk, Completed(m, s).tx)
  {
  }

  lemma {:induction false} UndoableCompleted(m0: Machine, m: Machine, s: Step)
    requires WellFormed(m0.tx) && Undoable(m0, m) && BlockStep(m0, m, s) && Enabled(m.disk, s)
    requires s.WriteReceipt? ==> m.tx.status != Applied
    ensures Undoable(m0, Completed(m, s))
  {
    UndoableFiles(m0, m, s);
    UndoableTrees(m0, m, s);
  }

  lemma {:induction false} UndoableInterrupted(m0: Machine, m: Machine, s: Step, partial: Option<Tree>)
    requires WellFormed(m0.tx) && Undoable(m0, m) && BlockStep(m0, m, s)
    ensures Undoable(m0, Interrupted(m, s, partial))
  {
  }

  /** Every block step, completed or cut short, leaves an undoable machine. */
  lemma {:induction false} UndoableThen(m0: Machine, r: Res, s: Step)
    requires WellFormed(m0.tx) && Undoable(m0, r.m) && (r.end.Done? ==> BlockStep(m0, r.m, s))
    ensures Undoable(m0, Then(r, s).m)
  {
    if r.end.Done? {
      if Enabled(r.m.disk, s) { UndoableCompleted(m0, r.m, s); }
      UndoableInterrupted(m0, r.m, s, None);
      if r.plan != [] && !r.plan[0].NoFault? { UndoableInterrupted(m0, r.m, s, r.plan[0].partial); }
    }
  }

  lemma {:induction false} StageStops(m0: Machine, req: Request, plan: seq<Fault>)
    requires Ready(m0)
    ensures var r := StagePhase(Res(m0, plan, Done), req);
            && (!r.end.Done? ==> Undoable(m0, r.m))
            && (r.end.Done? ==>
                Undoable(m0, r.m) && At(r.m.disk.trees, m0.tx.stage) == Some(req.tree) && r.m.tx.status == Staged
                                && r.m.disk.trees == m0.disk.trees[m0.tx.stage := req.tree]
                                    && r.m.disk.registry == m0.disk.registry)
  {
    var r0 := Res(m0, plan, Done);
    var s1, s2 := Build(m0.tx.stage, req.tree), Commit(m0.tx.(status := Staged));
    var r1 := Then(r0, s1);
    UndoableThen(m0, r0, s1);
    ThenDone(r0, s1);
    UndoableThen(m0, r1, s2);
    ThenDone(r1, s2);
  }

  lemma {:induction false} BackupStops(dg: Digests, m0: Machine, r0: Res, tree: Tree)
    requires Ready(m0) && m0.tx.existed && Undoable(m0, r0.m)
    requires r0.end.Done? ==> r0.m.tx.status == Staged && At(r0.m.disk.trees, m0.tx.stage) == Some(tree)
                              && m0.tx.Backup() !in r0.m.disk.trees && r0.m.disk.registry == m0.disk.registry
    ensures var r := BackupPhase(dg, r0);
            && Undoable(m0, r.m)
            && (r.end.Done? ==>
                At(r.m.disk.trees, m0.tx.stage) == Some(tree) && Retained(m0.disk.trees, r.m.disk.trees, m0.tx)
                                && r.m.tx.status == BackupCreated && r.m.disk.registry == m0.disk.registry
                                && r.m.tx.backupDigest == DigestAt(dg, m0.disk.trees, m0.tx.Dest()))
  {
    if r0.end.Done? {
      var tx := r0.m.tx;
      var s1, s2 := Move(tx.Dest(), tx.Backup()), Hash(tx.Backup());
      var r1 := Then(r0, s1);
      UndoableThen(m0, r0, s1);
      ThenDone(r0, s1);
      var r2 := Then(r1, s2);
      UndoableThen(m0, r1, s2);
      ThenDone(r1, s2);
      var s3 := Commit(tx.(backupDigest := DigestAt(dg, r2.m.disk.trees, tx.Backup()), status := BackupCreated));
      UndoableThen(m0, r2, s3);
      ThenDone(r2, s3);
    }
  }

  lemma {:induction false} InstallStops(dg: Digests, m0: Machine, r0: Res, tree: Tree)
    requires Ready(m0) && Undoable(m0, r0.m)
    requires r0.end.Done? ==>
        At(r0.m.disk.trees, m0.tx.stage) == Some(tree) && Retained(m0.disk.trees, r0.m.disk.trees, m0.tx)
                              && r0.m.tx.status in {Staged, BackupCreated} && r0.m.disk.registry == m0.disk.registry
    ensures var r := InstallPhase(dg, r0);
            && Undoable(m0, r.m)
            && (r.end.Done? ==>
                Installed(m0.disk.trees, r.m.disk.trees, m0.tx, tree) && r.m.tx.status == DestinationInstalled
                                && r.m.disk.registry == m0.disk.registry
                                && r.m.tx.backupDigest == r0.m.tx.backupDigest
                                    && r.m.tx.appliedDigest == Some(dg.tree(tree)))
  {
    if r0.end.Done? {
      var tx := r0.m.tx;
      var s1, s2 := Move(tx.stage, tx.Dest()), Hash(tx.Dest());
      var r1 := Then(r0, s1);
      UndoableThen(m0, r0, s1);
      ThenDone(r0, s1);
      var r2 := Then(r1, s2);
      UndoableThen(m0, r1, s2);
      ThenDone(r1, s2);
      var s3 := Commit(tx.(appliedDigest := DigestAt(dg, r2.m.disk.trees, tx.Dest()), status := DestinationInstalled));
      UndoableThen(m0, r2, s3);
      ThenDone(r2, s3);
    }
  }

  lemma {:induction false} UndoableThenIf(m0: Machine, r: Res, condition: bool, s: Step)
    requires WellFormed(m0.tx) && Undoable(m0, r.m) && (s.WriteRegistry? || s.Check?)
    ensures var r' := ThenIf(r, condition, s);
            && Undoable(m0, r'.m)
            && (r'.end.Done? ==> r.end.Done? && (condition ==> Enabled(r.m.disk, s)))
            && (r'.end.Done? ==>
                r'.m == (if condition && s.WriteRegistry? then r.m.(disk := r.m.disk.(registry := s.registry))
                else r.m))
  {
    if condition { UndoableThen(m0, r, s); ThenDone(r, s); }
  }

  lemma {:induction false} RegistryChainStops(m0: Machine, r0: Res, u: RegistryUpdate, existed: bool, selected: bool,
      selectable: bool, matches: bool)
    requires WellFormed(m0.tx) && Undoable(m0, r0.m)
    ensures var r := RegistryChain(r0, u, existed, selected, selectable, matches);
            && Undoable(m0, r.m)
            && (r.end.Done? ==> r0.end.Done? && selectable && matches && (selected ==> u.selection.Ok?))
            && (r.end.Done? ==> r.m == r0.m.(disk := r0.m.disk.(registry := if selected then u.after else u.refreshed)))
  {
    UndoableThenIf(m0, r0, !existed, WriteRegistry(u.created));
    var r1 := ThenIf(r0, !existed, WriteRegistry(u.created));
    UndoableThenIf(m0, r1, true, WriteRegistry(u.refreshed));
    var r2 := ThenIf(r1, true, WriteRegistry(u.refreshed));
    UndoableThenIf(m0, r2, selected, Check(u.selection.Ok?, true));
    var r3 := ThenIf(r2, selected, Check(u.selection.Ok?, true));
    UndoableThenIf(m0, r3, selected, WriteRegistry(u.after));
    var r4 := ThenIf(r3, selected, WriteRegistry(u.after));
    UndoableThenIf(m0, r4, true, Check(selectable, true));
    var r5 := ThenIf(r4, true, Check(selectable, true));
    UndoableThenIf(m0, r5, true, Check(matches, false));
  }

  lemma {:induction false} RegistryStepsStop(m0: Machine, r0: Res, req: Request)
    requires WellFormed(m0.tx) && Undoable(m0, r0.m)
    ensures var r := RegistrySteps(r0, req);
            var u := UpdateOf(r0.m.disk.registry, req, r0.m.tx.existed, r0.m.tx.receipt.selected);
            && Undoable(m0, r.m)
            && (r.end.Done? ==> r0.end.Done? && r.m == r0.m.(disk := r0.m.disk.(registry := u.after)))
            && (r.end.Done? ==>
                Selectable(u.after, req.brain) && SelectionIs(u.after, req.brain, r0.m.tx.receipt.selected))
  {
    if r0.end.Done? {
      var tx := r0.m.tx;
      var u := UpdateOf(r0.m.disk.registry, req, tx.existed, tx.receipt.selected);
      RegistryChainStops(m0, r0, u, tx.existed, tx.receipt.selected, Selectable(u.after, req.brain),
          SelectionIs(u.after, req.brain, tx.receipt.selected));
    }
  }

  lemma {:induction false} RegistryCommitStops(dg: Digests, m0: Machine, r: Res, reg: Registry)
    requires WellFormed(m0.tx) && Undoable(m0, r.m) && r.end.Done? && r.m.tx.status != Applied
    requires m0.tx.existed ==> m0.tx.Backup() in r.m.disk.trees
    ensures var tx :=
        r.m.tx.(appliedRegistry := Some(reg), appliedRegistryDigest := Some(dg.registry(reg)),
        status := RegistryCommitted);
            var r' := Then(r, Commit(tx));
            && Undoable(m0, r'.m)
            && (r'.end.Done? ==>
                r'.m.tx == tx && r'.m.disk.trees == r.m.disk.trees && r'.m.disk.registry == r.m.disk.registry)
  {
    var s := Commit(r.m.tx.(appliedRegistry := Some(reg), appliedRegistryDigest := Some(dg.registry(reg)),
        status := RegistryCommitted));
    UndoableThen(m0, r, s);
    ThenDone(r, s);
  }

  lemma {:induction false} RegistryStops(dg: Digests, m0: Machine, r0: Res, req: Request)
    requires WellFormed(m0.tx) && Undoable(m0, r0.m)
    requires r0.end.Done? ==> r0.m.tx.status != Applied && (m0.tx.existed ==> m0.tx.Backup() in r0.m.disk.trees)
    ensures var r := RegistryPhase(dg, r0, req);
            var reg := UpdateOf(r0.m.disk.registry, req, r0.m.tx.existed, r0.m.tx.receipt.selected).after;
            && Undoable(m0, r.m)
            && (r.end.Done? ==> r0.end.Done? && r.m.disk.trees == r0.m.disk.trees && r.m.disk.registry == reg)
            && (r.end.Done? ==>
                r.m.tx == r0.m.tx.(appliedRegistry := Some(reg), appliedRegistryDigest := Some(dg.registry(reg)),
                                                   status := RegistryCommitted))
  {
    RegistryStepsStop(m0, r0, req);
    var r := RegistrySteps(r0, req);
    if r.end.Done? {
      RegistryCommitStops(dg, m0, r, r.m.disk.registry);
    }
  }

  /** What a restore that ran to its end has put on disk. */
  ghost predicate Committed(dg: Digests, m0: Machine, m: Machine, req: Request) {
    var tx, reg := m0.tx, UpdateOf(m0.disk.registry, req, m0.tx.existed, m0.tx.receipt.selected).after;
    && Installed(m0.disk.trees, m.disk.trees, tx, req.tree)
    && OnlyOwnPlaces(m0.disk.trees, m.disk.trees, tx)
    && OnlyOwnFiles(m0.disk, m.disk, tx)
    && m.disk.registry == reg
    && SameTransaction(m.tx, tx)
    && m.tx.status == Applied
    && m.tx.appliedDigest == Some(dg.tree(req.tree))
    && (tx.existed ==> m.tx.backupDigest == DigestAt(dg, m0.disk.trees, tx.Dest()))
    && m.tx.appliedRegistry == Some(reg) && m.tx.appliedRegistryDigest == Some(dg.registry(reg))
    && tx.key in m.disk.journal && m.disk.journal[tx.key] == m.tx
    && KeyRecorded(m0, m.disk)
  }

  predicate ReceiptWritten(m0: Machine, d: Disk) {
    m0.tx.receipt.id in d.receipts && d.receipts[m0.tx.receipt.id] == m0.tx.receipt
  }

  predicate KeyRecorded(m0: Machine, d: Disk) {
    m0.tx.key in d.idempotency && d.idempotency[m0.tx.key] == m0.tx.fingerprint && ReceiptWritten(m0, d)
  }

  /** From the idempotency write on, the key answers replays with the receipt. */
  lemma {:induction false} RecordStops(m0: Machine, r1: Res)
    requires Ready(m0) && Undoable(m0, r1.m)
    requires r1.end.Done? ==> r1.m.tx.status == RegistryCommitted && ReceiptWritten(m0, r1.m.disk)
                              && (m0.tx.existed ==> m0.tx.Backup() in r1.m.disk.trees)
    ensures var r := Then(Then(r1, WriteIdempotency(r1.m.tx.fingerprint)), Commit(r1.m.tx.(status := Applied)));
            && (!r.end.Done? ==> Undoable(m0, r.m))
            && (r.end.Done? ==>
                r1.end.Done? && r.m.disk.trees == r1.m.disk.trees && r.m.disk.registry == r1.m.disk.registry
                                && r.m.tx == r1.m.tx.(status := Applied)
                                && OnlyOwnFiles(m0.disk, r.m.disk, m0.tx)
                                && m0.tx.key in r.m.disk.journal && r.m.disk.journal[m0.tx.key] == r.m.tx
                                && KeyRecorded(m0, r.m.disk))
  {
    if r1.end.Done? {
      var tx := r1.m.tx;
      var s2, s3 := WriteIdempotency(tx.fingerprint), Commit(tx.(status := Applied));
      var r2 := Then(r1, s2);
      if r2.end.Done? {
        ThenDone(r1, s2);
        ExceptUpdate(r1.m.disk.idempotency, tx.key, tx.fingerprint);
        assert OnlyOwnFiles(m0.disk, r2.m.disk, m0.tx) && KeyRecorded(m0, r2.m.disk);
        assert Undoable(m0, r2.m.(tx := tx.(status := Applied)));
        var r3 := Then(r2, s3);
        if r3.end.Done? {
          ThenDone(r2, s3);
          ExceptUpdate(r2.m.disk.journal, tx.key, tx.(status := Applied));
        } else {
          assert r3.m == r2.m.(tx := tx.(status := Applied));
        }
      } else {
        assert r2.m == r1.m;
      }
    }
  }

  lemma {:induction false} FinishStops(m0: Machine, r0: Res)
    requires Ready(m0) && Undoable(m0, r0.m)
    requires r0.end.Done? ==>
        r0.m.tx.status == RegistryCommitted && (m0.tx.existed ==> m0.tx.Backup() in r0.m.disk.trees)
    ensures var r := FinishPhase(r0);
            && (!r.end.Done? ==> Undoable(m0, r.m))
            && (r.end.Done? ==>
                r0.end.Done? && r.m.disk.trees == r0.m.disk.trees && r.m.disk.registry == r0.m.disk.registry
                                && r.m.tx == r0.m.tx.(status := Applied)
                                && OnlyOwnFiles(m0.disk, r.m.disk, m0.tx)
                                && m0.tx.key in r.m.disk.journal && r.m.disk.journal[m0.tx.key] == r.m.tx
                                && KeyRecorded(m0, r.m.disk))
  {
    if r0.end.Done? {
      var s1 := WriteReceipt(r0.m.tx.receipt);
      var r1 := Then(r0, s1);
      UndoableThen(m0, r0, s1);
      ThenDone(r0, s1);
      RecordStops(m0, r1);
      assert r1.m.tx == r0.m.tx;
    }
  }

  /** The apply block, with a fault at any position or none: it stops undoable or commits. */
  lemma {:induction false} ApplyBlockStops(dg: Digests, m0: Machine, req: Request, plan: seq<Fault>)
    requires Ready(m0)
    ensures var r := ApplyBlock(dg, m0, req, plan);
            if r.end.Done? then Committed(dg, m0, r.m, req) else Undoable(m0, r.m)
  {
    var r0 := Res(m0, plan, Done);
    StageStops(m0, req, plan);
    var r1 := StagePhase(r0, req);
    if m0.tx.existed { BackupStops(dg, m0, r1, req.tree); }
    var r2 := if m0.tx.existed then BackupPhase(dg, r1) else r1;
    InstallStops(dg, m0, r2, req.tree);
    var r3 := InstallPhase(dg, r2);
    RegistryStops(dg, m0, r3, req);
    var r4 := RegistryPhase(dg, r3, req);
    FinishStops(m0, r4);
  }

  // ----- The undo

  /** Files other than the registry and this key's journal record. */
  predicate OnlyJournal(before: Disk, after: Disk, key: string) {
    && before.journal - {key} == after.journal - {key}
    && before.receipts == after.receipts && before.idempotency == after.idempotency
    && before.rollbackReceipts == after.rollbackReceipts && before.rollbackIdempotency == after.rollbackIdempotency
  }

  /** The destination is as it was and the backup slot is free. */
  predicate Restored(original: Option<Tree>, trees: Trees, tx: Transaction) {
    tx.Backup() !in trees && At(trees, tx.Dest()) == if tx.existed then original else None
  }

  /** A step either completes or leaves what a fault leaves. */
  lemma {:induction false} ThenCases(r: Res, s: Step) returns (partial: Option<Tree>)
    ensures !r.end.Done? ==> Then(r, s) == r
    ensures r.end.Done? && !Then(r, s).end.Done? ==> Then(r, s).m == r.m || Then(r, s).m == Interrupted(r.m, s, partial)
  {
    partial := if r.plan != [] && !r.plan[0].NoFault? then r.plan[0].partial else None;
  }

  lemma {:induction false} RemoveEffects(m: Machine, p: Place, partial: Option<Tree>)
    ensures Completed(m, Remove(p)) == m.(disk := m.disk.(trees := m.disk.trees - {p}))
    ensures Interrupted(m, Remove(p), partial)
            == m.(disk :=
                m.disk.(trees := if partial.Some? && p in m.disk.trees then m.disk.trees[p := partial.value]
                else m.disk.trees))
  {
  }

  lemma {:induction false} RemoveStops(r: Res, condition: bool, p: Place)
    ensures var r' := ThenIf(r, condition, Remove(p));
            && r'.m == r.m.(disk := r.m.disk.(trees := r'.m.disk.trees))
            && (forall q: Place :: q != p ==> At(r'.m.disk.trees, q) == At(r.m.disk.trees, q))
            && (!condition || !r.end.Done? ==> r'.m == r.m)
            && (r'.end.Done? ==> r.end.Done? && (condition ==> p !in r'.m.disk.trees))
  {
    if condition && r.end.Done? {
      var partial := ThenCases(r, Remove(p));
      ThenDone(r, Remove(p));
      RemoveEffects(r.m, p, partial);
    }
  }

  lemma {:induction false} MoveEffects(m: Machine, source: Place, target: Place)
    requires Enabled(m.disk, Move(source, target))
    ensures var m' := Completed(m, Move(source, target));
            && m' == m.(disk := m.disk.(trees := m'.disk.trees))
            && m'.disk.trees == (m.disk.trees - {source})[target := m.disk.trees[source]]
  {
  }

  lemma {:induction false} MovedTrees(trees: Trees, source: Place, target: Place)
    requires source in trees && target !in trees
    ensures var trees' := (trees - {source})[target := trees[source]];
            && At(trees', target) == At(trees, source) && source !in trees'
            && forall q: Place :: q != source && q != target ==> At(trees', q) == At(trees, q)
  {
  }

  lemma {:induction false} MoveStops(r: Res, source: Place, target: Place)
    requires source != target
    ensures var r' := Then(r, Move(source, target));
            && r'.m == r.m.(disk := r.m.disk.(trees := r'.m.disk.trees))
            && (!r'.end.Done? ==> r'.m == r.m)
            && (r'.end.Done? ==> r.end.Done? && At(r'.m.disk.trees, target) == At(r.m.disk.trees, source)
                                 && source in r.m.disk.trees && target !in r.m.disk.trees && source !in r'.m.disk.trees
                                 && forall q: Place :: q != source && q != target ==>
                                     At(r'.m.disk.trees, q) == At(r.m.disk.trees, q))
  {
    var s := Move(source, target);
    var partial := ThenCases(r, s);
    ThenDone(r, s);
    if Then(r, s).end.Done? {
      MoveEffects(r.m, source, target);
      MovedTrees(r.m.disk.trees, source, target);
    }
    hide Then, Completed, At;
  }

  lemma {:induction false} UndoDestinationStops(original: Option<Tree>, m: Machine, plan: seq<Fault>)
    requires WellFormed(m.tx) && Kept(original, m.disk.trees, m.tx)
    ensures var r := UndoDestination(m, plan);
            && r.m == m.(disk := m.disk.(trees := r.m.disk.trees))
            && Kept(original, r.m.disk.trees, m.tx)
            && OnlyOwnPlaces(m.disk.trees, r.m.disk.trees, m.tx)
            && At(r.m.disk.trees, m.tx.stage) == At(m.disk.trees, m.tx.stage)
            && (m.tx.Backup() !in m.disk.trees ==> m.tx.Backup() !in r.m.disk.trees)
            && (r.end.Done? ==> Restored(original, r.m.disk.trees, m.tx))
  {
    var d, tx := m.disk, m.tx;
    var r0 := Res(m, plan, Done);
    if tx.existed && tx.Backup() in d.trees {
      RemoveStops(r0, tx.Dest() in d.trees, tx.Dest());
      var r1 := ThenIf(r0, tx.Dest() in d.trees, Remove(tx.Dest()));
      assert At(r1.m.disk.trees, tx.Backup()) == At(d.trees, tx.Backup()) == original;
      MoveStops(r1, tx.Backup(), tx.Dest());
    } else if !tx.existed && tx.Dest() in d.trees {
      RemoveStops(r0, true, tx.Dest());
      assert At(Then(r0, Remove(tx.Dest())).m.disk.trees, tx.Backup()) == At(d.trees, tx.Backup());
    } else {
      assert UndoDestination(m, plan).m == m;
    }
  }

  lemma {:induction false} UndoTreesStop(original: Option<Tree>, m: Machine, plan: seq<Fault>)
    requires WellFormed(m.tx) && Kept(original, m.disk.trees, m.tx)
    ensures var r := ThenIf(UndoDestination(m, plan), m.tx.stage in m.disk.trees, Remove(m.tx.stage));
            && r.m == m.(disk := m.disk.(trees := r.m.disk.trees))
            && Kept(original, r.m.disk.trees, m.tx)
            && OnlyOwnPlaces(m.disk.trees, r.m.disk.trees, m.tx)
            && (m.tx.Backup() !in m.disk.trees ==> m.tx.Backup() !in r.m.disk.trees)
            && (r.end.Done? ==> Restored(original, r.m.disk.trees, m.tx) && m.tx.stage !in r.m.disk.trees)
  {
    UndoDestinationStops(original, m, plan);
    var tx := m.tx;
    var r0 := UndoDestination(m, plan);
    RemoveStops(r0, tx.stage in m.disk.trees, tx.stage);
    var r1 := ThenIf(r0, tx.stage in m.disk.trees, Remove(tx.stage));
    assert At(r1.m.disk.trees, tx.Dest()) == At(r0.m.disk.trees, tx.Dest());
    assert At(r1.m.disk.trees, tx.Backup()) == At(r0.m.disk.trees, tx.Backup());
  }

  /** The undo never loses the original, wherever it stops; when it finishes, destination,
      stage, registry and journal are back. */
  lemma {:induction false} UndoStops(original: Option<Tree>, m: Machine, plan: seq<Fault>)
    requires WellFormed(m.tx) && Kept(original, m.disk.trees, m.tx)
    ensures var r := Undo(m, plan);
            && Kept(original, r.m.disk.trees, m.tx)
            && OnlyOwnPlaces(m.disk.trees, r.m.disk.trees, m.tx)
            && OnlyJournal(m.disk, r.m.disk, m.tx.key)
            && (m.tx.Backup() !in m.disk.trees ==> m.tx.Backup() !in r.m.disk.trees)
            && (!r.end.Done? ==> r.m.disk.journal == m.disk.journal)
            && (r.end.Done? ==> Restored(original, r.m.disk.trees, m.tx) && m.tx.stage !in r.m.disk.trees
                                && r.m.disk.registry == m.tx.originalRegistry
                                && r.m.disk.journal == m.disk.journal[m.tx.key := m.tx.(status := ApplyRolledBack)])
  {
    UndoTreesStop(original, m, plan);
    var tx := m.tx;
    UndoFilesStop(ThenIf(UndoDestination(m, plan), tx.stage in m.disk.trees, Remove(tx.stage)), tx);
    ExceptUpdate(m.disk.journal, tx.key, tx.(status := ApplyRolledBack));
  }

  lemma {:induction false} UndoFilesStop(r1: Res, tx: Transaction)
    ensures var r := Then(Then(r1, WriteRegistry(tx.originalRegistry)), Commit(tx.(status := ApplyRolledBack)));
            && r.m.disk == r1.m.disk.(registry := r.m.disk.registry, journal := r.m.disk.journal)
            && (!r.end.Done? ==> r.m.disk.journal == r1.m.disk.journal)
            && (r.end.Done? ==> r1.end.Done? && r.m.disk.registry == tx.originalRegistry
                                && r.m.disk.journal == r1.m.disk.journal[tx.key := tx.(status := ApplyRolledBack)])
  {
    var s2, s3 := WriteRegistry(tx.originalRegistry), Commit(tx.(status := ApplyRolledBack));
    var r2 := Then(r1, s2);
    var p2 := ThenCases(r1, s2);
    ThenDone(r1, s2);
    assert r2.m.disk == r1.m.disk.(registry := r2.m.disk.registry);
    var p3 := ThenCases(r2, s3);
    ThenDone(r2, s3);
  }

  /** With no fault of its own, the undo finishes unless recovery finds the backup gone for a
      status that needs it; then it changes nothing. */
  lemma {:induction false} UndoFinishesIff(m: Machine)
    requires WellFormed(m.tx)
    ensures Undo(m, []).end.Done? <==> !Refuses(m.disk, m.tx)
    ensures Refuses(m.disk, m.tx) ==> Undo(m, []).m == m && Undo(m, []).end == Raised(false)
  {
  }
}
