/** What one whole apply or rollback call can leave on disk, for every fault plan. */
module RestoreCalls {
  import opened Wrappers
  import opened BrainRegistry
  import opened RestoreDisk
  import opened RestoreApply
  import opened RestoreSafety
  import opened RestoreRollback

  // ----- Apply

  lemma {:induction false} OpenStops(req: Request, d: Disk, tx: Transaction, plan: seq<Fault>)
    requires WellFormed(tx) && tx.status == Staging
    ensures var o := Open(req, d, tx, plan);
            && o.m.disk == d.(trees := o.m.disk.trees, journal := o.m.disk.journal)
            && (forall p: Place :: p != tx.stage ==> At(o.m.disk.trees, p) == At(d.trees, p))
            && (!o.end.Done? ==> o.m.disk.journal == d.journal)
            && (o.end.Done? ==> o.m == Machine(o.m.disk, tx) && o.m.disk.journal == d.journal[tx.key := tx]
                                && o.m.disk.trees == d.trees - {tx.stage} && tx.Backup() !in d.trees)
  {
    var r0 := Res(Machine(d, tx), plan, Done);
    RemoveStops(r0, tx.stage in d.trees, tx.stage);
    var r1 := ThenIf(r0, tx.stage in d.trees, Remove(tx.stage));
    assert r1.end.Done? ==> r1.m.disk.trees == d.trees - {tx.stage} by {
      if r1.end.Done? && tx.stage in d.trees { ThenDone(r0, Remove(tx.stage)); RemoveEffects(r0.m, tx.stage, None); }
    }
    var s2, s3 := Check(tx.Backup() !in d.trees, true), Commit(tx);
    var p2 := ThenCases(r1, s2);
    ThenDone(r1, s2);
    var r2 := Then(r1, s2);
    assert r2.m == r1.m;
    var p3 := ThenCases(r2, s3);
    ThenDone(r2, s3);
  }

  /** A transaction as a request opens it on the disk. */
  predicate OpensOn(d: Disk, req: Request, tx: Transaction) {
    && WellFormed(tx) && tx.status == Staging && tx.receipt.id == req.Id() && tx.originalRegistry == d.registry
    && (!tx.existed ==> tx.Dest() !in d.trees) && tx.key !in d.idempotency
  }

  lemma {:induction false} OpenedOpensOn(dg: Digests, d: Disk, req: Request)
    requires Objection(dg, d, req).None? && req.key !in d.idempotency
    ensures OpensOn(d, req, Opened(req, d))
  {
  }

  /** How far an attempt got, and what the trees are then. */
  ghost predicate AttemptTrees(d: Disk, d': Disk, tx: Transaction, tree: Tree) {
    || (d'.journal == d.journal && d'.registry == d.registry && d'.idempotency == d.idempotency
        && forall p: Place :: p != tx.stage ==> At(d'.trees, p) == At(d.trees, p))
    || (tx.key in d'.journal && SameTransaction(d'.journal[tx.key], tx)
        && match d'.journal[tx.key].status
           case Applied => Kept(At(d.trees, tx.Dest()), d'.trees, tx) && (tx.existed ==> tx.Backup() in d'.trees)
                           && At(d'.trees, tx.Dest()) == Some(tree) && KeyRecorded(Machine(d, tx), d')
           case ApplyRolledBack =>
               d'.trees == d.trees - {tx.stage} && tx.Backup() !in d'.trees && d'.registry == d.registry
           case status => InFlight(status) && Kept(At(d.trees, tx.Dest()), d'.trees, tx))
  }

  ghost predicate AttemptDisk(d: Disk, d': Disk, tx: Transaction, tree: Tree) {
    && OnlyOwnPlaces(d.trees, d'.trees, tx) && OnlyOwnFiles(d, d', tx) && AttemptTrees(d, d', tx, tree)
    && (tx.key in d'.idempotency ==> KeyRecorded(Machine(d, tx), d'))
  }

  ghost predicate AttemptOutcome(d: Disk, call: Call<Receipt>, tx: Transaction, tree: Tree) {
    && AttemptDisk(d, call.disk, tx, tree)
    && (call.reply.Replied? ==> call.reply.value == tx.receipt && KeyRecorded(Machine(d, tx), call.disk)
                                && tx.key in call.disk.journal && call.disk.journal[tx.key].status == Applied)
    && (call.reply.Refused? ==> call.disk == d)
  }

  /** Same trees, put back place by place. */
  lemma {:induction false} TreesBack(before: Trees, after: Trees, tx: Transaction)
    requires OnlyOwnPlaces(before, after, tx) && tx.stage !in after
    requires Restored(At(before, tx.Dest()), after, tx)
    requires tx.Backup() !in before && (!tx.existed ==> tx.Dest() !in before)
    ensures after == before - {tx.stage}
  {
    forall p: Place ensures At(after, p) == At(before - {tx.stage}, p) {
      if p != tx.Dest() && p != tx.Backup() && p != tx.stage { assert At(before, p) == At(after, p); }
    }
    forall p: Place ensures p in after
        <==> p in before - {tx.stage} { assert At(after, p) == At(before - {tx.stage}, p); }
    forall p: Place | p in after
        ensures after[p] == (before - {tx.stage})[p] { assert At(after, p) == At(before - {tx.stage}, p); }
  }

  /** The handler of a failed apply: from every position where a step of the block raised, the
      undo is never refused, and once it finishes every tree and the registry are as before
      the block, with the journal saying so. */
  lemma {:induction false} ApplyFailureIsAtomic(dg: Digests, m0: Machine, req: Request, plan: seq<Fault>)
    requires Ready(m0) && m0.tx.receipt.id == req.Id()
    requires ApplyBlock(dg, m0, req, plan).end.Raised?
    ensures var r := ApplyBlock(dg, m0, req, plan);
            var u := Undo(r.m, r.plan);
            && Undo(r.m, []).end.Done?
            && (u.end.Done? ==>
                  && u.m.disk.trees == m0.disk.trees
                  && u.m.disk.registry == m0.disk.registry
                  && u.m.disk.journal - {m0.tx.key} == m0.disk.journal - {m0.tx.key}
                  && m0.tx.key in u.m.disk.journal && u.m.disk.journal[m0.tx.key].status == ApplyRolledBack
                  && SameTransaction(u.m.disk.journal[m0.tx.key], m0.tx))
            && (!u.end.Done? ==> Kept(At(m0.disk.trees, m0.tx.Dest()), u.m.disk.trees, m0.tx))
  {
    ApplyBlockStops(dg, m0, req, plan);
    hide ApplyBlock, Undo;
    var tx, r := m0.tx, ApplyBlock(dg, m0, req, plan);
    UndoFinishesIff(r.m);
    UndoStops(At(m0.disk.trees, tx.Dest()), r.m, r.plan);
    hide Kept;
    var u := Undo(r.m, r.plan);
    if u.end.Done? {
      ExceptUpdate(r.m.disk.journal, tx.key, r.m.tx.(status := ApplyRolledBack));
      UndoneFromBlock(m0.disk.trees, r.m.disk.trees, u.m.disk.trees, tx);
    }
  }

  lemma {:induction false} UndoneFromBlock(before: Trees, stopped: Trees, after: Trees, tx: Transaction)
    requires OnlyOwnPlaces(before, stopped, tx) && OnlyOwnPlaces(stopped, after, tx) && tx.stage !in after
    requires Restored(At(before, tx.Dest()), after, tx)
    requires tx.Backup() !in before && tx.stage !in before && (!tx.existed ==> tx.Dest() !in before)
    ensures after == before
  {
    forall p: Place | p != tx.Dest() && p != tx.Backup() && p != tx.stage ensures At(before, p) == At(after, p) {
      assert At(before, p) == At(stopped, p) == At(after, p);
    }
    TreesBack(before, after, tx);
    assert before - {tx.stage} == before;
  }

  lemma {:induction false} PlacesCompose(a: Trees, b: Trees, c: Trees, tx: Transaction)
    requires OnlyOwnPlaces(a, b, tx) && OnlyOwnPlaces(b, c, tx)
    ensures OnlyOwnPlaces(a, c, tx)
  {
    forall p: Place | p != tx.Dest() && p != tx.Backup() && p != tx.stage ensures At(a, p) == At(c, p) {
      assert At(a, p) == At(b, p) == At(c, p);
    }
  }

  lemma {:induction false} FilesCompose(a: Disk, b: Disk, c: Disk, tx: Transaction)
    requires OnlyOwnFiles(a, b, tx) && OnlyOwnFiles(b, c, tx)
    ensures OnlyOwnFiles(a, c, tx)
  {
  }

  predicate StartsFrom(d: Disk, m0: Machine) {
    m0.disk == d.(trees := d.trees - {m0.tx.stage}, journal := d.journal[m0.tx.key := m0.tx])
  }

  lemma {:induction false} BlockOutcome(dg: Digests, d: Disk, m0: Machine, r: Res, req: Request)
    requires StartsFrom(d, m0) && Ready(m0)
    requires if r.end.Done? then Committed(dg, m0, r.m, req) else Undoable(m0, r.m)
    ensures AttemptDisk(d, r.m.disk, m0.tx, req.tree)
    ensures At(m0.disk.trees, m0.tx.Dest()) == At(d.trees, m0.tx.Dest())
  {
    var tx := m0.tx;
    ExceptUpdate(d.journal, tx.key, tx);
    assert OnlyOwnFiles(d, m0.disk, tx);
    assert OnlyOwnPlaces(d.trees, m0.disk.trees, tx);
    PlacesCompose(d.trees, m0.disk.trees, r.m.disk.trees, tx);
    FilesCompose(d, m0.disk, r.m.disk, tx);
  }

  lemma {:induction false} UndoneOutcome(dg: Digests, d: Disk, m0: Machine, req: Request, plan: seq<Fault>)
    requires StartsFrom(d, m0) && Ready(m0) && m0.tx.receipt.id == req.Id() && m0.disk.registry == d.registry
    requires ApplyBlock(dg, m0, req, plan).end.Raised?
    ensures var r := ApplyBlock(dg, m0, req, plan);
            AttemptDisk(d, Undo(r.m, r.plan).m.disk, m0.tx, req.tree)
  {
    ApplyBlockStops(dg, m0, req, plan);
    hide ApplyBlock, Undo, Undoable;
    var tx, r := m0.tx, ApplyBlock(dg, m0, req, plan);
    BlockOutcome(dg, d, m0, r, req);
    UndoableFacts(m0, r.m);
    ApplyFailureIsAtomic(dg, m0, req, plan);
    UndoStops(At(m0.disk.trees, tx.Dest()), r.m, r.plan);
    var u := Undo(r.m, r.plan);
    assert OnlyOwnFiles(r.m.disk, u.m.disk, tx);
    FilesCompose(d, r.m.disk, u.m.disk, tx);
    PlacesCompose(d.trees, r.m.disk.trees, u.m.disk.trees, tx);
  }

  lemma {:induction false} UndoableFacts(m0: Machine, m: Machine)
    requires Undoable(m0, m) && Ready(m0)
    ensures WellFormed(m.tx) && SameTransaction(m.tx, m0.tx)
    ensures Kept(At(m0.disk.trees, m0.tx.Dest()), m.disk.trees, m.tx)
  {
  }

  lemma {:induction false} BlockEnds(dg: Digests, d: Disk, m0: Machine, req: Request, plan: seq<Fault>)
    requires StartsFrom(d, m0) && Ready(m0) && m0.tx.receipt.id == req.Id() && m0.disk.registry == d.registry
    ensures AttemptOutcome(d, ApplyOrUndo(dg, m0, req, plan), m0.tx, req.tree)
    ensures !ApplyOrUndo(dg, m0, req, plan).reply.Refused?
  {
    ApplyBlockStops(dg, m0, req, plan);
    hide ApplyBlock, Undo, Undoable, Ready, AttemptDisk;
    var r := ApplyBlock(dg, m0, req, plan);
    BlockOutcome(dg, d, m0, r, req);
    if r.end.Raised? { UndoneOutcome(dg, d, m0, req, plan); }
  }

  lemma {:induction false} OpenEnds(d: Disk, req: Request, tx: Transaction, plan: seq<Fault>)
    requires OpensOn(d, req, tx)
    ensures var o := Open(req, d, tx, plan);
            && (o.end.Done? ==> Ready(o.m) && StartsFrom(d, o.m) && o.m.tx == tx && o.m.disk.registry == d.registry)
            && (!o.end.Done? ==> AttemptDisk(d, o.m.disk, tx, req.tree))
  {
    OpenStops(req, d, tx, plan);
  }

  lemma {:induction false} AttemptFromStops(dg: Digests, d: Disk, req: Request, tx: Transaction, plan: seq<Fault>)
    requires OpensOn(d, req, tx)
    ensures AttemptOutcome(d, AttemptFrom(dg, d, req, tx, plan), tx, req.tree)
    ensures !AttemptFrom(dg, d, req, tx, plan).reply.Refused?
  {
    OpenEnds(d, req, tx, plan);
    var o := Open(req, d, tx, plan);
    if o.end.Done? { BlockEnds(dg, d, o.m, req, o.plan); }
  }

  lemma {:induction false} AttemptStops(dg: Digests, d: Disk, req: Request, plan: seq<Fault>)
    requires req.key !in d.idempotency
    ensures AttemptOutcome(d, Attempt(dg, d, req, plan), Opened(req, d), req.tree)
  {
    if Objection(dg, d, req).None? {
      OpenedOpensOn(dg, d, req);
      AttemptFromStops(dg, d, req, Opened(req, d), plan);
    } else {
      assert OnlyOwnPlaces(d.trees, d.trees, Opened(req, d));
    }
  }

  // ----- Rollback

  /** What a rollback call that was accepted can leave. */
  ghost predicate RollbackOutcome(d: Disk, d': Disk, req: RollbackRequest)
    requires req.key in d.journal
  {
    var tx := d.journal[req.key];
    && OnlyRollbackFiles(d, d', req)
    && (forall p: Place :: p != tx.Dest() && p != tx.Backup() && p != req.Stage() ==> At(d.trees, p) == At(d'.trees, p))
    && req.key in d'.journal && SameRestore(d'.journal[req.key], tx)
    && match d'.journal[req.key].status
       case Applied => Unmoved(d.trees, d'.trees, req.Stage())
       case RolledBack =>
           At(d'.trees, tx.Dest()) == At(d.trees, tx.Backup()) && tx.Backup() !in d'.trees
           && d'.registry == tx.originalRegistry
       case status =>
           status in {RollbackPending, RollbackRecoveryRequired} && Arranged(d.trees, d'.trees, tx, req.Stage())
  }

  ghost predicate Acceptable(dg: Digests, d: Disk, req: RollbackRequest) {
    && req.key in d.journal && WellFormed(d.journal[req.key]) && d.journal[req.key].key == req.key
    && req.rollbackKey !in d.rollbackIdempotency
    && RollbackObjection(dg, d, d.journal[req.key], req).None?
  }

  function PendingMachine(d: Disk, req: RollbackRequest): Machine
    requires req.key in d.journal
  {
    var pending := PendingOf(d.journal[req.key]);
    Machine(d.(journal := d.journal[req.key := pending]), pending)
  }

  lemma {:induction false} PendingStart(dg: Digests, d: Disk, req: RollbackRequest)
    requires Acceptable(dg, d, req)
    ensures Pending(PendingMachine(d, req), req)
    ensures PendingMachine(d, req).disk.journal - {req.key} == d.journal - {req.key}
    ensures Unmoved(d.trees, d.trees, req.Stage())
  {
    ExceptUpdate(d.journal, req.key, PendingOf(d.journal[req.key]));
  }

  /** An accepted rollback either fails before its journal write or runs from the pending machine. */
  lemma {:induction false} AcceptedRuns(dg: Digests, d: Disk, req: RollbackRequest, plan: seq<Fault>)
      returns (rest: seq<Fault>)
    requires Acceptable(dg, d, req)
    ensures var tx := d.journal[req.key];
            var call := RollbackAccepted(dg, d, tx, req, plan);
            || (call.disk == d && !call.reply.Replied? && call.reply != Failed(RollbackFailedReverted))
            || call == RollbackOrRevert(dg, PendingMachine(d, req), req,
                RollbackReceipt(req.Id(), tx.receipt.brain, BackupDigest(dg, d, tx)), rest)
    ensures var tx := d.journal[req.key];
            var receipt := RollbackReceipt(req.Id(), tx.receipt.brain, BackupDigest(dg, d, tx));
            plan == [] ==>
                RollbackAccepted(dg, d, tx, req, plan) == RollbackOrRevert(dg, PendingMachine(d, req), req, receipt, [])
  {
    hide RollbackOrRevert, BackupDigest;
    var tx := d.journal[req.key];
    var r0 := Res(Machine(d, tx), plan, Done);
    var p0 := ThenCases(r0, Commit(PendingOf(tx)));
    ThenDone(r0, Commit(PendingOf(tx)));
    rest := Then(r0, Commit(PendingOf(tx))).plan;
  }

  /** A public rollback that fails after it was journaled and is then reverted never happened:
      trees, backup, receipts and status are as before, the registry is the one recorded at
      apply time, and the same request is acceptable again. */
  lemma {:induction false} FailedRollbackNeverHappened(dg: Digests, d: Disk, req: RollbackRequest, plan: seq<Fault>)
    requires Acceptable(dg, d, req)
    requires var tx := d.journal[req.key];
             && tx.appliedRegistry.Some?
             && tx.appliedRegistryDigest == Some(dg.registry(tx.appliedRegistry.value))
    requires RollbackAccepted(dg, d, d.journal[req.key], req, plan).reply == Failed(RollbackFailedReverted)
    ensures var d' := RollbackAccepted(dg, d, d.journal[req.key], req, plan).disk;
            && d'.trees == d.trees
            && dg.registry(d'.registry) == dg.registry(d.registry)
            && (Some(d.registry) == d.journal[req.key].appliedRegistry ==> d'.registry == d.registry)
            && d'.journal - {req.key} == d.journal - {req.key}
            && req.key in d'.journal && SameRestore(d'.journal[req.key], d.journal[req.key])
                && d'.journal[req.key].status == Applied
            && d'.receipts == d.receipts && d'.idempotency == d.idempotency
            && d'.rollbackIdempotency == d.rollbackIdempotency && d'.rollbackReceipts == d.rollbackReceipts - {req.Id()}
            && Acceptable(dg, d', req)
  {
    PendingStart(dg, d, req);
    var rest := AcceptedRuns(dg, d, req, plan);
    var tx := d.journal[req.key];
    var receipt := RollbackReceipt(req.Id(), tx.receipt.brain, BackupDigest(dg, d, tx));
    RevertedBlock(dg, PendingMachine(d, req), req, receipt, rest);
    RevertedIsBefore(dg, d, PendingMachine(d, req), RollbackAccepted(dg, d, tx, req, plan).disk, req);
  }

  lemma {:induction false} RevertedBlock(dg: Digests, m0: Machine, req: RollbackRequest, receipt: RollbackReceipt,
      plan: seq<Fault>)
    requires Pending(m0, req) && receipt.id == req.Id()
    requires RollbackOrRevert(dg, m0, req, receipt, plan).reply == Failed(RollbackFailedReverted)
    ensures RevertedDisk(m0, RollbackOrRevert(dg, m0, req, receipt, plan).disk, req)
  {
    RollbackBlockStops(dg, m0, req, receipt, plan);
    var r := RollbackBlock(dg, m0, req, receipt, plan);
    RevertStops(m0, r.m, req, r.plan);
  }

  lemma {:induction false} RevertedIsBefore(dg: Digests, d: Disk, m0: Machine, d': Disk, req: RollbackRequest)
    requires Acceptable(dg, d, req) && m0 == PendingMachine(d, req)
    requires var tx := d.journal[req.key];
             tx.appliedRegistry.Some? && tx.appliedRegistryDigest == Some(dg.registry(tx.appliedRegistry.value))
    requires RevertedDisk(m0, d', req)
    ensures d'.trees == d.trees && Some(d'.registry) == d.journal[req.key].appliedRegistry
    ensures dg.registry(d'.registry) == dg.registry(d.registry)
    ensures d'.journal - {req.key} == d.journal - {req.key}
    ensures req.key in d'.journal && SameRestore(d'.journal[req.key], d.journal[req.key])
    ensures d'.journal[req.key].status == Applied
    ensures Acceptable(dg, d', req)
  {
    UnmovedSame(d.trees, d'.trees, req.Stage());
    ExceptUpdate(d.journal, req.key, m0.tx);
  }

  lemma {:induction false} UnmovedSame(before: Trees, after: Trees, aside: Place)
    requires aside !in before && Unmoved(before, after, aside)
    ensures before == after
  {
    forall p: Place ensures p in before <==> p in after { assert p != aside ==> At(before, p) == At(after, p); }
    forall p: Place | p in before ensures before[p] == after[p] { assert At(before, p) == At(after, p); }
  }

  lemma {:induction false} CleanupStops(r: Res, req: RollbackRequest)
    requires r.end.Done? && r.m.tx.key == req.key && req.key in r.m.disk.journal && r.m.disk.journal[req.key] == r.m.tx
    ensures var c := Cleanup(r, req);
            && c.m.disk == r.m.disk.(trees := c.m.disk.trees, journal := c.m.disk.journal)
            && (forall p: Place :: p != req.Stage() ==> At(c.m.disk.trees, p) == At(r.m.disk.trees, p))
            && (c.m.disk.journal == r.m.disk.journal
                || c.m.disk.journal == r.m.disk.journal[req.key := r.m.tx.(cleanupPending := true)])
            && (r.plan == [] ==> c.end.Done? && req.Stage() !in c.m.disk.trees && c.m.disk.journal == r.m.disk.journal)
  {
    RemoveStops(r, true, req.Stage());
    var c := Then(r, Remove(req.Stage()));
    if c.end.Raised? {
      var s := Commit(c.m.tx.(cleanupPending := true));
      var p := ThenCases(Res(c.m, c.plan, Done), s);
      ThenDone(Res(c.m, c.plan, Done), s);
    }
  }

  lemma {:induction false} EscalateStops(u: Res)
    ensures var e := Escalate(u);
            && e.m.disk == u.m.disk.(journal := e.m.disk.journal)
            && (e.m.disk.journal == u.m.disk.journal
                || e.m.disk.journal == u.m.disk.journal[u.m.tx.key := u.m.tx.(status := RollbackRecoveryRequired)])
  {
    if u.end.Raised? {
      var s := Commit(u.m.tx.(status := RollbackRecoveryRequired));
      var p := ThenCases(Res(u.m, u.plan, Done), s);
      ThenDone(Res(u.m, u.plan, Done), s);
    }
  }

  /** Every accepted rollback, cut short anywhere, ends in one of the outcomes. */
  lemma {:induction false} RollbackStops(dg: Digests, d: Disk, req: RollbackRequest, plan: seq<Fault>)
    requires Acceptable(dg, d, req)
    ensures RollbackOutcome(d, RollbackAccepted(dg, d, d.journal[req.key], req, plan).disk, req)
  {
    PendingStart(dg, d, req);
    var rest := AcceptedRuns(dg, d, req, plan);
    var tx := d.journal[req.key];
    BlockThenUndo(dg, d, req, RollbackReceipt(req.Id(), tx.receipt.brain, BackupDigest(dg, d, tx)), rest);
  }

  /** From the journaled `rollback_pending` on. */
  lemma {:induction false} BlockThenUndo(dg: Digests, d: Disk, req: RollbackRequest, receipt: RollbackReceipt,
      plan: seq<Fault>)
    requires req.key in d.journal && Pending(PendingMachine(d, req), req) && receipt.id == req.Id()
    requires PendingMachine(d, req).disk.journal - {req.key} == d.journal - {req.key}
    ensures RollbackOutcome(d, RollbackOrRevert(dg, PendingMachine(d, req), req, receipt, plan).disk, req)
  {
    var m0 := PendingMachine(d, req);
    RollbackBlockStops(dg, m0, req, receipt, plan);
    var r := RollbackBlock(dg, m0, req, receipt, plan);
    if r.end.Done? {
      CompletedOutcome(d, m0, r, req, receipt);
    } else if r.end.Raised? {
      RevertStops(m0, r.m, req, r.plan);
      RevertOutcome(d, m0, Revert(r.m, req, r.plan), req);
    }
  }

  lemma {:induction false} CompletedOutcome(d: Disk, m0: Machine, r: Res, req: RollbackRequest,
      receipt: RollbackReceipt)
    requires req.key in d.journal && r.end.Done? && Pending(m0, req) && RolledBackDisk(m0, r.m, req, receipt)
    requires m0 == PendingMachine(d, req) && m0.disk.journal - {req.key} == d.journal - {req.key}
    ensures RollbackOutcome(d, Cleanup(r, req).m.disk, req)
  {
    assert RollbackOutcome(d, r.m.disk, req);
    CleanupStops(r, req);
    CleanedOutcome(d, r, Cleanup(r, req).m.disk, req);
  }

  lemma {:induction false} CleanedOutcome(d: Disk, r: Res, d': Disk, req: RollbackRequest)
    requires req.key in d.journal && RollbackOutcome(d, r.m.disk, req) && r.m.tx.key == req.key
    requires r.m.disk.journal[req.key] == r.m.tx && r.m.tx.status == RolledBack
    requires d' == r.m.disk.(trees := d'.trees, journal := d'.journal)
    requires forall p: Place :: p != req.Stage() ==> At(d'.trees, p) == At(r.m.disk.trees, p)
    requires d'.journal == r.m.disk.journal
        || d'.journal == r.m.disk.journal[req.key := r.m.tx.(cleanupPending := true)]
    ensures RollbackOutcome(d, d', req)
  {
    if d'.journal != r.m.disk.journal { ExceptUpdate(r.m.disk.journal, req.key, r.m.tx.(cleanupPending := true)); }
    var tx := d.journal[req.key];
    forall p: Place | p != tx.Dest() && p != tx.Backup() && p != req.Stage() ensures At(d.trees, p) == At(d'.trees, p) {
      assert At(d.trees, p) == At(r.m.disk.trees, p);
    }
    assert At(d'.trees, tx.Dest()) == At(r.m.disk.trees, tx.Dest());
    assert At(d'.trees, tx.Backup()) == At(r.m.disk.trees, tx.Backup());
  }

  lemma {:induction false} RevertOutcome(d: Disk, m0: Machine, u: Res, req: RollbackRequest)
    requires req.key in d.journal && Pending(m0, req)
    requires m0 == PendingMachine(d, req) && m0.disk.journal - {req.key} == d.journal - {req.key}
    requires Arranged(m0.disk.trees, u.m.disk.trees, m0.tx, req.Stage()) && OnlyRollbackFiles(m0.disk, u.m.disk, req)
    requires SameRestore(u.m.tx, m0.tx) && req.key in u.m.disk.journal && SameRestore(u.m.disk.journal[req.key], m0.tx)
    requires u.m.disk.journal[req.key].status in {RollbackPending, Applied}
    requires u.m.disk.journal[req.key].status == Applied ==> Unmoved(m0.disk.trees, u.m.disk.trees, req.Stage())
    ensures RollbackOutcome(d, u.m.disk, req)
    ensures RollbackOutcome(d, Escalate(u).m.disk, req)
  {
    EscalateStops(u);
    var e := Escalate(u);
    if e.m.disk.journal != u.m.disk.journal
        { ExceptUpdate(u.m.disk.journal, req.key, u.m.tx.(status := RollbackRecoveryRequired)); }
  }
}
