/** A failed public rollback never happened, in every state that runs of calls can reach. */
module RestoreRetry {
  import opened Wrappers
  import opened BrainRegistry
  import opened RestoreDisk
  import opened RestoreApply
  import opened RestoreSafety
  import opened RestoreRollback
  import opened RestoreCalls
  import opened RestoreRuns
  import opened RestoreReplay

  /** The recorded registry has the recorded digest. */
  predicate Sealed(dg: Digests, tx: Transaction) {
    tx.appliedRegistry.Some? && tx.appliedRegistryDigest == Some(dg.registry(tx.appliedRegistry.value))
  }

  predicate HasApplied(status: Status) {
    status in {Applied, RollbackPending, RolledBack, RollbackRecoveryRequired}
  }

  ghost predicate SealedDisk(dg: Digests, d: Disk) {
    forall k :: k in d.journal && HasApplied(d.journal[k].status) ==> Sealed(dg, d.journal[k])
  }

  lemma {:induction false} OthersSealed(dg: Digests, d: Disk, d': Disk, key: string)
    requires SealedDisk(dg, d) && d.journal - {key} == d'.journal - {key}
    requires key in d'.journal && HasApplied(d'.journal[key].status) ==> Sealed(dg, d'.journal[key])
    ensures SealedDisk(dg, d')
  {
    forall k | k in d'.journal && HasApplied(d'.journal[k].status) ensures Sealed(dg, d'.journal[k]) {
      if k != key {
        assert k in d'.journal - {key} && (d.journal - {key})[k] == (d'.journal - {key})[k];
      }
    }
  }

  /** What the block and its undo journal for the key. */
  lemma {:induction false} BlockSeals(dg: Digests, m0: Machine, req: Request, plan: seq<Fault>)
    requires Ready(m0) && m0.tx.receipt.id == req.Id()
    ensures var journal := ApplyOrUndo(dg, m0, req, plan).disk.journal;
            m0.tx.key in journal && (HasApplied(journal[m0.tx.key].status) ==> Sealed(dg, journal[m0.tx.key]))
  {
    assert WellFormed(m0.tx);
    hide ApplyBlock, Undo, Ready;
    ApplyBlockStops(dg, m0, req, plan);
    var r := ApplyBlock(dg, m0, req, plan);
    if r.end.Raised? {
      UndoneJournal(m0, r.m, r.plan);
    } else if r.end.Crashed? {
      UndoableJournal(m0, r.m);
    } else {
      CommittedSeals(dg, m0, r.m, req);
    }
  }

  lemma {:induction false} UndoableJournal(m0: Machine, m: Machine)
    requires Undoable(m0, m)
    ensures m0.tx.key in m.disk.journal && InFlight(m.disk.journal[m0.tx.key].status)
  {
  }

  lemma {:induction false} CommittedSeals(dg: Digests, m0: Machine, m: Machine, req: Request)
    requires Committed(dg, m0, m, req)
    ensures m0.tx.key in m.disk.journal && Sealed(dg, m.disk.journal[m0.tx.key])
  {
    hide UpdateOf;
  }

  lemma {:induction false} UndoneJournal(m0: Machine, m: Machine, plan: seq<Fault>)
    requires WellFormed(m0.tx) && Undoable(m0, m)
    ensures var journal := Undo(m, plan).m.disk.journal;
            m0.tx.key in journal
                && (InFlight(journal[m0.tx.key].status) || journal[m0.tx.key].status == ApplyRolledBack)
  {
    hide Undo;
    UndoStops(At(m0.disk.trees, m0.tx.Dest()), m, plan);
  }

  lemma {:induction false} AttemptSeals(dg: Digests, d: Disk, req: Request, plan: seq<Fault>)
    requires SealedDisk(dg, d) && req.key !in d.idempotency
    ensures SealedDisk(dg, Attempt(dg, d, req, plan).disk)
  {
    hide ApplyOrUndo, Open, SealedDisk, Ready;
    AttemptStops(dg, d, req, plan);
    if Objection(dg, d, req).None? {
      OpenedOpensOn(dg, d, req);
      var tx := Opened(req, d);
      OpenEnds(d, req, tx, plan);
      OpenStops(req, d, tx, plan);
      var o := Open(req, d, tx, plan);
      if o.end.Done? {
        BlockSeals(dg, o.m, req, o.plan);
        OthersSealed(dg, d, Attempt(dg, d, req, plan).disk, req.key);
      } else {
        SameJournalSealed(dg, d, o.m.disk);
      }
    }
  }

  lemma {:induction false} SameJournalSealed(dg: Digests, d: Disk, d': Disk)
    requires SealedDisk(dg, d) && d'.journal == d.journal
    ensures SealedDisk(dg, d')
  {
  }

  lemma {:induction false} ApplySeals(dg: Digests, d: Disk, origins: Origins, req: Request, plan: seq<Fault>)
    requires World(d, origins) && SealedDisk(dg, d)
    ensures SealedDisk(dg, Apply(dg, d, req, plan).disk)
  {
    hide Apply, Attempt, Undo, ReplayOf, SealedDisk;
    ReplayInWorld(d, origins, req);
    ApplyCases(dg, d, origins, req, plan);
    match ReplayOf(d, req)
    case Reject(_) =>
    case Answer(_) =>
    case RepairReceipt(_) => assert false;
    case RepairBoth(_) => assert false;
    case Fresh => AttemptSeals(dg, d, req, plan);
    case Recover =>
      assert Journaled(d, req.key, origins);
      var tx := d.journal[req.key];
      var u := Undo(Machine(d, tx), plan);
      var found := if tx.status == ApplyRolledBack then At(d.trees, tx.Dest()) else origins[req.key];
      UndoStops(found, Machine(d, tx), plan);
      OthersSealed(dg, d, u.m.disk, req.key);
      if u.end.Done? { AttemptSeals(dg, u.m.disk, req, u.plan); }
  }

  lemma {:induction false} RollbackSeals(dg: Digests, d: Disk, origins: Origins, req: RollbackRequest, plan: seq<Fault>)
    requires World(d, origins) && SealedDisk(dg, d)
    ensures SealedDisk(dg, Rollback(dg, d, req, plan).disk)
  {
    if req.key in d.journal {
      var tx := d.journal[req.key];
      assert Journaled(d, req.key, origins);
      hide SealedDisk, RollbackAccepted;
      if req.rollbackKey in d.rollbackIdempotency {
        ReplayTouchesNothing(d, tx, req, plan);
        SameJournalSealed(dg, d, RollbackReplay(d, tx, req, plan).disk);
      } else if RollbackObjection(dg, d, tx, req).None? {
        RollbackStops(dg, d, req, plan);
        SealedKey(dg, d, req.key);
        OthersSealed(dg, d, RollbackAccepted(dg, d, tx, req, plan).disk, req.key);
      }
    }
  }

  lemma {:induction false} SealedKey(dg: Digests, d: Disk, key: string)
    requires SealedDisk(dg, d) && key in d.journal && HasApplied(d.journal[key].status)
    ensures Sealed(dg, d.journal[key])
  {
  }

  lemma {:induction false} RunSeals(dg: Digests, d: Disk, origins: Origins, events: seq<Event>)
    requires World(d, origins) && SealedDisk(dg, d) && DisciplinedRun(dg, d, events)
    ensures SealedDisk(dg, DoAll(dg, d, events)) && World(DoAll(dg, d, events), OriginsAfterAll(dg, d, origins, events))
    decreases |events|
  {
    hide SealedDisk, World, Apply, Rollback;
    if events != [] {
      EventKeepsWorld(dg, d, origins, events[0]);
      match events[0] {
        case ApplyCall(req, plan) => ApplySeals(dg, d, origins, req, plan);
        case RollbackCall(req, plan) => RollbackSeals(dg, d, origins, req, plan);
      }
      RunSeals(dg, Do(dg, d, events[0]), OriginsAfter(dg, d, origins, events[0]), events[1..]);
    }
  }

  /** After any disciplined run, a public rollback that reports failed and reverted has left
      trees, receipts and keys as they were, the registry with the digest it had, and the restore
      standing; and the same request can be accepted again. */
  lemma {:induction false} FailedRollbackAfterRun(dg: Digests, d: Disk, origins: Origins, events: seq<Event>,
      req: RollbackRequest, plan: seq<Fault>)
    requires World(d, origins) && SealedDisk(dg, d) && DisciplinedRun(dg, d, events)
    requires Rollback(dg, DoAll(dg, d, events), req, plan).reply == Failed(RollbackFailedReverted)
    ensures var d1 := DoAll(dg, d, events);
            var d2 := Rollback(dg, d1, req, plan).disk;
            && d2.trees == d1.trees && dg.registry(d2.registry) == dg.registry(d1.registry)
            && req.key in d1.journal && req.key in d2.journal
            && SameRestore(d2.journal[req.key], d1.journal[req.key]) && d2.journal[req.key].status == Applied
            && d2.receipts == d1.receipts && d2.idempotency == d1.idempotency
            && d2.rollbackIdempotency == d1.rollbackIdempotency
            && Acceptable(dg, d2, req)
  {
    RunSeals(dg, d, origins, events);
    var d1 := DoAll(dg, d, events);
    var tx := d1.journal[req.key];
    assert Journaled(d1, req.key, OriginsAfterAll(dg, d, origins, events));
    NotAReplay(d1, tx, req, plan);
    hide RollbackAccepted, RollbackReplay, World;
    FailedRollbackNeverHappened(dg, d1, req, plan);
  }

  lemma {:induction false} NotAReplay(d: Disk, tx: Transaction, req: RollbackRequest, plan: seq<Fault>)
    ensures req.rollbackKey in d.rollbackIdempotency ==>
        RollbackReplay(d, tx, req, plan).reply != Failed(RollbackFailedReverted)
  {
  }
}
