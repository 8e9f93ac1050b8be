/** Runs that reach the states in which replay falls short. */
module RestoreWitness {
  import opened Wrappers
  import opened BrainRegistry
  import opened RestoreDisk
  import opened RestoreApply
  import opened RestoreAdmission
  import opened RestoreSafety
  import opened RestoreCalls
  import opened RestorePlan
  import opened RestoreRuns
  import opened RestoreReplay
  import opened RestoreStack

  // ----- A failed restore replayed after another one

  const RAISE := Raise(None, false)
  const CRASH := Crash(None)

  lemma {:induction false} StoppedPhases(dg: Digests, r: Res, req: Request)
    requires !r.end.Done?
    ensures BackupPhase(dg, r) == r && InstallPhase(dg, r) == r && RegistryPhase(dg, r, req) == r && FinishPhase(r) == r
  {
  }

  lemma {:induction false} FirstStepFails(dg: Digests, m0: Machine, req: Request)
    ensures ApplyBlock(dg, m0, req, [RAISE]) == Res(m0, [], Raised(false))
  {
    var r := StagePhase(Res(m0, [RAISE], Done), req);
    assert r == Res(m0, [], Raised(false));
    StoppedPhases(dg, r, req);
  }

  /** A first request that could begin. */
  predicate Begins(dg: Digests, d: Disk, req: Request) {
    && New(d, req) && Admits(dg, d, req)
    && Backup(req.Id()) !in d.trees && Stage(req.Id(), req.nonce) !in d.trees
  }

  function Undone(d: Disk, req: Request): Disk {
    d.(journal := d.journal[req.key := Opened(req, d).(status := ApplyRolledBack)])
  }

  /** If its first step raises, all it leaves is a journal record. */
  lemma {:induction false} UndoneFirstCall(dg: Digests, d: Disk, req: Request)
    requires Begins(dg, d, req)
    ensures Apply(dg, d, req, Faultless(2) + [RAISE]).disk == Undone(d, req)
  {
    hide Apply, ApplyBlock, Undo, Admits, Opened;
    var m0 := OpenedForBlock(dg, d, req, 0, [RAISE]);
    assert Faultless(0) + [RAISE] == [RAISE];
    FirstStepFails(dg, m0, req);
    ApplyFailureIsAtomic(dg, m0, req, [RAISE]);
    UndoStops(At(m0.disk.trees, m0.tx.Dest()), m0, []);
    assert d.trees - {m0.tx.stage} == d.trees;
    var u := Undo(m0, []).m.disk;
    assert u.journal == d.journal[req.key := m0.tx.(status := ApplyRolledBack)];
  }

  predicate AllSettled(d: Disk) {
    forall k :: k in d.journal ==> Settled(d.journal[k].status)
  }

  /** Where a committed first request leaves the disk. */
  lemma {:induction false} CommittedCall(dg: Digests, d: Disk, req: Request)
    requires req.key !in d.journal && req.key !in d.idempotency && WouldCommit(dg, d, req)
    ensures var d' := Apply(dg, d, req, []).disk;
            && Apply(dg, d, req, []).reply.Replied?
            && At(d'.trees, Dest(req.brain)) == Some(req.tree)
            && HasId(d'.registry.brains, req.brain)
            && OnlyOwnPlaces(d.trees, d'.trees, Opened(req, d)) && OnlyOwnFiles(d, d', Opened(req, d))
            && req.key in d'.journal && d'.journal[req.key].status == Applied
  {
    FirstApplyCommitsIff(dg, d, req);
    FirstIsAttempt(dg, d, req, []);
    AttemptStops(dg, d, req, []);
    OpenedNames(d, req);
    OpenedFacts(d, req);
    hide Apply, Attempt, Objection, Opened, UpdateOf;
    var m0, m := AttemptCommitted(dg, d, req, []);
  }

  /** The state between: `req` failed and was undone, then `other` was applied. */
  lemma {:induction false} FailedThenApplied(dg: Digests, d: Disk, req: Request, other: Request)
    requires Begins(dg, d, req) && other.key != req.key && other.key !in d.journal && other.key !in d.idempotency
    requires WouldCommit(dg, Undone(d, req), other)
    ensures var d2, tx := Apply(dg, Undone(d, req), other, []).disk, Opened(req, d).(status := ApplyRolledBack);
            && At(d2.trees, Dest(other.brain)) == Some(other.tree) && HasId(d2.registry.brains, other.brain)
            && req.key in d2.journal && d2.journal[req.key] == tx && req.key !in d2.idempotency
            && tx.Backup() !in d2.trees
            && (AllSettled(d) ==> AllSettled(d2))
  {
    hide Apply, Admits, Opened, WouldCommit;
    var d1 := Undone(d, req);
    CommittedCall(dg, d1, other);
    OpenedNames(d, req);
    OpenedNames(d1, other);
    OpenedShape(d1, other);
    var d2, tx2 := Apply(dg, d1, other, []).disk, Opened(other, d1);
    OtherRecordStays(d1, d2, tx2, req.key);
    BackupStays(d1.trees, d2.trees, tx2, req.Id());
    if AllSettled(d) { SettledStays(d1, d2, tx2); }
  }

  lemma {:induction false} OtherRecordStays(d: Disk, d': Disk, tx: Transaction, key: string)
    requires OnlyOwnFiles(d, d', tx) && key != tx.key
    ensures key in d.journal <==> key in d'.journal
    ensures key in d.journal ==> d'.journal[key] == d.journal[key]
    ensures key in d.idempotency <==> key in d'.idempotency
  {
    assert key in d.journal - {tx.key} <==> key in d'.journal - {tx.key};
    assert key in d.journal ==> (d.journal - {tx.key})[key] == (d'.journal - {tx.key})[key];
    assert key in d.idempotency - {tx.key} <==> key in d'.idempotency - {tx.key};
  }

  lemma {:induction false} BackupStays(before: Trees, after: Trees, tx: Transaction, id: ReceiptId)
    requires OnlyOwnPlaces(before, after, tx) && tx.stage.Stage? && id != tx.receipt.id && Backup(id) !in before
    ensures Backup(id) !in after
  {
    assert At(before, Backup(id)) == At(after, Backup(id));
  }

  lemma {:induction false} SettledStays(d: Disk, d': Disk, tx: Transaction)
    requires AllSettled(d) && OnlyOwnFiles(d, d', tx) && tx.key in d'.journal && d'.journal[tx.key].status == Applied
    ensures AllSettled(d')
  {
    forall k | k in d'.journal ensures Settled(d'.journal[k].status) {
      if k != tx.key { OtherRecordStays(d, d', tx, k); }
    }
  }

  /** A restore that failed and was undone, then any other restore that is applied, then a replay
      of the first: its recovery puts back the registry from before both, so a brain the other
      restore created is registered no more; and if both were for one brain new to the disk, the
      other's tree is removed, with no backup of it. The run is disciplined throughout. */
  lemma {:induction false} ReplayUndoesAnother(dg: Digests, d: Disk, req: Request, other: Request)
    requires AllSettled(d) && Begins(dg, d, req)
    requires other.key != req.key && other.key !in d.journal && other.key !in d.idempotency
    requires WouldCommit(dg, Undone(d, req), other)
    ensures var failing := Faultless(2) + [RAISE];
            var d2 := DoAll(dg, d, [ApplyCall(req, failing), ApplyCall(other, [])]);
            && DisciplinedRun(dg, d, [ApplyCall(req, failing), ApplyCall(other, []), ApplyCall(req, [])])
            && At(d2.trees, Dest(other.brain)) == Some(other.tree) && HasId(d2.registry.brains, other.brain)
            && ReplayOf(d2, req) == Recover && req.key in d2.journal
            && var u := Undo(Machine(d2, d2.journal[req.key]), []);
               && u.end.Done? && u.m.disk.registry == d.registry
               && (req.brain == other.brain && !HasId(d.registry.brains, req.brain) ==>
                   Dest(req.brain) !in u.m.disk.trees)
  {
    hide Apply, Undo, Opened, WouldCommit, Begins;
    var failing := Faultless(2) + [RAISE];
    var d1 := Undone(d, req);
    UndoneFirstCall(dg, d, req);
    FailedThenApplied(dg, d, req, other);
    OpenedNames(d, req);
    OpenedFacts(d, req);
    var d2 := Apply(dg, d1, other, []).disk;
    var events := [ApplyCall(req, failing), ApplyCall(other, [])];
    RunOfTwo(dg, d, events[0], events[1], ApplyCall(req, []));
    assert AllSettled(d1);
    var tx := d2.journal[req.key];
    OpenedShape(d, req);
    UndoFinishesIff(Machine(d2, tx));
    UndoStops(At(d2.trees, tx.Dest()), Machine(d2, tx), []);
  }

  lemma {:induction false} OpenedShape(d: Disk, req: Request)
    ensures WellFormed(Opened(req, d)) && Opened(req, d).originalRegistry == d.registry && Opened(req, d).key == req.key
  {
  }

  lemma {:induction false} RunOfTwo(dg: Digests, d: Disk, a: Event, b: Event, c: Event)
    ensures DoAll(dg, d, [a, b]) == Do(dg, Do(dg, d, a), b)
    ensures DisciplinedRun(dg, d, [a, b, c])
       <==> Disciplined(d, a) && Disciplined(Do(dg, d, a), b) && Disciplined(Do(dg, Do(dg, d, a), b), c)
  {
    hide Do, Disciplined;
    assert [a, b, c][1..] == [b, c] && [b, c][1..] == [c] && [c][1..] == [];
    assert [a, b][1..] == [b] && [b][1..] == [];
    var d1 := Do(dg, d, a);
    var d2 := Do(dg, d1, b);
    assert DoAll(dg, d1, [b]) == DoAll(dg, d2, []) == d2;
    assert DisciplinedRun(dg, d2, [c]) <==> Disciplined(d2, c);
    assert DisciplinedRun(dg, d1, [b, c]) <==> Disciplined(d1, b) && DisciplinedRun(dg, d2, [c]);
  }

  // ----- A recovery that cannot be completed

  /** Recovery dies right after the backup was moved back. */
  function StrandingPlan(d: Disk, tx: Transaction): seq<Fault> {
    (if tx.Dest() in d.trees then [NoFault, NoFault] else [NoFault]) + [CRASH]
  }

  /** From any interrupted key whose backup is there and needed, a recovery can die in a state
      that no later recovery accepts. The original is at its destination then. */
  lemma {:induction false} RecoveryCanStrand(d: Disk, tx: Transaction, original: Option<Tree>)
    requires WellFormed(tx) && tx.existed && NeedsBackup(tx.status) && tx.Backup() in d.trees
    requires At(d.trees, tx.Backup()) == original
    requires tx.key in d.journal && d.journal[tx.key] == tx
    ensures var u := Undo(Machine(d, tx), StrandingPlan(d, tx));
            && u.end.Crashed? && At(u.m.disk.trees, tx.Dest()) == original
            && tx.key in u.m.disk.journal && u.m.disk.journal[tx.key] == tx && Refuses(u.m.disk, tx)
            && u.m.disk.idempotency == d.idempotency
  {
    var plan := StrandingPlan(d, tx);
    var r0 := Res(Machine(d, tx), plan, Done);
    var r1 := ThenIf(r0, tx.Dest() in d.trees, Remove(tx.Dest()));
    assert r1.end.Done? && r1.plan == [NoFault, CRASH] && r1.m.disk == d.(trees := d.trees - {tx.Dest()})
        && r1.m.tx == tx;
    var r2 := Then(r1, Move(tx.Backup(), tx.Dest()));
    assert r2.end.Done? && r2.plan == [CRASH];
    MoveStops(r1, tx.Backup(), tx.Dest());
    StrandedTail(d, tx, r2);
  }

  lemma {:induction false} StrandedTail(d: Disk, tx: Transaction, r2: Res)
    requires r2.end.Done? && r2.plan == [CRASH]
    ensures var r3 := ThenIf(r2, tx.stage in d.trees, Remove(tx.stage));
            var r4 := Then(r3, WriteRegistry(tx.originalRegistry));
            Then(r4, Commit(tx.(status := ApplyRolledBack))) == Res(r2.m, [], Crashed)
  {
  }

  /** In such a state the key is stuck: no replay changes anything or is answered. */
  lemma {:induction false} StrandedForever(dg: Digests, d: Disk, req: Request, plan: seq<Fault>)
    requires ReplayOf(d, req).Recover? && req.key in d.journal && Refuses(d, d.journal[req.key])
    ensures Apply(dg, d, req, plan).disk == d && !Apply(dg, d, req, plan).reply.Replied?
  {
    RefusedUndo(d, d.journal[req.key], plan);
    hide Undo, ReplayOf, Attempt;
  }

  /** An apply over an existing brain that dies after its backup was journaled. */
  lemma {:induction false} CrashAfterBackup(dg: Digests, m0: Machine, req: Request)
    requires Ready(m0) && m0.tx.existed && m0.tx.Dest() in m0.disk.trees
    ensures var r := ApplyBlock(dg, m0, req, Faultless(5) + [CRASH]);
            && r.end.Crashed?
            && At(r.m.disk.trees, m0.tx.Backup()) == At(m0.disk.trees, m0.tx.Dest()) && m0.tx.Dest() !in r.m.disk.trees
            && m0.tx.key in r.m.disk.journal && SameTransaction(r.m.disk.journal[m0.tx.key], m0.tx)
            && r.m.disk.journal[m0.tx.key].status == BackupCreated && r.m.disk.idempotency == m0.disk.idempotency
  {
    hide StagePhase, BackupPhase, Undoable;
    var plan := Faultless(5) + [CRASH];
    StageInStep(m0, req, plan);
    SmoothStage(m0, req);
    StageStops(m0, req, plan);
    var r1, r01 := StagePhase(Res(m0, plan, Done), req), StagePhase(Res(m0, [], Done), req);
    BackupInStep(dg, r1, r01, plan, 2);
    SmoothBackup(dg, r01);
    UndoableSame(m0, r1.m);
    assert At(r1.m.disk.trees, m0.tx.Dest()) == At(m0.disk.trees, m0.tx.Dest());
    BackupStops(dg, m0, r1, req.tree);
    var r2 := BackupPhase(dg, r1);
    assert r2.end.Done? && r2.plan == [CRASH];
    CrashedInstall(dg, r2, req);
    BackupJournals(dg, r1);
    UndoableSame(m0, r2.m);
    StageIdempotency(m0, req, plan);
  }

  lemma {:induction false} StageIdempotency(m0: Machine, req: Request, plan: seq<Fault>)
    ensures StagePhase(Res(m0, plan, Done), req).m.disk.idempotency == m0.disk.idempotency
  {
    hide Then;
    var r, s := Res(m0, plan, Done), Build(m0.tx.stage, req.tree);
    ThenIdempotency(r, s);
    ThenIdempotency(Then(r, s), Commit(m0.tx.(status := Staged)));
  }

  lemma {:induction false} ThenIdempotency(r: Res, s: Step)
    requires !s.WriteIdempotency?
    ensures Then(r, s).m.disk.idempotency == r.m.disk.idempotency
  {
    var partial := ThenCases(r, s);
    ThenDone(r, s);
    hide Then;
  }

  lemma {:induction false} CrashedInstall(dg: Digests, r: Res, req: Request)
    requires r.end.Done? && r.plan == [CRASH]
    ensures FinishPhase(RegistryPhase(dg, InstallPhase(dg, r), req)) == Res(r.m, [], Crashed)
  {
    var r' := InstallPhase(dg, r);
    assert r' == Res(r.m, [], Crashed);
    StoppedPhases(dg, r', req);
  }

  lemma {:induction false} BackupJournals(dg: Digests, r: Res)
    ensures var r' := BackupPhase(dg, r);
            r'.end.Done? ==> && r'.m.tx.key in r'.m.disk.journal && r'.m.disk.journal[r'.m.tx.key] == r'.m.tx
                             && r'.m.disk.idempotency == r.m.disk.idempotency
  {
    hide Then;
    var tx := r.m.tx;
    var s1, s2 := Move(tx.Dest(), tx.Backup()), Hash(tx.Backup());
    ThenIdempotency(r, s1);
    var r1 := Then(r, s1);
    ThenIdempotency(r1, s2);
    var r2 := Then(r1, s2);
    var s3 := Commit(tx.(backupDigest := DigestAt(dg, r2.m.disk.trees, tx.Backup()), status := BackupCreated));
    ThenIdempotency(r2, s3);
    ThenDone(r2, s3);
    ThenDone(r1, s2);
    ThenDone(r, s1);
  }

  lemma {:induction false} CrashedFirstCall(dg: Digests, d: Disk, req: Request)
    requires Begins(dg, d, req) && HasId(d.registry.brains, req.brain) && Dest(req.brain) in d.trees
    ensures var d1 := Apply(dg, d, req, Faultless(7) + [CRASH]).disk;
            && req.key in d1.journal && req.key !in d1.idempotency
            && var tx := d1.journal[req.key];
               && WellFormed(tx) && tx.existed && tx.status == BackupCreated && tx.key == req.key
               && tx.fingerprint == req.Fingerprint() && tx.Dest() == Dest(req.brain)
               && tx.Backup() in d1.trees && At(d1.trees, tx.Backup()) == At(d.trees, Dest(req.brain))
  {
    hide Apply, ApplyBlock, Admits, Opened;
    OpenedFacts(d, req);
    OpenedNames(d, req);
    OpenedShape(d, req);
    var m0 := OpenedForBlock(dg, d, req, 5, [CRASH]);
    CrashAfterBackup(dg, m0, req);
  }

  lemma {:induction false} RecoveringCall(dg: Digests, d: Disk, req: Request, plan: seq<Fault>)
    requires ReplayOf(d, req).Recover? && req.key in d.journal
    requires Undo(Machine(d, d.journal[req.key]), plan).end.Crashed?
    ensures Apply(dg, d, req, plan).disk == Undo(Machine(d, d.journal[req.key]), plan).m.disk
  {
    hide Undo, ReplayOf, Attempt;
  }

  lemma {:induction false} InterruptedRecovers(d: Disk, req: Request)
    requires req.key in d.journal && req.key !in d.idempotency
    requires d.journal[req.key].fingerprint == req.Fingerprint() && d.journal[req.key].status == BackupCreated
    ensures ReplayOf(d, req) == Recover
  {
  }

  /** A run that ends so, from any disk with a registered brain: the first request dies after its
      backup was journaled, its replay dies after the backup was moved back, and every later
      replay is in vain, with the old tree at its destination. */
  lemma {:induction false} StrandedRun(dg: Digests, d: Disk, req: Request) returns (d2: Disk)
    requires Begins(dg, d, req) && HasId(d.registry.brains, req.brain) && Dest(req.brain) in d.trees
    ensures exists first, second :: d2 == Apply(dg, Apply(dg, d, req, first).disk, req, second).disk
    ensures At(d2.trees, Dest(req.brain)) == At(d.trees, Dest(req.brain))
    ensures forall plan :: Apply(dg, d2, req, plan).disk == d2 && !Apply(dg, d2, req, plan).reply.Replied?
  {
    hide Apply, Undo, ReplayOf, Begins, Refuses;
    var d1 := Apply(dg, d, req, Faultless(7) + [CRASH]).disk;
    CrashedFirstCall(dg, d, req);
    var tx := d1.journal[req.key];
    RecoveryCanStrand(d1, tx, At(d.trees, Dest(req.brain)));
    InterruptedRecovers(d1, req);
    RecoveringCall(dg, d1, req, StrandingPlan(d1, tx));
    d2 := Undo(Machine(d1, tx), StrandingPlan(d1, tx)).m.disk;
    InterruptedRecovers(d2, req);
    forall plan ensures Apply(dg, d2, req, plan).disk == d2 && !Apply(dg, d2, req, plan).reply.Replied? {
      StrandedForever(dg, d2, req, plan);
    }
  }
}
