/** What replaying a key answers, after any run of other calls. */
module RestoreReplay {
  import opened Wrappers
  import opened BrainRegistry
  import opened RestoreDisk
  import opened RestoreApply
  import opened RestoreAdmission
  import opened RestoreSafety
  import opened RestoreRollback
  import opened RestoreCalls
  import opened RestoreRuns
  import opened RestorePlan

  function KeyOf(e: Event): string {
    match e
    case ApplyCall(req, _) => req.key
    case RollbackCall(req, _) => req.key
  }

  lemma {:induction false} TouchesCompose(a: Disk, b: Disk, c: Disk, key: string)
    requires TouchesKey(a, b, key) && TouchesKey(b, c, key)
    ensures TouchesKey(a, c, key)
  {
  }

  lemma {:induction false} ApplyTouchesKey(dg: Digests, d: Disk, origins: Origins, req: Request, plan: seq<Fault>)
    requires World(d, origins) && Alone(d, req.key, req.brain)
    ensures TouchesKey(d, Apply(dg, d, req, plan).disk, req.key)
  {
    hide Apply, Attempt, Undo, ReplayOf;
    ReplayInWorld(d, origins, req);
    ApplyCases(dg, d, origins, req, plan);
    match ReplayOf(d, req)
    case Reject(_) =>
    case Answer(_) =>
    case RepairReceipt(_) => assert false;
    case RepairBoth(_) => assert false;
    case Fresh => AttemptTouchesKey(dg, d, req, plan);
    case Recover => RecoveryTouchesKey(dg, d, origins, req, plan);
  }

  lemma {:induction false} RecoveryTouchesKey(dg: Digests, d: Disk, origins: Origins, req: Request, plan: seq<Fault>)
    requires World(d, origins) && ReplayOf(d, req).Recover?
    ensures TouchesKey(d, Apply(dg, d, req, plan).disk, req.key)
  {
    hide Apply, Attempt, Undo, ReplayOf;
    ReplayInWorld(d, origins, req);
    ApplyCases(dg, d, origins, req, plan);
    assert Journaled(d, req.key, origins);
    var tx := d.journal[req.key];
    var u := Undo(Machine(d, tx), plan);
    var found := if tx.status == ApplyRolledBack then At(d.trees, tx.Dest()) else origins[req.key];
    UndoStops(found, Machine(d, tx), plan);
    JournalTouch(d, u.m.disk, tx);
    if u.end.Done? {
      AttemptTouchesKey(dg, u.m.disk, req, u.plan);
      TouchesCompose(d, u.m.disk, Attempt(dg, u.m.disk, req, u.plan).disk, req.key);
    }
  }

  lemma {:induction false} AttemptTouchesKey(dg: Digests, d: Disk, req: Request, plan: seq<Fault>)
    requires req.key !in d.idempotency
    ensures TouchesKey(d, Attempt(dg, d, req, plan).disk, req.key)
  {
    AttemptStops(dg, d, req, plan);
    OwnFilesTouch(d, Attempt(dg, d, req, plan).disk, Opened(req, d));
  }

  lemma {:induction false} RollbackTouchesKey(dg: Digests, d: Disk, origins: Origins, req: RollbackRequest,
      plan: seq<Fault>)
    requires World(d, origins)
    ensures TouchesKey(d, Rollback(dg, d, req, plan).disk, req.key)
    ensures Rollback(dg, d, req, plan).disk.receipts == d.receipts
    ensures Rollback(dg, d, req, plan).disk.idempotency == d.idempotency
    ensures req.key in d.journal && d.journal[req.key].status != Applied ==>
        Rollback(dg, d, req, plan).disk == d.(rollbackReceipts := Rollback(dg, d, req, plan).disk.rollbackReceipts)
  {
    if req.key in d.journal {
      var tx := d.journal[req.key];
      assert Journaled(d, req.key, origins);
      if req.rollbackKey in d.rollbackIdempotency {
        ReplayTouchesNothing(d, tx, req, plan);
      } else if RollbackObjection(dg, d, tx, req).None? {
        RollbackStops(dg, d, req, plan);
      }
    }
  }

  /** A key with its idempotency record and receipt on disk. */
  predicate Recorded(d: Disk, tx: Transaction) {
    tx.key in d.journal && d.journal[tx.key] == tx && WellFormed(tx) && Answered(d, tx)
  }

  /** What replays of such a key are told: a rollback that began is past answering. */
  predicate Answers(status: Status) {
    status !in {RollbackPending, RolledBack, RollbackRecoveryRequired}
  }

  /** Replaying a recorded key changes no slot whatever the faults, and never recovers anything:
      the same request gets the same receipt, any other request with the key is refused, and so
      is every request once a public rollback of the restore has begun. */
  lemma {:induction false} RecordedReplay(dg: Digests, d: Disk, tx: Transaction, req: Request, plan: seq<Fault>)
    requires Recorded(d, tx) && req.key == tx.key
    ensures Apply(dg, d, req, plan).disk == d && Apply(dg, d, req, plan).plan == plan
    ensures Apply(dg, d, req, plan).reply.Replied? <==> req.Fingerprint() == tx.fingerprint && Answers(tx.status)
    ensures Apply(dg, d, req, plan).reply.Replied? ==> Apply(dg, d, req, plan).reply.value == tx.receipt
    ensures !Apply(dg, d, req, plan).reply.Replied? ==> Apply(dg, d, req, plan).reply.Refused?
  {
    assert req.Fingerprint() == tx.fingerprint ==> req.Id() == tx.receipt.id;
  }

  lemma {:induction false} RecordStays(dg: Digests, d: Disk, origins: Origins, tx: Transaction, e: Event)
    requires World(d, origins) && Disciplined(d, e) && Recorded(d, tx)
    requires tx.status != Applied || e.ApplyCall? || KeyOf(e) != tx.key
    ensures Recorded(Do(dg, d, e), tx)
  {
    var d' := Do(dg, d, e);
    if KeyOf(e) != tx.key {
      match e {
        case ApplyCall(req, plan) => ApplyTouchesKey(dg, d, origins, req, plan);
        case RollbackCall(req, plan) => RollbackTouchesKey(dg, d, origins, req, plan);
      }
      assert tx.key in d.journal - {KeyOf(e)} && tx.key in d.idempotency - {KeyOf(e)};
      assert (d'.journal - {KeyOf(e)})[tx.key] == tx && (d'.idempotency - {KeyOf(e)})[tx.key] == tx.fingerprint;
    } else {
      match e {
        case ApplyCall(req, plan) => RecordedReplay(dg, d, tx, req, plan);
        case RollbackCall(req, plan) => RollbackTouchesKey(dg, d, origins, req, plan);
      }
    }
  }

  predicate NoRollbackOf(events: seq<Event>, key: string) {
    forall i :: 0 <= i < |events| && events[i].RollbackCall? ==> events[i].rollback.key != key
  }

  lemma {:induction false} RecordStaysAll(dg: Digests, d: Disk, origins: Origins, tx: Transaction, events: seq<Event>)
    requires World(d, origins) && DisciplinedRun(dg, d, events) && Recorded(d, tx)
    requires tx.status != Applied || NoRollbackOf(events, tx.key)
    ensures Recorded(DoAll(dg, d, events), tx)
    decreases |events|
  {
    if events != [] {
      RecordStays(dg, d, origins, tx, events[0]);
      EventKeepsWorld(dg, d, origins, events[0]);
      RecordStaysAll(dg, Do(dg, d, events[0]), OriginsAfter(dg, d, origins, events[0]), tx, events[1..]);
    }
  }

  /** An applied key answers with its receipt after any run that does not roll it back. */
  lemma {:induction false} AppliedKeyAnswersForever(dg: Digests, d: Disk, origins: Origins, key: string,
      events: seq<Event>, req: Request, plan: seq<Fault>)
    requires World(d, origins) && DisciplinedRun(dg, d, events)
    requires key in d.journal && d.journal[key].status == Applied && NoRollbackOf(events, key)
    requires req.key == key
    ensures var d' := DoAll(dg, d, events);
            var call := Apply(dg, d', req, plan);
            && call.disk == d'
            && (if req.Fingerprint() == d.journal[key].fingerprint then call.reply == Replied(d.journal[key].receipt)
                else call.reply.Refused?)
  {
    assert Journaled(d, key, origins);
    RecordStaysAll(dg, d, origins, d.journal[key], events);
    RecordedReplay(dg, DoAll(dg, d, events), d.journal[key], req, plan);
  }

  /** Once publicly rolled back, a key never applies again, whatever happens after. */
  lemma {:induction false} RolledBackKeyIsSpent(dg: Digests, d: Disk, origins: Origins, key: string, events: seq<Event>,
      req: Request, plan: seq<Fault>)
    requires World(d, origins) && DisciplinedRun(dg, d, events)
    requires key in d.journal && d.journal[key].status == RolledBack
    requires req.key == key
    ensures var d' := DoAll(dg, d, events);
            var call := Apply(dg, d', req, plan);
            key in d'.journal && d'.journal[key] == d.journal[key] && call.disk == d' && call.reply.Refused?
  {
    assert Journaled(d, key, origins);
    RecordStaysAll(dg, d, origins, d.journal[key], events);
    RecordedReplay(dg, DoAll(dg, d, events), d.journal[key], req, plan);
  }

  // ----- Where replay goes wrong

  /** After an apply that failed and was undone, replaying the request reports success exactly
      when the plan let every step pass but raised at the last journal write, the one that
      follows the idempotency record; otherwise the key is tried again. The destination and the
      registry are the old ones in either case. */
  lemma {:induction false} FailedApplyReplaysAsSuccessIff(dg: Digests, m0: Machine, req: Request, plan: seq<Fault>)
    requires Ready(m0) && m0.tx.receipt.id == req.Id() && m0.tx.fingerprint == req.Fingerprint()
    requires ApplyBlock(dg, m0, req, plan).end.Raised?
    requires var r := ApplyBlock(dg, m0, req, plan); Undo(r.m, r.plan).end.Done?
    ensures var r := ApplyBlock(dg, m0, req, plan);
            var d' := Undo(r.m, r.plan).m.disk;
            && d'.trees == m0.disk.trees && d'.registry == m0.disk.registry
            && (LastWriteFails(m0, req, plan) <==> ReplayOf(d', req) == Answer(m0.tx.receipt))
            && (!LastWriteFails(m0, req, plan) <==> ReplayOf(d', req) == Recover)
  {
    hide ApplyBlock, Undo, LastWriteFails, ReplayOf;
    ApplyBlockStops(dg, m0, req, plan);
    ApplyFailureIsAtomic(dg, m0, req, plan);
    LastWriteFailsIff(dg, m0, req, plan);
    var r := ApplyBlock(dg, m0, req, plan);
    UndoStops(At(m0.disk.trees, m0.tx.Dest()), r.m, r.plan);
    ReplayOfUndone(Undo(r.m, r.plan).m.disk, m0.tx, req);
  }

  lemma {:induction false} ReplayOfUndone(d: Disk, tx: Transaction, req: Request)
    requires WellFormed(tx) && tx.fingerprint == req.Fingerprint() && tx.receipt.id == req.Id()
    requires tx.key in d.journal && d.journal[tx.key].status == ApplyRolledBack
    requires d.journal[tx.key].fingerprint == tx.fingerprint
    requires tx.key in d.idempotency ==>
               && d.idempotency[tx.key] == tx.fingerprint
               && tx.receipt.id in d.receipts && d.receipts[tx.receipt.id] == tx.receipt
    ensures tx.key in d.idempotency ==> ReplayOf(d, req) == Answer(tx.receipt)
    ensures tx.key !in d.idempotency ==> ReplayOf(d, req) == Recover
  {
  }

  function Faultless(n: nat): seq<Fault> {
    seq(n, i => NoFault)
  }

  /** Such a plan exists for every block that commits. */
  lemma {:induction false} LastWriteCanFail(dg: Digests, m0: Machine, req: Request)
    requires Ready(m0) && m0.tx.receipt.id == req.Id() && m0.tx.fingerprint == req.Fingerprint()
    requires Commits(m0.disk, m0.tx, req)
    ensures var plan := Faultless(BlockCount(m0.tx.existed, m0.tx.receipt.selected) - 1) + [Raise(None, false)];
            var r := ApplyBlock(dg, m0, req, plan);
            && LastWriteFails(m0, req, plan) && r.end.Raised? && Undo(r.m, r.plan).end.Done?
            && ReplayOf(Undo(r.m, r.plan).m.disk, req) == Answer(m0.tx.receipt)
  {
    hide ApplyBlock, Undo, Commits, Ready, ReplayOf;
    var n := BlockCount(m0.tx.existed, m0.tx.receipt.selected);
    var plan := Faultless(n - 1) + [Raise(None, false)];
    LastWriteFailsIff(dg, m0, req, plan);
    RaisedPlan(dg, m0, req, plan);
    var r := ApplyBlock(dg, m0, req, plan);
    ApplyFailureIsAtomic(dg, m0, req, plan);
    FailedApplyReplaysAsSuccessIff(dg, m0, req, plan);
  }

  lemma {:induction false} OpenInStep(req: Request, d: Disk, tx: Transaction, plan: seq<Fault>)
    requires tx.stage !in d.trees && tx.Backup() !in d.trees && Clear(plan, 2)
    ensures Open(req, d, tx, plan).end.Done? && Open(req, d, tx, plan).plan == Rest(plan, 2)
  {
    var r, r0 := Res(Machine(d, tx), plan, Done), Res(Machine(d, tx), [], Done);
    var s := Check(true, true);
    ThenInStep(r, r0, plan, 0, s, s);
    ThenInStep(Then(r, s), Then(r0, s), plan, 1, Commit(tx), Commit(tx));
  }

  /** So it is with whole calls: any first request that would commit can be told that it failed
      and was undone, and be told on replay that it was applied, with the old trees in place. */
  lemma {:induction false} FailedCallReplaysAsSuccess(dg: Digests, d: Disk, req: Request)
    requires req.key !in d.journal && req.key !in d.idempotency && WouldCommit(dg, d, req)
    requires Stage(req.Id(), req.nonce) !in d.trees
    ensures var tx := Opened(req, d);
            var plan := Faultless(1 + BlockCount(tx.existed, tx.receipt.selected)) + [Raise(None, false)];
            var failed := Apply(dg, d, req, plan);
            && failed.reply == Failed(ApplyFailedRolledBack)
            && failed.disk.trees == d.trees && failed.disk.registry == d.registry
            && Apply(dg, failed.disk, req, []) == Call(failed.disk, [], Replied(tx.receipt))
  {
    hide Apply, ApplyOrUndo, Objection, Admits, Commits, Opened, Ready;
    var tx := Opened(req, d);
    var n := BlockCount(tx.existed, tx.receipt.selected);
    var m0 := OpenedForBlock(dg, d, req, n - 1, [Raise(None, false)]);
    CommitsAfterOpen(d, m0, req);
    FailedBlockReplaysAsSuccess(dg, m0, req);
    assert d.trees - {tx.stage} == d.trees;
    AnsweredCall(dg, ApplyOrUndo(dg, m0, req, Faultless(n - 1) + [Raise(None, false)]).disk, req, tx.receipt);
  }

  /** Two steps into a first request, its block begins. */
  lemma {:induction false} OpenedForBlock(dg: Digests, d: Disk, req: Request, n: nat, faults: seq<Fault>)
      returns (m0: Machine)
    requires New(d, req) && Admits(dg, d, req)
    requires Backup(req.Id()) !in d.trees && Stage(req.Id(), req.nonce) !in d.trees
    ensures Opened(req, d).stage == Stage(req.Id(), req.nonce)
    ensures Ready(m0) && WellFormed(m0.tx) && StartsFrom(d, m0) && m0.tx == Opened(req, d)
    ensures m0.disk.registry == d.registry
    ensures m0.tx.receipt.id == req.Id() && m0.tx.fingerprint == req.Fingerprint()
    ensures Apply(dg, d, req, Faultless(n + 2) + faults) == ApplyOrUndo(dg, m0, req, Faultless(n) + faults)
  {
    hide ApplyOrUndo, Objection, Admits, Open, Opened, Ready;
    AdmitsIff(dg, d, req);
    OpenedOpensOn(dg, d, req);
    OpenedNames(d, req);
    var tx, plan := Opened(req, d), Faultless(n + 2) + faults;
    OpenEnds(d, req, tx, plan);
    OpenInStep(req, d, tx, plan);
    m0 := Open(req, d, tx, plan).m;
    assert Open(req, d, tx, plan).plan == Faultless(n) + faults;
  }

  lemma {:induction false} AnsweredCall(dg: Digests, d: Disk, req: Request, receipt: Receipt)
    requires ReplayOf(d, req) == Answer(receipt)
    ensures Apply(dg, d, req, []) == Call(d, [], Replied(receipt))
  {
    hide ReplayOf, Attempt, Undo;
  }

  lemma {:induction false} FailedBlockReplaysAsSuccess(dg: Digests, m0: Machine, req: Request)
    requires Ready(m0) && m0.tx.receipt.id == req.Id() && m0.tx.fingerprint == req.Fingerprint()
    requires Commits(m0.disk, m0.tx, req)
    ensures var plan := Faultless(BlockCount(m0.tx.existed, m0.tx.receipt.selected) - 1) + [Raise(None, false)];
            var failed := ApplyOrUndo(dg, m0, req, plan);
            && failed.reply == Failed(ApplyFailedRolledBack)
            && failed.disk.trees == m0.disk.trees && failed.disk.registry == m0.disk.registry
            && ReplayOf(failed.disk, req) == Answer(m0.tx.receipt)
  {
    hide ApplyBlock, Undo, Commits, Ready, ReplayOf;
    var plan := Faultless(BlockCount(m0.tx.existed, m0.tx.receipt.selected) - 1) + [Raise(None, false)];
    LastWriteCanFail(dg, m0, req);
    RaisedPlan(dg, m0, req, plan);
    ApplyFailureIsAtomic(dg, m0, req, plan);
  }

  lemma {:induction false} OpenedNames(d: Disk, req: Request)
    ensures var tx := Opened(req, d);
            tx.stage == Stage(req.Id(), req.nonce) && tx.fingerprint == req.Fingerprint() && tx.receipt.id == req.Id()
  {
  }

  // ----- What a replay recovers

  /** The disk a fault-free replay's recovery leaves, if the replay runs one and it finishes. */
  function Recovered(d: Disk, req: Request): Option<Disk> {
    if ReplayOf(d, req).Recover? && req.key in d.journal then
      var u := Undo(Machine(d, d.journal[req.key]), []);
      if u.end.Done? then Some(u.m.disk) else None
    else None
  }

  /** A replay that recovers goes on with a new attempt from there. */
  lemma {:induction false} RecoveredThenAttempts(dg: Digests, d: Disk, req: Request)
    requires Recovered(d, req).Some?
    ensures Apply(dg, d, req, []).disk == Attempt(dg, Recovered(d, req).value, req, []).disk
  {
    hide ReplayOf, Attempt;
    UndoUsesNoPlan(Machine(d, d.journal[req.key]));
    hide Undo;
  }

  lemma {:induction false} UndoUsesNoPlan(m: Machine)
    ensures Undo(m, []).plan == []
  {
  }

  /** Unless the replay recovers, it changes nothing, under any plan: it is answered if the request
      matches and is recorded, and otherwise it is not. */
  lemma {:induction false} UnrecoveredChangesNothing(dg: Digests, d: Disk, origins: Origins, req: Request,
      plan: seq<Fault>)
    requires World(d, origins) && req.key in d.journal
    requires InFlight(d.journal[req.key].status) || d.journal[req.key].status == ApplyRolledBack
    requires ReplayOf(d, req).Recover? ==> Refuses(d, d.journal[req.key])
    ensures Apply(dg, d, req, plan).disk == d
    ensures var tx := d.journal[req.key];
            if req.Fingerprint() == tx.fingerprint && req.key in d.idempotency
            then Apply(dg, d, req, plan) == Call(d, plan, Replied(tx.receipt))
            else !Apply(dg, d, req, plan).reply.Replied?
  {
    var tx := d.journal[req.key];
    assert Journaled(d, req.key, origins);
    if req.key in d.idempotency {
      RecordedReplay(dg, d, tx, req, plan);
    } else if req.Fingerprint() == tx.fingerprint {
      RefusedUndo(d, tx, plan);
      hide Undo, Attempt;
    }
  }

  lemma {:induction false} RefusedUndo(d: Disk, tx: Transaction, plan: seq<Fault>)
    requires Refuses(d, tx)
    ensures Undo(Machine(d, tx), plan).m.disk == d && !Undo(Machine(d, tx), plan).end.Done?
  {
  }

  lemma {:induction false} RecoversIff(d: Disk, origins: Origins, req: Request)
    requires World(d, origins) && req.key in d.journal
    requires InFlight(d.journal[req.key].status) || d.journal[req.key].status == ApplyRolledBack
    ensures ReplayOf(d, req).Recover?
        <==> req.Fingerprint() == d.journal[req.key].fingerprint && req.key !in d.idempotency
  {
    assert Journaled(d, req.key, origins);
  }

  /** A replay recovers a settled failed key exactly when it matches and the key has no idempotency
      record. It then rewrites the destination only when the key's restore was new to the disk and
      something has appeared there since: it removes it. And it writes the registry that restore
      found, so it changes the registry whenever that is not the present one. Any other replay
      changes nothing. */
  lemma {:induction false} SettledReplayDisturbsIff(dg: Digests, d: Disk, origins: Origins, req: Request)
    requires World(d, origins) && req.key in d.journal && d.journal[req.key].status == ApplyRolledBack
    ensures var tx, r := d.journal[req.key], Recovered(d, req);
            var after := if r.Some? then r.value else d;
            && (r.Some? <==> req.Fingerprint() == tx.fingerprint && req.key !in d.idempotency)
            && (At(after.trees, tx.Dest()) == At(d.trees, tx.Dest())
                <==> (r.Some? ==> tx.existed || tx.Dest() !in d.trees))
            && (r.Some? && !tx.existed ==> tx.Dest() !in after.trees)
            && (after.registry == d.registry <==> (r.Some? ==> d.registry == tx.originalRegistry))
            && (r.Some? ==> Apply(dg, d, req, []).disk == Attempt(dg, after, req, []).disk)
            && (r.None? ==> forall plan :: Apply(dg, d, req, plan).disk == d)
            && (r.None? && req.Fingerprint() == tx.fingerprint ==>
                forall plan :: Apply(dg, d, req, plan) == Call(d, plan, Replied(tx.receipt)))
  {
    var tx := d.journal[req.key];
    assert Journaled(d, req.key, origins);
    RecoversIff(d, origins, req);
    UndoFinishesIff(Machine(d, tx));
    UndoStops(At(d.trees, tx.Dest()), Machine(d, tx), []);
    hide Undo, ReplayOf, Apply, Attempt, World;
    if Recovered(d, req).Some? {
      RecoveredThenAttempts(dg, d, req);
    } else {
      forall plan
        ensures Apply(dg, d, req, plan).disk == d
        ensures req.Fingerprint() == tx.fingerprint ==> Apply(dg, d, req, plan) == Call(d, plan, Replied(tx.receipt))
      {
        UnrecoveredChangesNothing(dg, d, origins, req, plan);
      }
    }
  }

  /** A replay recovers an interrupted key exactly when it matches, the key has no idempotency
      record, and the backup was not already moved back under a status that needs it. It then puts
      back the tree and the registry the restore found. Any other replay changes nothing, whatever
      the faults: a recorded key answers its request as if it were applied, and a key whose backup
      was moved back stays as it is, with the tree it found at its destination. */
  lemma {:induction false} InterruptedKeyRecoversIff(dg: Digests, d: Disk, origins: Origins, req: Request)
    requires World(d, origins) && req.key in d.journal && InFlight(d.journal[req.key].status)
    ensures var tx, r := d.journal[req.key], Recovered(d, req);
            var matches := req.Fingerprint() == tx.fingerprint;
            var stranded := tx.existed && tx.Backup() !in d.trees
                            && tx.status in {BackupCreated, DestinationInstalled, RegistryCommitted};
            && (r.Some? <==> matches && req.key !in d.idempotency && !stranded)
            && (r.Some? ==> tx.Backup() !in r.value.trees && r.value.registry == tx.originalRegistry
                            && At(r.value.trees, tx.Dest()) == (if tx.existed then origins[req.key] else None)
                            && Apply(dg, d, req, []).disk == Attempt(dg, r.value, req, []).disk)
            && (r.None? ==> forall plan :: Apply(dg, d, req, plan).disk == d)
            && (matches && req.key in d.idempotency ==>
                forall plan :: Apply(dg, d, req, plan) == Call(d, plan, Replied(tx.receipt)))
            && (req.key !in d.idempotency && stranded ==> At(d.trees, tx.Dest()) == origins[req.key])
  {
    var tx := d.journal[req.key];
    assert Journaled(d, req.key, origins);
    RecoversIff(d, origins, req);
    UndoFinishesIff(Machine(d, tx));
    if req.key !in d.idempotency { UndoStops(origins[req.key], Machine(d, tx), []); }
    hide Undo, ReplayOf, Apply, Attempt, World;
    if Recovered(d, req).Some? {
      RecoveredThenAttempts(dg, d, req);
    } else {
      forall plan
        ensures Apply(dg, d, req, plan).disk == d
        ensures req.Fingerprint() == tx.fingerprint && req.key in d.idempotency ==>
                  Apply(dg, d, req, plan) == Call(d, plan, Replied(tx.receipt))
      {
        UnrecoveredChangesNothing(dg, d, origins, req, plan);
      }
    }
  }
}
