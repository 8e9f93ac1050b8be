/** Which calls bring a key to an end, and public rollbacks that none does: those that stop after
    their first journal write. */
module RestoreStuck {
  import opened Wrappers
  import opened BrainRegistry
  import opened RestoreDisk
  import opened RestoreApply
  import opened RestoreSafety
  import opened RestoreRollback
  import opened RestoreCalls
  import opened RestoreRuns
  import opened RestoreReplay
  import opened RestoreCrash
  import opened RestoreStack
  import opened RestoreWitness

  // ----- What closes a key

  /** Replaying an interrupted key without faults closes it, by an answer or by undoing it, unless
      a recovery that died had moved its backup back already. */
  lemma {:induction false} ReplayClosesIff(dg: Digests, d: Disk, origins: Origins, req: Request)
    requires World(d, origins) && req.key in d.journal && InFlight(d.journal[req.key].status)
    requires req.Fingerprint() == d.journal[req.key].fingerprint
    ensures var tx, d' := d.journal[req.key], Apply(dg, d, req, []).disk;
            && req.key in d'.journal
            && (!Closed(d', req.key) <==>
                req.key !in d.idempotency && tx.existed && tx.Backup() !in d.trees
                && tx.status in {BackupCreated, DestinationInstalled, RegistryCommitted})
  {
    InterruptedKeyRecoversIff(dg, d, origins, req);
    hide Apply, Attempt, Undo, ReplayOf, World, Closed;
    if Recovered(d, req).Some? {
      RecoveredStatus(d, origins, req);
      AttemptCloses(dg, Recovered(d, req).value, req);
    } else {
      UnrecoveredClosed(d, req.key);
    }
  }

  lemma {:induction false} UnrecoveredClosed(d: Disk, key: string)
    requires key in d.journal && InFlight(d.journal[key].status)
    ensures Closed(d, key) <==> key in d.idempotency
  {
  }

  lemma {:induction false} RecoveredStatus(d: Disk, origins: Origins, req: Request)
    requires World(d, origins) && req.key in d.journal && InFlight(d.journal[req.key].status)
    requires Recovered(d, req).Some?
    ensures var r := Recovered(d, req).value;
            && req.key !in r.idempotency
            && req.key in r.journal && r.journal[req.key].status == ApplyRolledBack
  {
    RecoversIff(d, origins, req);
    RecordOf(d, origins, req.key);
    UndoStops(origins[req.key], Machine(d, d.journal[req.key]), []);
    hide Undo, ReplayOf;
  }

  lemma {:induction false} AttemptCloses(dg: Digests, d: Disk, req: Request)
    requires req.key in d.journal && req.key !in d.idempotency && d.journal[req.key].status == ApplyRolledBack
    ensures var d' := Attempt(dg, d, req, []).disk;
            req.key in d'.journal && Closed(d', req.key)
  {
    AttemptStops(dg, d, req, []);
    UnansweredAttempt(dg, d, req, []);
    OpenedShape(d, req);
    hide Attempt, AttemptDisk, Opened;
  }

  lemma {:induction false} RecordOf(d: Disk, origins: Origins, key: string)
    requires World(d, origins) && key in d.journal
    ensures Journaled(d, key, origins)
  {
  }

  // ----- A rollback that stops

  /** A rollback of the restore began and neither finished nor was reverted. */
  predicate Pends(status: Status) {
    status == RollbackPending || status == RollbackRecoveryRequired
  }

  /** The places that calls on the restore's key may touch. */
  predicate Own(p: Place, tx: Transaction) {
    p == tx.Dest() || p == tx.Backup() || Scratch(p, tx.key)
  }

  // ----- The pending key in runs

  /** A call on the key itself, or a disciplined call on another one, leaves the record of a pending
      key and every place of it as they are. */
  lemma {:induction false} PendingStays(dg: Digests, d: Disk, origins: Origins, tx: Transaction, e: Event)
    requires World(d, origins) && Disciplined(d, e) && Recorded(d, tx) && Pends(tx.status)
    ensures forall p: Place :: Own(p, tx) ==> At(Do(dg, d, e).trees, p) == At(d.trees, p)
  {
    assert !Closed(d, tx.key);
    if KeyOf(e) == tx.key {
      match e {
        case ApplyCall(req, plan) => RecordedReplay(dg, d, tx, req, plan);
        case RollbackCall(req, plan) => RollbackTouchesKey(dg, d, origins, req, plan);
      }
    } else {
      assert WellFormed(tx);
      hide Apply, Rollback, World, Recorded, Closed, TouchesOnly, Own;
      match e {
        case ApplyCall(req, plan) =>
          ApplyPlaces(dg, d, origins, req, plan);
          Elsewhere(d.trees, Do(dg, d, e).trees, req.brain, req.Id(), tx);
        case RollbackCall(req, plan) => if req.key in d.journal {
          RecordOf(d, origins, req.key);
          RollbackPlaces(dg, d, origins, req, plan);
          var receipt := d.journal[req.key].receipt;
          Elsewhere(d.trees, Do(dg, d, e).trees, receipt.brain, receipt.id, tx);
        } else {
          UnknownRefused(dg, d, req, plan);
        }
      }
    }
  }

  lemma {:induction false} Elsewhere(before: Trees, after: Trees, brain: string, id: ReceiptId, tx: Transaction)
    requires TouchesOnly(before, after, brain, id) && WellFormed(tx) && id.key != tx.key && brain != tx.receipt.brain
    ensures forall p: Place :: Own(p, tx) ==> At(after, p) == At(before, p)
  {
  }

  lemma {:induction false} UnknownRefused(dg: Digests, d: Disk, req: RollbackRequest, plan: seq<Fault>)
    requires req.key !in d.journal
    ensures Rollback(dg, d, req, plan).disk == d
  {
  }

  lemma {:induction false} PendingStaysAll(dg: Digests, d: Disk, origins: Origins, tx: Transaction, events: seq<Event>)
    requires World(d, origins) && DisciplinedRun(dg, d, events) && Recorded(d, tx) && Pends(tx.status)
    ensures var d' := DoAll(dg, d, events);
            && Recorded(d', tx) && World(d', OriginsAfterAll(dg, d, origins, events))
            && forall p: Place :: Own(p, tx) ==> At(d'.trees, p) == At(d.trees, p)
    decreases |events|
  {
    hide Recorded, Do, World, Disciplined, OriginsAfter, Own;
    if events != [] {
      var e := events[0];
      RecordStays(dg, d, origins, tx, e);
      EventKeepsWorld(dg, d, origins, e);
      PendingStays(dg, d, origins, tx, e);
      PendingStaysAll(dg, Do(dg, d, e), OriginsAfter(dg, d, origins, e), tx, events[1..]);
    }
  }

  /** Once a rollback of a key is pending, or known to need recovery, that is for good. After any
      disciplined run the journal record is the same and so is every place of the key; each apply
      request with the key is refused and changes nothing; and no rollback request for it, with an
      old rollback key or a new one, is answered or moves a tree. */
  lemma {:induction false} PendingForGood(dg: Digests, d: Disk, origins: Origins, key: string, events: seq<Event>)
    requires World(d, origins) && DisciplinedRun(dg, d, events)
    requires key in d.journal && Pends(d.journal[key].status)
    ensures var d', tx := DoAll(dg, d, events), d.journal[key];
            && key in d'.journal && d'.journal[key] == tx
            && (forall p: Place :: Own(p, tx) ==> At(d'.trees, p) == At(d.trees, p))
            && (forall req: Request, plan :: req.key == key ==>
                  Apply(dg, d', req, plan).disk == d' && Apply(dg, d', req, plan).reply.Refused?)
            && (forall rb: RollbackRequest, plan :: rb.key == key ==>
                  && !Rollback(dg, d', rb, plan).reply.Replied?
                  && Rollback(dg, d', rb, plan).disk.trees == d'.trees
                  && Rollback(dg, d', rb, plan).disk.journal == d'.journal)
  {
    var tx, d' := d.journal[key], DoAll(dg, d, events);
    RecordOf(d, origins, key);
    PendingStaysAll(dg, d, origins, tx, events);
    var origins' := OriginsAfterAll(dg, d, origins, events);
    hide Apply, Rollback, World, DoAll, DisciplinedRun, OriginsAfterAll;
    forall req: Request, plan | req.key == key
      ensures Apply(dg, d', req, plan).disk == d' && Apply(dg, d', req, plan).reply.Refused?
    {
      RecordedReplay(dg, d', tx, req, plan);
    }
    forall rb: RollbackRequest, plan | rb.key == key
      ensures var call := Rollback(dg, d', rb, plan);
              !call.reply.Replied? && call.disk.trees == d'.trees && call.disk.journal == d'.journal
    {
      RollbackTouchesKey(dg, d', origins', rb, plan);
      PendingNeverAnswers(dg, d', rb, plan);
    }
  }

  lemma {:induction false} PendingNeverAnswers(dg: Digests, d: Disk, rb: RollbackRequest, plan: seq<Fault>)
    requires rb.key in d.journal && Pends(d.journal[rb.key].status)
    ensures !Rollback(dg, d, rb, plan).reply.Replied?
  {
    hide RollbackAccepted;
  }

  // ----- A run that ends so

  /** An accepted rollback that dies after it moved the installed tree aside: it is pending, and
      there is no tree at the destination. */
  lemma {:induction false} DiesAside(dg: Digests, d: Disk, rb: RollbackRequest)
    requires Acceptable(dg, d, rb)
    ensures var d1, tx := Rollback(dg, d, rb, [NoFault, NoFault, CRASH]).disk, d.journal[rb.key];
            && rb.key in d1.journal && d1.journal[rb.key] == PendingOf(tx)
            && tx.Dest() !in d1.trees && At(d1.trees, tx.Backup()) == At(d.trees, tx.Backup())
            && At(d1.trees, rb.Stage()) == At(d.trees, tx.Dest())
  {
    var tx, m0 := d.journal[rb.key], PendingMachine(d, rb);
    var receipt := RollbackReceipt(rb.Id(), tx.receipt.brain, BackupDigest(dg, d, tx));
    var o := Then(Res(Machine(d, tx), [NoFault, NoFault, CRASH], Done), Commit(PendingOf(tx)));
    assert o == Res(m0, [NoFault, CRASH], Done);
    BlockDiesAside(dg, m0, rb, receipt);
    hide RollbackBlock, RollbackObjection;
  }

  lemma {:induction false} BlockDiesAside(dg: Digests, m0: Machine, rb: RollbackRequest, receipt: RollbackReceipt)
    requires m0.tx.Dest() in m0.disk.trees && rb.Stage() !in m0.disk.trees
    ensures var r := RollbackBlock(dg, m0, rb, receipt, [NoFault, CRASH]);
            var tree := m0.disk.trees[m0.tx.Dest()];
            && r.end.Crashed?
            && r.m.disk == m0.disk.(trees := (m0.disk.trees - {m0.tx.Dest()})[rb.Stage() := tree])
  {
    var r := Then(Res(m0, [NoFault, CRASH], Done), Move(m0.tx.Dest(), rb.Stage()));
    assert r.end.Done? && r.plan == [CRASH];
    var r' := Then(r, Commit(m0.tx.(phase := DestinationRetained)));
    assert r'.end.Crashed? && r'.m.disk == r.m.disk;
    assert SwapBack(dg, m0, rb, receipt.restored, [NoFault, CRASH]) == r';
  }

  /** From any safe disk on which a rollback is accepted there is a run to a brain with no tree: the
      rollback dies, and after any disciplined run its destination is still empty and no call on
      its key has an effect. */
  lemma {:induction false} RollbackCanEmpty(dg: Digests, d: Disk, origins: Origins, rb: RollbackRequest,
      events: seq<Event>)
    requires World(d, origins) && Acceptable(dg, d, rb) && Disciplined(d, RollbackCall(rb, []))
    requires DisciplinedRun(dg, Rollback(dg, d, rb, [NoFault, NoFault, CRASH]).disk, events)
    ensures var d', tx := DoAll(dg, Rollback(dg, d, rb, [NoFault, NoFault, CRASH]).disk, events), d.journal[rb.key];
            && rb.key in d'.journal && d'.journal[rb.key].status == RollbackPending
            && tx.Dest() !in d'.trees && At(d'.trees, tx.Backup()) == At(d.trees, tx.Backup())
  {
    var tx := d.journal[rb.key];
    assert Own(tx.Dest(), PendingOf(tx)) && Own(tx.Backup(), PendingOf(tx));
    hide Rollback, World, Acceptable, DoAll, DisciplinedRun;
    DiesAside(dg, d, rb);
    RollbackKeepsWorld(dg, d, origins, rb, [NoFault, NoFault, CRASH]);
    PendingForGood(dg, Rollback(dg, d, rb, [NoFault, NoFault, CRASH]).disk, origins, rb.key, events);
  }
}
