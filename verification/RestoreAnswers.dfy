/** What callers are told: which rollbacks are refused, what an answered one tells, and that asking
    again for what was done gives the same answer for good. */
module RestoreAnswers {
  import opened Wrappers
  import opened BrainRegistry
  import opened RestoreDisk
  import opened RestoreApply
  import opened RestoreAdmission
  import opened RestoreSafety
  import opened RestoreRollback
  import opened RestoreCalls
  import opened RestoreRuns
  import opened RestoreReplay
  import opened RestoreStack
  import opened RestoreWitness

  // ----- Which rollbacks are admitted

  /** The restore is applied over an existing brain, and nothing it left has changed since: tree,
      backup and registry still have the digests recorded then, and the client names that tree. */
  predicate RollbackAdmits(dg: Digests, d: Disk, req: RollbackRequest) {
    && req.key in d.journal
    && var tx := d.journal[req.key];
       && tx.status == Applied && tx.existed && tx.appliedDigest == Some(req.expectedDestination)
       && DigestAt(dg, d.trees, Dest(tx.receipt.brain)) == Some(req.expectedDestination)
       && Backup(tx.receipt.id) in d.trees
       && (tx.backupDigest.Some? ==> DigestAt(dg, d.trees, Backup(tx.receipt.id)) == tx.backupDigest)
       && tx.appliedRegistry.Some? && tx.appliedRegistryDigest == Some(dg.registry(d.registry))
       && RollbackStage(RollbackId(req.key, req.rollbackKey)) !in d.trees
  }

  /** A rollback under a new rollback key that changes anything or is answered had to be admitted;
      one that is admitted is never refused, and without faults it is answered. */
  lemma {:induction false} RollsBackOnlyIfAdmitted(dg: Digests, d: Disk, origins: Origins, req: RollbackRequest,
      plan: seq<Fault>)
    requires World(d, origins) && req.rollbackKey !in d.rollbackIdempotency
    ensures var call := Rollback(dg, d, req, plan);
            && (call.disk != d || call.reply.Replied? ==> RollbackAdmits(dg, d, req))
            && (call.reply.Refused? <==> !RollbackAdmits(dg, d, req))
            && (plan == [] ==> (call.reply.Replied? <==> RollbackAdmits(dg, d, req)))
  {
    hide RollbackAccepted, RollbackObjection, RollbackAdmits, RollbackOutcome;
    if req.key in d.journal {
      assert Journaled(d, req.key, origins);
      RollbackAdmitsIff(dg, d, req);
      if RollbackAdmits(dg, d, req) { AnsweredRollback(dg, d, req, plan); }
    } else {
      UnknownIsNotAdmitted(dg, d, req);
    }
  }

  lemma {:induction false} UnknownIsNotAdmitted(dg: Digests, d: Disk, req: RollbackRequest)
    requires req.key !in d.journal
    ensures !RollbackAdmits(dg, d, req)
  {
  }

  lemma {:induction false} RollbackAdmitsIff(dg: Digests, d: Disk, req: RollbackRequest)
    requires req.key in d.journal
    ensures RollbackObjection(dg, d, d.journal[req.key], req).None? <==> RollbackAdmits(dg, d, req)
  {
  }

  function NotRolledBack(d: Disk, plan: seq<Fault>, code: string): Call<RollbackReceipt> {
    Call(d, plan, Refused(code))
  }

  /** Each missing condition has its own refusal; the first missing one decides. */
  lemma {:induction false} RollbackRefusals(dg: Digests, d: Disk, req: RollbackRequest, plan: seq<Fault>)
    requires req.rollbackKey !in d.rollbackIdempotency
    ensures var call := Rollback(dg, d, req, plan);
            if req.key !in d.journal then call == NotRolledBack(d, plan, "transaction_not_found")
            else
              var tx := d.journal[req.key];
              match tx.status
              case RolledBack => call == NotRolledBack(d, plan, "transaction_already_rolled_back")
              case RollbackPending => call == NotRolledBack(d, plan, "rollback_recovery_required")
              case Applied => AppliedRefusals(dg, d, tx, req, call, plan)
              case _ => call == NotRolledBack(d, plan, "transaction_not_applied")
  {
    hide RollbackAccepted;
    if req.key in d.journal && d.journal[req.key].Backup() in d.trees {
      AcceptedIsNotRefused(dg, d, d.journal[req.key], req, plan);
    }
  }

  lemma {:induction false} AcceptedIsNotRefused(dg: Digests, d: Disk, tx: Transaction, req: RollbackRequest,
      plan: seq<Fault>)
    requires tx.Backup() in d.trees
    ensures !RollbackAccepted(dg, d, tx, req, plan).reply.Refused?
  {
    hide RollbackOrRevert;
    var o := Then(Res(Machine(d, tx), plan, Done), Commit(PendingOf(tx)));
    StartedReplies(dg, o.m, req, RollbackReceipt(req.Id(), tx.receipt.brain, BackupDigest(dg, d, tx)), o.plan);
  }

  predicate AppliedRefusals(dg: Digests, d: Disk, tx: Transaction, req: RollbackRequest, call: Call<RollbackReceipt>,
      plan: seq<Fault>)
  {
    if tx.appliedDigest.None? then call == NotRolledBack(d, plan, "destination_integrity_unavailable")
    else if tx.appliedDigest.value != req.expectedDestination then
      call == NotRolledBack(d, plan, "expected_destination_mismatch")
    else if !tx.existed then call == NotRolledBack(d, plan, "retained_backup_required")
    else if Dest(tx.receipt.brain) !in d.trees
        || dg.tree(d.trees[Dest(tx.receipt.brain)]) != req.expectedDestination then
      call == NotRolledBack(d, plan, "destination_changed")
    else if Backup(tx.receipt.id) !in d.trees then call == NotRolledBack(d, plan, "retained_backup_missing")
    else if tx.appliedRegistry.None? || tx.appliedRegistryDigest.None? then
      call == NotRolledBack(d, plan, "registry_integrity_unavailable")
    else if tx.appliedRegistryDigest.value != dg.registry(d.registry) then
      call == NotRolledBack(d, plan, "registry_changed")
    else if tx.backupDigest.Some? && tx.backupDigest.value != dg.tree(d.trees[Backup(tx.receipt.id)]) then
      call == NotRolledBack(d, plan, "retained_backup_changed")
    else if RollbackStage(req.Id()) in d.trees then call == NotRolledBack(d, plan, "rollback_recovery_required")
    else !call.reply.Refused?
  }

  // ----- What an answered rollback tells

  /** The rollback was completed and is recorded with this receipt. */
  predicate RolledBackWith(d: Disk, req: RollbackRequest, receipt: RollbackReceipt) {
    && req.key in d.journal && d.journal[req.key].status == RolledBack
    && req.rollbackKey in d.rollbackIdempotency && d.rollbackIdempotency[req.rollbackKey] == req.Fingerprint()
    && req.Id() in d.rollbackReceipts && d.rollbackReceipts[req.Id()] == receipt
  }

  /** The old tree and registry are back, and the backup is used up. The replaced tree is gone, or
      its removal is noted as pending. */
  ghost predicate BackAgain(d: Disk, d': Disk, req: RollbackRequest)
    requires req.key in d.journal
  {
    var tx := d.journal[req.key];
    && At(d'.trees, tx.Dest()) == At(d.trees, tx.Backup()) && tx.Backup() !in d'.trees
    && d'.registry == tx.originalRegistry
    && req.key in d'.journal && (req.Stage() !in d'.trees || d'.journal[req.key].cleanupPending)
    && (forall p: Place :: p != tx.Dest() && p != tx.Backup() && p != req.Stage() ==> At(d.trees, p) == At(d'.trees, p))
    && d'.receipts == d.receipts && d'.idempotency == d.idempotency
  }

  /** The receipt of a rollback that was done just now names the brain and the digest of the tree
      that is at its destination again. */
  lemma {:induction false} RollbackTells(dg: Digests, d: Disk, req: RollbackRequest, plan: seq<Fault>)
    requires Acceptable(dg, d, req) && Rollback(dg, d, req, plan).reply.Replied?
    ensures var d', receipt := Rollback(dg, d, req, plan).disk, Rollback(dg, d, req, plan).reply.value;
            && RolledBackWith(d', req, receipt) && BackAgain(d, d', req)
            && receipt.id == RollbackId(req.key, req.rollbackKey) && receipt.brain == d.journal[req.key].receipt.brain
            && d'.journal[req.key].rollbackReceipt == Some(receipt)
            && DigestAt(dg, d'.trees, Dest(receipt.brain)) == Some(receipt.restored)
  {
    hide RollbackAccepted, RollbackOrRevert, RollbackObjection, BackAgain;
    PendingStart(dg, d, req);
    var rest := AcceptedRuns(dg, d, req, plan);
    var tx := d.journal[req.key];
    var receipt := RollbackReceipt(req.Id(), tx.receipt.brain, BackupDigest(dg, d, tx));
    BlockTells(dg, d, req, receipt, rest);
  }

  lemma {:induction false} BlockTells(dg: Digests, d: Disk, req: RollbackRequest, receipt: RollbackReceipt,
      plan: seq<Fault>)
    requires req.key in d.journal && d.journal[req.key].key == req.key
    requires Pending(PendingMachine(d, req), req) && receipt.id == req.Id()
    requires RollbackOrRevert(dg, PendingMachine(d, req), req, receipt, plan).reply.Replied?
    ensures var call := RollbackOrRevert(dg, PendingMachine(d, req), req, receipt, plan);
            && call.reply == Replied(receipt) && RolledBackWith(call.disk, req, receipt) && BackAgain(d, call.disk, req)
            && call.disk.journal[req.key].rollbackReceipt == Some(receipt)
            && DigestAt(dg, call.disk.trees, d.journal[req.key].Dest()) == Some(receipt.restored)
  {
    hide RollbackBlock, Revert, Cleanup, Revertible, Escalate, BackAgain;
    var m0 := PendingMachine(d, req);
    RollbackBlockStops(dg, m0, req, receipt, plan);
    var r := RollbackBlock(dg, m0, req, receipt, plan);
    assert r.end.Done?;
    CleanupTells(dg, d, m0, r, req, receipt);
  }

  lemma {:induction false} CleanupTells(dg: Digests, d: Disk, m0: Machine, r: Res, req: RollbackRequest,
      receipt: RollbackReceipt)
    requires req.key in d.journal && m0 == PendingMachine(d, req) && d.journal[req.key].key == req.key
    requires r.end.Done? && RolledBackDisk(m0, r.m, req, receipt) && Cleanup(r, req).end.Done?
    ensures RolledBackWith(Cleanup(r, req).m.disk, req, receipt) && BackAgain(d, Cleanup(r, req).m.disk, req)
    ensures Cleanup(r, req).m.disk.journal[req.key].rollbackReceipt == Some(receipt)
    ensures DigestAt(dg, Cleanup(r, req).m.disk.trees, m0.tx.Dest()) == DigestAt(dg, m0.disk.trees, m0.tx.Backup())
  {
    CleanupStops(r, req);
    CleanupCleans(r, req);
    hide Cleanup;
    var c := Cleanup(r, req);
    assert At(c.m.disk.trees, m0.tx.Dest()) == At(r.m.disk.trees, m0.tx.Dest());
    assert At(c.m.disk.trees, m0.tx.Backup()) == At(r.m.disk.trees, m0.tx.Backup());
    assert c.m.disk.journal[req.key].status == RolledBack;
  }

  lemma {:induction false} CleanupCleans(r: Res, req: RollbackRequest)
    requires r.end.Done? && r.m.tx.key == req.key && Cleanup(r, req).end.Done?
    ensures var d := Cleanup(r, req).m.disk;
            req.Stage() !in d.trees || (req.key in d.journal && d.journal[req.key].cleanupPending)
  {
    ThenDone(r, Remove(req.Stage()));
    var c := Then(r, Remove(req.Stage()));
    if c.end.Raised? { ThenDone(Res(c.m, c.plan, Done), Commit(c.m.tx.(cleanupPending := true))); }
  }

  // ----- Asking again

  /** An apply call touches no rollback file. */
  lemma {:induction false} ApplyKeepsRollbackFiles(dg: Digests, d: Disk, origins: Origins, req: Request,
      plan: seq<Fault>)
    requires World(d, origins)
    ensures var d' := Apply(dg, d, req, plan).disk;
            d'.rollbackReceipts == d.rollbackReceipts && d'.rollbackIdempotency == d.rollbackIdempotency
  {
    hide Apply, Attempt, Undo, ReplayOf, AttemptTrees;
    ReplayInWorld(d, origins, req);
    ApplyCases(dg, d, origins, req, plan);
    match ReplayOf(d, req)
    case Reject(_) =>
    case Answer(_) =>
    case RepairReceipt(_) => assert false;
    case RepairBoth(_) => assert false;
    case Fresh => AttemptStops(dg, d, req, plan);
    case Recover =>
      var tx := d.journal[req.key];
      assert Journaled(d, req.key, origins);
      UndoStops(if tx.status == ApplyRolledBack then At(d.trees, tx.Dest())
          else origins[req.key], Machine(d, tx), plan);
      var u := Undo(Machine(d, tx), plan);
      if u.end.Done? { AttemptStops(dg, u.m.disk, req, u.plan); }
  }

  /** A rollback call touches no other rollback's files, and under a used rollback key at most a
      missing receipt of its own. */
  lemma {:induction false} RollbackFilesTouched(dg: Digests, d: Disk, origins: Origins, req: RollbackRequest,
      plan: seq<Fault>)
    requires World(d, origins)
    ensures var d' := Rollback(dg, d, req, plan).disk;
            && d'.rollbackIdempotency - {req.rollbackKey} == d.rollbackIdempotency - {req.rollbackKey}
            && d'.rollbackReceipts - {req.Id()} == d.rollbackReceipts - {req.Id()}
            && (req.rollbackKey in d.rollbackIdempotency ==>
                  && d'.rollbackIdempotency == d.rollbackIdempotency
                  && (req.Id() in d.rollbackReceipts ==> d'.rollbackReceipts == d.rollbackReceipts))
  {
    hide RollbackAccepted, RollbackObjection, RollbackReplay, Arranged;
    if req.key in d.journal {
      var tx := d.journal[req.key];
      assert Journaled(d, req.key, origins);
      if req.rollbackKey in d.rollbackIdempotency {
        ReplayFiles(d, tx, req, plan);
      } else if RollbackObjection(dg, d, tx, req).None? {
        RollbackStops(dg, d, req, plan);
      }
    }
  }

  lemma {:induction false} ReplayFiles(d: Disk, tx: Transaction, req: RollbackRequest, plan: seq<Fault>)
    requires req.rollbackKey in d.rollbackIdempotency
    ensures var d' := RollbackReplay(d, tx, req, plan).disk;
            && d' == d.(rollbackReceipts := d'.rollbackReceipts)
            && d'.rollbackReceipts - {req.Id()} == d.rollbackReceipts - {req.Id()}
            && (req.Id() in d.rollbackReceipts ==> d' == d)
  {
    ReplayTouchesNothing(d, tx, req, plan);
    if tx.rollbackReceipt.Some? {
      var s := WriteRollbackReceipt(req.Id(), tx.rollbackReceipt.value);
      var p := ThenCases(Res(Machine(d, tx), plan, Done), s);
      ThenDone(Res(Machine(d, tx), plan, Done), s);
      ExceptUpdate(d.rollbackReceipts, req.Id(), tx.rollbackReceipt.value);
    }
  }

  lemma {:induction false} RolledBackStays(dg: Digests, d: Disk, origins: Origins, req: RollbackRequest,
      receipt: RollbackReceipt, e: Event)
    requires World(d, origins) && Disciplined(d, e) && RolledBackWith(d, req, receipt)
    ensures RolledBackWith(Do(dg, d, e), req, receipt)
  {
    hide Apply, Rollback, World, Disciplined;
    assert Journaled(d, req.key, origins) by { JournaledIn(d, origins, req.key); }
    RecordStays(dg, d, origins, d.journal[req.key], e);
    match e
    case ApplyCall(apply, plan) => ApplyKeepsRollbackFiles(dg, d, origins, apply, plan);
    case RollbackCall(other, plan) =>
      RollbackFilesTouched(dg, d, origins, other, plan);
      FilesStay(d, Do(dg, d, e), req, receipt, other);
  }

  lemma {:induction false} JournaledIn(d: Disk, origins: Origins, key: string)
    requires World(d, origins) && key in d.journal
    ensures Journaled(d, key, origins)
  {
  }

  lemma {:induction false} FilesStay(d: Disk, d': Disk, req: RollbackRequest, receipt: RollbackReceipt,
      other: RollbackRequest)
    requires RolledBackWith(d, req, receipt)
    requires req.key in d'.journal && d'.journal[req.key] == d.journal[req.key]
    requires d'.rollbackIdempotency - {other.rollbackKey} == d.rollbackIdempotency - {other.rollbackKey}
    requires d'.rollbackReceipts - {other.Id()} == d.rollbackReceipts - {other.Id()}
    requires other.rollbackKey in d.rollbackIdempotency ==>
        d'.rollbackIdempotency == d.rollbackIdempotency
        && (other.Id() in d.rollbackReceipts ==> d'.rollbackReceipts == d.rollbackReceipts)
    ensures RolledBackWith(d', req, receipt)
  {
    if other.rollbackKey != req.rollbackKey {
      assert req.rollbackKey in d.rollbackIdempotency - {other.rollbackKey};
      assert (d'.rollbackIdempotency - {other.rollbackKey})[req.rollbackKey] == d.rollbackIdempotency[req.rollbackKey];
    }
    if other.Id() != req.Id() {
      assert req.Id() in d.rollbackReceipts - {other.Id()};
      assert (d'.rollbackReceipts - {other.Id()})[req.Id()] == d.rollbackReceipts[req.Id()];
    }
  }

  lemma {:induction false} RolledBackStaysAll(dg: Digests, d: Disk, origins: Origins, req: RollbackRequest,
      receipt: RollbackReceipt, events: seq<Event>)
    requires World(d, origins) && DisciplinedRun(dg, d, events) && RolledBackWith(d, req, receipt)
    ensures RolledBackWith(DoAll(dg, d, events), req, receipt)
    decreases |events|
  {
    hide World, Disciplined, Do, RolledBackWith;
    if events != [] {
      RolledBackStays(dg, d, origins, req, receipt, events[0]);
      EventKeepsWorld(dg, d, origins, events[0]);
      RolledBackStaysAll(dg, Do(dg, d, events[0]), OriginsAfter(dg, d, origins, events[0]), req, receipt, events[1..]);
    }
  }

  /** A rollback that was answered, now or by a replay, is recorded with its answer. */
  lemma {:induction false} AnsweredIsRecorded(dg: Digests, d: Disk, origins: Origins, req: RollbackRequest,
      plan: seq<Fault>)
    requires World(d, origins) && Rollback(dg, d, req, plan).reply.Replied?
    ensures RolledBackWith(Rollback(dg, d, req, plan).disk, req, Rollback(dg, d, req, plan).reply.value)
  {
    hide RollbackAccepted, BackAgain;
    assert Journaled(d, req.key, origins);
    if req.rollbackKey !in d.rollbackIdempotency { RollbackTells(dg, d, req, plan); }
  }

  /** The same request again gets the same receipt and changes nothing; any other request under
      that rollback key, for another digest or another restore, is refused. */
  lemma {:induction false} RepeatAnswers(dg: Digests, d: Disk, req: RollbackRequest, receipt: RollbackReceipt,
      other: RollbackRequest, plan: seq<Fault>)
    requires RolledBackWith(d, req, receipt) && other.rollbackKey == req.rollbackKey
    ensures other == req ==> Rollback(dg, d, other, plan) == Call(d, plan, Replied(receipt))
    ensures other != req ==> Rollback(dg, d, other, plan).disk == d && Rollback(dg, d, other, plan).reply.Refused?
  {
  }

  /** Once a rollback was answered, and after any disciplined run, whatever the faults. */
  lemma {:induction false} RolledBackAnswersForever(dg: Digests, d: Disk, origins: Origins, req: RollbackRequest,
      first: seq<Fault>, events: seq<Event>, other: RollbackRequest, plan: seq<Fault>)
    requires World(d, origins) && Disciplined(d, RollbackCall(req, first))
    requires Rollback(dg, d, req, first).reply.Replied?
    requires DisciplinedRun(dg, Rollback(dg, d, req, first).disk, events) && other.rollbackKey == req.rollbackKey
    ensures var d' := DoAll(dg, Rollback(dg, d, req, first).disk, events);
            && (other == req ==> Rollback(dg, d', other, plan) == Call(d', plan, Rollback(dg, d, req, first).reply))
            && (other != req ==>
                Rollback(dg, d', other, plan).disk == d' && Rollback(dg, d', other, plan).reply.Refused?)
  {
    hide Rollback, World, DoAll, DisciplinedRun, RolledBackWith;
    var d1, receipt := Rollback(dg, d, req, first).disk, Rollback(dg, d, req, first).reply.value;
    AnsweredIsRecorded(dg, d, origins, req, first);
    RollbackKeepsWorld(dg, d, origins, req, first);
    RolledBackStaysAll(dg, d1, origins, req, receipt, events);
    RepeatAnswers(dg, DoAll(dg, d1, events), req, receipt, other, plan);
  }

  // ----- Replayed applies

  /** What a recorded key is told, by its status. */
  lemma {:induction false} ReplayTells(dg: Digests, d: Disk, tx: Transaction, req: Request, plan: seq<Fault>)
    requires Recorded(d, tx) && req.key == tx.key
    ensures var reply := Apply(dg, d, req, plan).reply;
            if req.Fingerprint() != tx.fingerprint then reply == Refused("idempotency_replay_mismatch")
            else match tx.status
              case RolledBack => reply == Refused("transaction_rolled_back")
              case RollbackPending => reply == Refused("recovery_required")
              case RollbackRecoveryRequired => reply == Refused("recovery_required")
              case _ => reply == Replied(tx.receipt)
  {
    assert req.Fingerprint() == tx.fingerprint ==> req.Id() == tx.receipt.id;
  }

  /** A repeated request is the same one exactly when all that it asks for is. */
  predicate SameAsked(a: Request, b: Request) {
    && a.key == b.key && a.bundle == b.bundle && a.brain == b.brain && a.overwrite == b.overwrite
        && a.select == b.select
    && a.expectedState == b.expectedState
  }

  /** A first request was answered. After any disciplined run without a rollback of it, a request
      with its key is answered, with the same receipt, exactly when it asks for the same; otherwise
      it is refused. Either way it changes nothing, whatever the faults. */
  lemma {:induction false} AnswersOnlyTheSame(dg: Digests, d: Disk, origins: Origins, first: Request,
      faults: seq<Fault>, events: seq<Event>, req: Request, plan: seq<Fault>)
    requires World(d, origins) && Disciplined(d, ApplyCall(first, faults))
    requires first.key !in d.journal && first.key !in d.idempotency && Apply(dg, d, first, faults).reply.Replied?
    requires var d1 := Apply(dg, d, first, faults).disk;
             DisciplinedRun(dg, d1, events) && NoRollbackOf(events, first.key)
    requires req.key == first.key
    ensures var d' := DoAll(dg, Apply(dg, d, first, faults).disk, events);
            && Apply(dg, d', req, plan).disk == d'
            && (SameAsked(req, first) ==> Apply(dg, d', req, plan).reply == Apply(dg, d, first, faults).reply)
            && (!SameAsked(req, first) ==> Apply(dg, d', req, plan).reply.Refused?)
  {
    hide Apply, World, DoAll, DisciplinedRun, NoRollbackOf;
    var d1, tx := Apply(dg, d, first, faults).disk, Opened(first, d);
    FirstAnswerIsRecorded(dg, d, first, faults);
    EventKeepsWorld(dg, d, origins, ApplyCall(first, faults));
    AppliedKeyAnswersForever(dg, d1, OriginsAfter(dg, d, origins, ApplyCall(first, faults)), first.key, events, req,
        plan);
    SameAskedIff(req, first);
  }

  lemma {:induction false} FirstAnswerIsRecorded(dg: Digests, d: Disk, req: Request, plan: seq<Fault>)
    requires req.key !in d.journal && req.key !in d.idempotency && Apply(dg, d, req, plan).reply.Replied?
    ensures var d1 := Apply(dg, d, req, plan).disk;
            && req.key in d1.journal && d1.journal[req.key].status == Applied
            && d1.journal[req.key].fingerprint == req.Fingerprint()
            && Apply(dg, d, req, plan).reply == Replied(d1.journal[req.key].receipt)
  {
    hide Attempt, Opened, AttemptDisk;
    FirstIsAttempt(dg, d, req, plan);
    OpenedNames(d, req);
    AttemptStops(dg, d, req, plan);
    var m0, m := AttemptCommitted(dg, d, req, plan);
  }

  lemma {:induction false} SameAskedIff(a: Request, b: Request)
    ensures a.Fingerprint() == b.Fingerprint() <==> SameAsked(a, b)
  {
  }

  // ----- Lost files

  /** Loses the receipt of a restore, its idempotency record, or both. */
  function Losing(d: Disk, tx: Transaction, receipt: bool, record: bool): Disk {
    d.(receipts := if receipt then d.receipts - {tx.receipt.id} else d.receipts,
       idempotency := if record then d.idempotency - {tx.key} else d.idempotency)
  }

  /** While the key is journaled as applied, the next fault-free replay answers all the same and
      puts back what was lost. One that meets a fault is not answered unless all was put back. */
  lemma {:induction false} LostFilesComeBack(dg: Digests, d: Disk, tx: Transaction, req: Request, receipt: bool,
      record: bool, plan: seq<Fault>)
    requires Recorded(d, tx) && tx.status == Applied && req.key == tx.key && req.Fingerprint() == tx.fingerprint
    ensures Apply(dg, Losing(d, tx, receipt, record), req, []) == Call(d, [], Replied(tx.receipt))
    ensures var call := Apply(dg, Losing(d, tx, receipt, record), req, plan);
            call.reply.Replied? ==> call.disk == d && call.reply.value == tx.receipt
  {
    var lost := Losing(d, tx, receipt, record);
    assert req.Id() == tx.receipt.id;
    assert lost.receipts[tx.receipt.id := tx.receipt] == d.receipts;
    assert lost.idempotency[tx.key := tx.fingerprint] == d.idempotency;
  }

  /** So does a lost receipt of a rollback, which the journal keeps. */
  lemma {:induction false} LostRollbackReceiptComesBack(dg: Digests, d: Disk, req: RollbackRequest,
      receipt: RollbackReceipt, plan: seq<Fault>)
    requires RolledBackWith(d, req, receipt) && d.journal[req.key].rollbackReceipt == Some(receipt)
    ensures var lost := d.(rollbackReceipts := d.rollbackReceipts - {req.Id()});
            && Rollback(dg, lost, req, []) == Call(d, [], Replied(receipt))
            && (Rollback(dg, lost, req, plan).reply.Replied? ==>
                  Rollback(dg, lost, req, plan).disk == d && Rollback(dg, lost, req, plan).reply.value == receipt)
  {
    var lost := d.(rollbackReceipts := d.rollbackReceipts - {req.Id()});
    assert lost.rollbackReceipts[req.Id() := receipt] == d.rollbackReceipts;
  }

  // ----- Failures

  /** What a first call that failed with `why` has left. */
  ghost predicate FailureLeaves(d: Disk, d': Disk, tx: Transaction, why: Failure) {
    && why in {NotStarted, ApplyError, ApplyFailedRolledBack, RecoveryRequired}
    && (why == NotStarted ==>
          d'.journal == d.journal && d'.registry == d.registry
          && forall p: Place :: p != tx.stage ==> At(d'.trees, p) == At(d.trees, p))
    && (why != NotStarted ==> tx.key in d'.journal)
    && (why == ApplyError || why == ApplyFailedRolledBack ==>
          d'.journal[tx.key].status == ApplyRolledBack && d'.registry == d.registry && d'.trees == d.trees - {tx.stage})
    && (why == RecoveryRequired ==>
          InFlight(d'.journal[tx.key].status) && Kept(At(d.trees, tx.Dest()), d'.trees, tx))
  }

  /** What a first call that failed has left: nothing journaled if it was not started, all as before
      if it was undone, and if that needs recovery, the original in place or in the backup. */
  lemma {:induction false} FailedApplyTells(dg: Digests, d: Disk, req: Request, plan: seq<Fault>)
    requires req.key !in d.journal && req.key !in d.idempotency && Apply(dg, d, req, plan).reply.Failed?
    ensures var call := Apply(dg, d, req, plan);
            FailureLeaves(d, call.disk, Opened(req, d), call.reply.why)
  {
    hide Apply, AttemptFrom, Admits, Opened, Objection;
    FirstCallIs(dg, d, req, plan);
    AdmitsIff(dg, d, req);
    if Admits(dg, d, req) {
      OpenedOpensOn(dg, d, req);
      OpenedNames(d, req);
      OpenedShape(d, req);
      FailedAttemptTells(dg, d, req, Opened(req, d), plan);
    }
  }

  lemma {:induction false} FailedAttemptTells(dg: Digests, d: Disk, req: Request, tx: Transaction, plan: seq<Fault>)
    requires OpensOn(d, req, tx) && AttemptFrom(dg, d, req, tx, plan).reply.Failed?
    ensures var call := AttemptFrom(dg, d, req, tx, plan);
            FailureLeaves(d, call.disk, tx, call.reply.why)
  {
    hide Open, ApplyBlock, Undo, Ready, Undoable, Committed, Kept;
    OpenEnds(d, req, tx, plan);
    OpenStops(req, d, tx, plan);
    var o := Open(req, d, tx, plan);
    if o.end.Done? {
      ApplyBlockStops(dg, o.m, req, o.plan);
      var r := ApplyBlock(dg, o.m, req, o.plan);
      if r.end.Raised? {
        ApplyFailureIsAtomic(dg, o.m, req, o.plan);
        FailedUndoKeepsJournal(o.m, r.m, r.plan);
      }
    }
  }

  lemma {:induction false} FailedUndoKeepsJournal(m0: Machine, m: Machine, plan: seq<Fault>)
    requires Ready(m0) && Undoable(m0, m)
    ensures !Undo(m, plan).end.Done? ==>
        m0.tx.key in Undo(m, plan).m.disk.journal && InFlight(Undo(m, plan).m.disk.journal[m0.tx.key].status)
  {
    UndoStops(At(m0.disk.trees, m0.tx.Dest()), m, plan);
    hide Undo;
  }

  /** What a rollback that began and failed with `why` has left. */
  predicate RollbackFailureLeaves(d: Disk, d': Disk, req: RollbackRequest, why: Failure) {
    && why in {RollbackFailedReverted, RollbackNeedsRecovery, CleanupFailed}
    && req.key in d'.journal
    && (why == RollbackFailedReverted ==>
          d'.journal[req.key].status == Applied && d'.trees == d.trees
          && d'.rollbackIdempotency == d.rollbackIdempotency)
    && (why == RollbackNeedsRecovery ==>
          d'.journal[req.key].status in {RollbackPending, RollbackRecoveryRequired, Applied})
    && (why == CleanupFailed ==> d'.journal[req.key].status == RolledBack)
  }

  /** What a rollback that failed has left: nothing if it was not started or was reverted, but for a
      registry with the recorded digest; a complete one if only its cleanup failed. One that needs
      recovery is pending, marked so, or back at `applied` with its files left to remove. */
  lemma {:induction false} FailedRollbackTells(dg: Digests, d: Disk, req: RollbackRequest, plan: seq<Fault>)
    requires Acceptable(dg, d, req) && Rollback(dg, d, req, plan).reply.Failed?
    ensures var call := Rollback(dg, d, req, plan);
            if call.reply.why == RollbackNotStarted then call.disk == d
            else RollbackFailureLeaves(d, call.disk, req, call.reply.why)
  {
    hide RollbackOrRevert, RollbackObjection;
    PendingStart(dg, d, req);
    var tx := d.journal[req.key];
    var receipt := RollbackReceipt(req.Id(), tx.receipt.brain, BackupDigest(dg, d, tx));
    var o := Then(Res(Machine(d, tx), plan, Done), Commit(PendingOf(tx)));
    if o.end.Done? { FailedBlockTells(dg, d, req, receipt, o.plan); }
  }

  lemma {:induction false} FailedBlockTells(dg: Digests, d: Disk, req: RollbackRequest, receipt: RollbackReceipt,
      plan: seq<Fault>)
    requires req.key in d.journal && receipt.id == req.Id()
    requires Pending(PendingMachine(d, req), req) && req.Stage() !in d.trees
    requires RollbackOrRevert(dg, PendingMachine(d, req), req, receipt, plan).reply.Failed?
    ensures var call := RollbackOrRevert(dg, PendingMachine(d, req), req, receipt, plan);
            RollbackFailureLeaves(d, call.disk, req, call.reply.why)
  {
    hide RollbackBlock, Revert, Cleanup, Revertible, Escalate;
    var m0 := PendingMachine(d, req);
    RollbackBlockStops(dg, m0, req, receipt, plan);
    var r := RollbackBlock(dg, m0, req, receipt, plan);
    if r.end.Done? {
      CleanupStops(r, req);
    } else if r.end.Raised? {
      RevertStops(m0, r.m, req, r.plan);
      var u := Revert(r.m, req, r.plan);
      EscalateStops(u);
      if u.end.Done? { UnmovedSame(d.trees, u.m.disk.trees, req.Stage()); }
    }
  }

  /** A rollback whose block raises, and whose revert raises at the last fault of all, ends marked as
      needing recovery. */
  lemma {:induction false} NeedsRecoveryIsMarked(dg: Digests, m0: Machine, req: RollbackRequest,
      receipt: RollbackReceipt, plan: seq<Fault>)
    requires Pending(m0, req) && receipt.id == req.Id()
    requires RollbackBlock(dg, m0, req, receipt, plan).end.Raised?
    requires var r := RollbackBlock(dg, m0, req, receipt, plan);
             Revert(r.m, req, r.plan).end.Raised? && Revert(r.m, req, r.plan).plan == []
    ensures var call := RollbackOrRevert(dg, m0, req, receipt, plan);
            && call.reply == Failed(RollbackNeedsRecovery)
            && req.key in call.disk.journal && call.disk.journal[req.key].status == RollbackRecoveryRequired
  {
    hide RollbackBlock, Revert, Revertible;
    RollbackBlockStops(dg, m0, req, receipt, plan);
    var r := RollbackBlock(dg, m0, req, receipt, plan);
    RevertStops(m0, r.m, req, r.plan);
  }

  /** A replay whose recovery raises says so; the key is journaled as before, and every key is safe. */
  lemma {:induction false} FailedRecoveryTells(dg: Digests, d: Disk, origins: Origins, req: Request, plan: seq<Fault>)
    requires World(d, origins) && Alone(d, req.key, req.brain) && ReplayOf(d, req).Recover?
    requires req.key in d.journal && Undo(Machine(d, d.journal[req.key]), plan).end.Raised?
    ensures var call := Apply(dg, d, req, plan);
            call.reply == Failed(RecoveryFailed) && call.disk.journal == d.journal && World(call.disk, origins)
  {
    hide Undo, ReplayOf, Attempt, World, Alone;
    ReplayInWorld(d, origins, req);
    RecoveryKeepsWorld(d, origins, req.key, plan);
    var tx := d.journal[req.key];
    assert Journaled(d, req.key, origins) by { JournaledIn(d, origins, req.key); }
    UndoStops(if tx.status == ApplyRolledBack then At(d.trees, tx.Dest()) else origins[req.key], Machine(d, tx), plan);
  }
}
