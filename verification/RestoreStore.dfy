/** The restore transaction as the program runs it: a store whose slots are updated in place,
    and a transaction record that is changed status by status and journaled. Each method is
    proved to do what its specification function says, for every fault plan. */
module RestoreStore {
  import opened Wrappers
  import opened BrainRegistry
  import opened RestoreDisk
  import opened RestoreApply
  import opened RestoreSafety
  import opened RestoreRollback
  import opened RestoreRuns
  import opened RestoreAdmission
  import opened RestoreAnswers

  class Store {
    const digests: Digests
    var trees: Trees
    var registry: Registry
    var journal: map<string, Transaction>
    var receipts: map<ReceiptId, Receipt>
    var idempotency: map<string, Fingerprint>
    var rollbackReceipts: map<RollbackId, RollbackReceipt>
    var rollbackIdempotency: map<string, RollbackFingerprint>
    /** What will happen to the coming steps. */
    var plan: seq<Fault>

    function View(): Disk
      reads this
    {
      Disk(trees, registry, journal, receipts, idempotency, rollbackReceipts, rollbackIdempotency)
    }

    function Now(tx: Transaction, end: End): Res
      reads this
    {
      Res(Machine(View(), tx), plan, end)
    }

    constructor (dg: Digests, d: Disk, faults: seq<Fault>)
      ensures digests == dg && View() == d && plan == faults
    {
      digests := dg;
      trees, registry, journal, receipts := d.trees, d.registry, d.journal, d.receipts;
      idempotency, rollbackReceipts, rollbackIdempotency := d.idempotency, d.rollbackReceipts, d.rollbackIdempotency;
      plan := faults;
    }

    /** The effect of a completed step on the slots. */
    method Complete(s: Step)
      modifies this
      ensures forall tx :: View() == Completed(Machine(old(View()), tx), s).disk
      ensures plan == old(plan)
    {
      match s
      case Build(p, t) => trees := trees[p := t];
      case Move(src, dst) => if src in trees { trees := (trees - {src})[dst := trees[src]]; }
      case Remove(p) => trees := trees - {p};
      case Hash(_) =>
      case Check(_, _) =>
      case WriteRegistry(r) => registry := r;
      case Commit(tx) => journal := journal[tx.key := tx];
      case WriteReceipt(r) => receipts := receipts[r.id := r];
      case WriteIdempotency(f) => idempotency := idempotency[f.key := f];
      case WriteRollbackReceipt(id, r) => rollbackReceipts := rollbackReceipts[id := r];
      case WriteRollbackIdempotency(k, f) => rollbackIdempotency := rollbackIdempotency[k := f];
      case UnlinkRollbackIdempotency(k) => rollbackIdempotency := rollbackIdempotency - {k};
      case UnlinkRollbackReceipt(id) => rollbackReceipts := rollbackReceipts - {id};
    }

    /** One step under the fault plan; the record in memory changes only with a journal write. */
    method Perform(s: Step, tx: Transaction) returns (end: End, tx': Transaction)
      modifies this
      ensures Now(tx', end) == Then(old(Now(tx, Done)), s)
    {
      StepRecord(View(), tx, s);
      hide Completed, Interrupted, Enabled;
      var fault := if plan == [] then NoFault else plan[0];
      plan := if plan == [] then [] else plan[1..];
      tx' := if s.Commit? then s.transaction else tx;
      ghost var before := Machine(View(), tx);
      match fault
      case NoFault =>
        if Enabled(View(), s) {
          Complete(s);
          assert Machine(View(), tx') == Completed(before, s);
          end := Done;
        } else {
          tx' := tx;
          end := Raised(s.Check? && s.http);
        }
      case Raise(partial, http) =>
        Spoil(s, partial);
        assert Machine(View(), tx') == Interrupted(before, s, partial);
        end := Raised(http);
      case Crash(partial) =>
        Spoil(s, partial);
        assert Machine(View(), tx') == Interrupted(before, s, partial);
        end := Crashed;
    }

    /** Only a journal write changes the record in memory, even when it fails. */
    static lemma {:induction false} StepRecord(d: Disk, tx: Transaction, s: Step)
      ensures var tx' := if s.Commit? then s.transaction else tx;
              && Completed(Machine(d, tx), s).tx == tx'
              && forall partial :: Interrupted(Machine(d, tx), s, partial).tx == tx'
    {
    }

    method Spoil(s: Step, partial: Option<Tree>)
      modifies this
      ensures forall tx :: View() == Interrupted(Machine(old(View()), tx), s, partial).disk
      ensures plan == old(plan)
    {
      if s.Build? && partial.Some? && s.place !in trees {
        trees := trees[s.place := partial.value];
      } else if s.Remove? && partial.Some? && s.place in trees {
        trees := trees[s.place := partial.value];
      }
    }

    // ----- Applying

    method RestoreDestination(tx0: Transaction) returns (end: End, tx: Transaction)
      modifies this
      ensures Now(tx, end) == UndoDestination(Machine(old(View()), tx0), old(plan))
    {
      end, tx := Done, tx0;
      if tx.existed && tx.Backup() in trees {
        if tx.Dest() in trees {
          tx :- Perform(Remove(tx.Dest()), tx);
        }
        end, tx := Perform(Move(tx.Backup(), tx.Dest()), tx);
      } else if !tx.existed && tx.Dest() in trees {
        end, tx := Perform(Remove(tx.Dest()), tx);
      } else if tx.existed && NeedsBackup(tx.status) {
        end, tx := Perform(Check(false, false), tx);
      }
    }

    method RollbackTransaction(tx0: Transaction) returns (end: End, tx: Transaction)
      modifies this
      ensures Now(tx, end) == Undo(Machine(old(View()), tx0), old(plan))
    {
      var staged := tx0.stage in trees;
      tx :- RestoreDestination(tx0);
      if staged {
        tx :- Perform(Remove(tx0.stage), tx);
      }
      tx :- Perform(WriteRegistry(tx0.originalRegistry), tx);
      end, tx := Perform(Commit(tx0.(status := ApplyRolledBack)), tx);
    }

    method Materialize(tx0: Transaction, req: Request) returns (end: End, tx: Transaction)
      modifies this
      ensures Now(tx, end) == StagePhase(old(Now(tx0, Done)), req)
    {
      tx := tx0;
      tx :- Perform(Build(tx.stage, req.tree), tx);
      end, tx := Perform(Commit(tx.(status := Staged)), tx);
    }

    method RetainOriginal(tx0: Transaction) returns (end: End, tx: Transaction)
      modifies this
      ensures Now(tx, end) == BackupPhase(digests, old(Now(tx0, Done)))
    {
      tx := tx0;
      tx :- Perform(Move(tx.Dest(), tx.Backup()), tx);
      tx :- Perform(Hash(tx.Backup()), tx);
      end, tx := Perform(Commit(tx.(backupDigest := DigestAt(digests, trees, tx.Backup()), status := BackupCreated)),
          tx);
    }

    method InstallStage(tx0: Transaction) returns (end: End, tx: Transaction)
      modifies this
      ensures Now(tx, end) == InstallPhase(digests, old(Now(tx0, Done)))
    {
      tx := tx0;
      tx :- Perform(Move(tx.stage, tx.Dest()), tx);
      tx :- Perform(Hash(tx.Dest()), tx);
      end, tx := Perform(Commit(tx.(appliedDigest := DigestAt(digests, trees, tx.Dest()),
          status := DestinationInstalled)), tx);
    }

    method UpdateRegistry(tx0: Transaction, req: Request) returns (end: End, tx: Transaction)
      modifies this
      ensures Now(tx, end) == RegistrySteps(old(Now(tx0, Done)), req)
    {
      tx := tx0;
      var u := UpdateOf(registry, req, tx.existed, tx.receipt.selected);
      end, tx := WriteRegistries(tx, u, Selectable(u.after, req.brain),
          SelectionIs(u.after, req.brain, tx.receipt.selected));
    }

    method WriteRegistries(tx0: Transaction, u: RegistryUpdate, selectable: bool, matches: bool)
        returns (end: End, tx: Transaction)
      modifies this
      ensures Now(tx, end)
          == RegistryChain(old(Now(tx0, Done)), u, tx0.existed, tx0.receipt.selected, selectable, matches)
    {
      tx := tx0;
      if !tx0.existed {
        tx :- Perform(WriteRegistry(u.created), tx);
      }
      tx :- Perform(WriteRegistry(u.refreshed), tx);
      if tx0.receipt.selected {
        tx :- Perform(Check(u.selection.Ok?, true), tx);
        tx :- Perform(WriteRegistry(u.after), tx);
      }
      tx :- Perform(Check(selectable, true), tx);
      end, tx := Perform(Check(matches, false), tx);
    }

    method CommitRegistry(tx0: Transaction, req: Request) returns (end: End, tx: Transaction)
      modifies this
      ensures Now(tx, end) == RegistryPhase(digests, old(Now(tx0, Done)), req)
    {
      hide RegistrySteps;
      tx :- UpdateRegistry(tx0, req);
      end, tx := Perform(Commit(tx.(appliedRegistry := Some(registry),
          appliedRegistryDigest := Some(digests.registry(registry)), status := RegistryCommitted)), tx);
    }

    method Record(tx0: Transaction) returns (end: End, tx: Transaction)
      modifies this
      ensures Now(tx, end) == FinishPhase(old(Now(tx0, Done)))
    {
      tx := tx0;
      tx :- Perform(WriteReceipt(tx.receipt), tx);
      tx :- Perform(WriteIdempotency(tx.fingerprint), tx);
      end, tx := Perform(Commit(tx.(status := Applied)), tx);
    }

    /** The body of the `try`. */
    method RunBlock(tx0: Transaction, req: Request) returns (end: End, tx: Transaction)
      modifies this
      ensures Now(tx, end) == ApplyBlock(digests, Machine(old(View()), tx0), req, old(plan))
    {
      hide StagePhase, BackupPhase, InstallPhase, RegistryPhase, FinishPhase;
      PhasesSkip(digests, req);
      tx :- Materialize(tx0, req);
      if tx0.existed {
        tx :- RetainOriginal(tx);
      }
      tx :- InstallStage(tx);
      tx :- CommitRegistry(tx, req);
      end, tx := Record(tx);
    }

    static lemma {:induction false} PhasesSkip(dg: Digests, req: Request)
      ensures forall r: Res :: !r.end.Done? ==> BackupPhase(dg, r) == r
      ensures forall r: Res :: !r.end.Done? ==> InstallPhase(dg, r) == r
      ensures forall r: Res :: !r.end.Done? ==> RegistryPhase(dg, r, req) == r
      ensures forall r: Res :: !r.end.Done? ==> FinishPhase(r) == r
    {
    }

    method OpenTransaction(tx0: Transaction, req: Request) returns (end: End, tx: Transaction)
      modifies this
      ensures Now(tx, end) == Open(req, old(View()), tx0, old(plan))
    {
      tx := tx0;
      var free := tx.Backup() !in trees;
      if tx.stage in trees {
        tx :- Perform(Remove(tx.stage), tx);
      }
      tx :- Perform(Check(free, true), tx);
      end, tx := Perform(Commit(tx0), tx);
    }

    /** The `try` with its handlers. */
    method RunOrUndo(tx0: Transaction, req: Request) returns (reply: Reply<Receipt>)
      modifies this
      ensures Call(View(), plan, reply) == ApplyOrUndo(digests, Machine(old(View()), tx0), req, old(plan))
    {
      hide ApplyBlock, Undo;
      var end, tx := RunBlock(tx0, req);
      match end
      case Done => reply := Replied(tx0.receipt);
      case Crashed => reply := Dead;
      case Raised(http) =>
        end, tx := RollbackTransaction(tx);
        match end
        case Crashed => reply := Dead;
        case Raised(_) => reply := Failed(RecoveryRequired);
        case Done => reply := Failed(if http then ApplyError else ApplyFailedRolledBack);
    }

    method AttemptRestore(req: Request) returns (reply: Reply<Receipt>)
      modifies this
      ensures Call(View(), plan, reply) == Attempt(digests, old(View()), req, old(plan))
    {
      hide ApplyOrUndo, Open, Objection, Opened;
      var objection := Objection(digests, View(), req);
      if objection.Some? {
        return Refused(objection.value);
      }
      var end, tx := OpenTransaction(Opened(req, View()), req);
      match end
      case Crashed => reply := Dead;
      case Raised(_) => reply := Failed(NotStarted);
      case Done => reply := RunOrUndo(tx, req);
    }

    static function Report<T>(end: End, value: T): Reply<T> {
      match end case Done => Replied(value) case Raised(_) => Failed(WriteFailed) case Crashed => Dead
    }

    /** `_apply_restore_under_lock`. */
    method ApplyRestore(req: Request) returns (reply: Reply<Receipt>)
      modifies this
      ensures Call(View(), plan, reply) == Apply(digests, old(View()), req, old(plan))
      ensures forall origins :: World(old(View()), origins) && Alone(old(View()), req.key, req.brain) ==>
          World(View(), OriginsAfter(digests, old(View()), origins, ApplyCall(req, old(plan))))
      ensures New(old(View()), req) ==>
          && (View() != old(View()) || reply.Replied? ==> Admits(digests, old(View()), req))
          && (reply.Refused? <==> !Admits(digests, old(View()), req))
    {
      ghost var d := View();
      if New(d, req) { ChangesOnlyIfAdmitted(digests, d, req, plan); }
      forall origins | World(d, origins) && Alone(d, req.key, req.brain)
        ensures World(Apply(digests, d, req, plan).disk, OriginsAfter(digests, d, origins, ApplyCall(req, plan)))
      {
        ApplyKeepsWorld(digests, d, origins, req, plan);
      }
      hide World, Alone, OriginsAfter, New, Admits;
      hide Attempt, Undo, ReplayOf;
      ReplayHasJournal(View(), req);
      match ReplayOf(View(), req)
      case Reject(code) => reply := Refused(code);
      case Answer(receipt) => reply := Replied(receipt);
      case RepairReceipt(receipt) =>
        var end, tx := Perform(WriteReceipt(receipt), journal[req.key]);
        reply := Report(end, receipt);
      case RepairBoth(receipt) =>
        var end, tx := Perform(WriteReceipt(receipt), journal[req.key]);
        if end.Done? {
          end, tx := Perform(WriteIdempotency(req.Fingerprint()), tx);
        }
        reply := Report(end, receipt);
      case Recover =>
        var end, tx := RollbackTransaction(journal[req.key]);
        match end {
          case Done => reply := AttemptRestore(req);
          case Raised(_) => reply := Failed(RecoveryFailed);
          case Crashed => reply := Dead;
        }
      case Fresh => reply := AttemptRestore(req);
    }

    static lemma {:induction false} ReplayHasJournal(d: Disk, req: Request)
      ensures ReplayOf(d, req).RepairReceipt? || ReplayOf(d, req).RepairBoth? || ReplayOf(d, req).Recover? ==>
          req.key in d.journal
    {
    }

    // ----- Public rollback

    method SwapTrees(tx0: Transaction, req: RollbackRequest, digest: string) returns (end: End, tx: Transaction)
      modifies this
      ensures Now(tx, end) == SwapBack(digests, Machine(old(View()), tx0), req, digest, old(plan))
    {
      tx := tx0;
      tx :- Perform(Move(tx0.Dest(), req.Stage()), tx);
      tx :- Perform(Commit(tx0.(phase := DestinationRetained)), tx);
      tx :- Perform(Move(tx0.Backup(), tx0.Dest()), tx);
      tx :- Perform(Commit(tx0.(phase := BackupInstalled)), tx);
      tx :- Perform(Hash(tx0.Dest()), tx);
      end, tx := Perform(Check(DigestAt(digests, trees, tx0.Dest()) == Some(digest), false), tx);
    }

    method RecordRolledBack(tx0: Transaction, now: Transaction, req: RollbackRequest, receipt: RollbackReceipt)
        returns (end: End, tx: Transaction)
      modifies this
      ensures Now(tx, end) == RecordRollback(old(Now(now, Done)), tx0, req, receipt)
    {
      tx := now;
      tx :- Perform(WriteRegistry(tx0.originalRegistry), tx);
      tx :- Perform(Commit(tx0.(phase := RegistryRestored)), tx);
      tx :- Perform(WriteRollbackReceipt(req.Id(), receipt), tx);
      tx :- Perform(WriteRollbackIdempotency(req.rollbackKey, req.Fingerprint()), tx);
      end, tx := Perform(Commit(tx0.(phase := RegistryRestored, rollbackReceipt := Some(receipt),
          status := RolledBack)), tx);
    }

    method RunRollback(tx0: Transaction, req: RollbackRequest, receipt: RollbackReceipt)
        returns (end: End, tx: Transaction)
      modifies this
      ensures Now(tx, end) == RollbackBlock(digests, Machine(old(View()), tx0), req, receipt, old(plan))
    {
      hide SwapBack, RecordRollback;
      RecordSkips(tx0, req, receipt);
      tx :- SwapTrees(tx0, req, receipt.restored);
      end, tx := RecordRolledBack(tx0, tx, req, receipt);
    }

    static lemma {:induction false} RecordSkips(tx: Transaction, req: RollbackRequest, receipt: RollbackReceipt)
      ensures forall r: Res :: !r.end.Done? ==> RecordRollback(r, tx, req, receipt) == r
    {
    }

    method RevertPlaces(tx0: Transaction, req: RollbackRequest) returns (end: End, tx: Transaction)
      modifies this
      ensures Now(tx, end) == RevertTrees(Machine(old(View()), tx0), req, old(plan))
    {
      end, tx := Done, tx0;
      if req.Stage() in trees {
        if tx0.Dest() in trees {
          if tx0.Backup() in trees {
            tx :- Perform(Check(false, false), tx);
          } else {
            tx :- Perform(Move(tx0.Dest(), tx0.Backup()), tx);
          }
        }
        end, tx := Perform(Move(req.Stage(), tx0.Dest()), tx);
      }
    }

    method RevertPublicRollback(tx0: Transaction, req: RollbackRequest) returns (end: End, tx: Transaction)
      modifies this
      ensures Now(tx, end) == Revert(Machine(old(View()), tx0), req, old(plan))
    {
      hide RevertTrees;
      tx :- RevertPlaces(tx0, req);
      if tx0.appliedRegistry.Some? {
        tx :- Perform(WriteRegistry(tx0.appliedRegistry.value), tx);
      }
      tx :- Perform(Commit(tx0.(status := Applied, phase := NoRollback)), tx);
      tx :- Perform(UnlinkRollbackIdempotency(req.rollbackKey), tx);
      end, tx := Perform(UnlinkRollbackReceipt(req.Id()), tx);
    }

    method RollbackOrUndo(tx0: Transaction, req: RollbackRequest, receipt: RollbackReceipt)
        returns (reply: Reply<RollbackReceipt>)
      modifies this
      ensures Call(View(), plan, reply) == RollbackOrRevert(digests, Machine(old(View()), tx0), req, receipt, old(plan))
    {
      hide RollbackBlock, Revert;
      var end, tx := RunRollback(tx0, req, receipt);
      match end
      case Crashed => reply := Dead;
      case Done =>
        end, tx := Perform(Remove(req.Stage()), tx);
        if end.Raised? {
          end, tx := Perform(Commit(tx.(cleanupPending := true)), tx);
        }
        reply := match end case Done => Replied(receipt) case Raised(_) => Failed(CleanupFailed) case Crashed => Dead;
      case Raised(_) =>
        end, tx := RevertPublicRollback(tx, req);
        if end.Done? {
          return Failed(RollbackFailedReverted);
        }
        if end.Raised? {
          end, tx := Perform(Commit(tx.(status := RollbackRecoveryRequired)), tx);
        }
        reply := if end.Crashed? then Dead else Failed(RollbackNeedsRecovery);
    }

    method AcceptRollback(tx0: Transaction, req: RollbackRequest) returns (reply: Reply<RollbackReceipt>)
      requires tx0.Backup() in trees
      modifies this
      ensures Call(View(), plan, reply) == RollbackAccepted(digests, old(View()), tx0, req, old(plan))
    {
      hide RollbackOrRevert;
      var receipt := RollbackReceipt(req.Id(), tx0.receipt.brain, BackupDigest(digests, View(), tx0));
      var end, tx := Perform(Commit(PendingOf(tx0)), tx0);
      match end
      case Crashed => reply := Dead;
      case Raised(_) => reply := Failed(RollbackNotStarted);
      case Done => reply := RollbackOrUndo(tx, req, receipt);
    }

    method ReplayRollback(tx0: Transaction, req: RollbackRequest) returns (reply: Reply<RollbackReceipt>)
      requires req.rollbackKey in rollbackIdempotency
      modifies this
      ensures Call(View(), plan, reply) == RollbackReplay(old(View()), tx0, req, old(plan))
    {
      if rollbackIdempotency[req.rollbackKey] != req.Fingerprint() {
        return Refused("rollback_idempotency_replay_mismatch");
      }
      if req.Id() in rollbackReceipts {
        return if tx0.status == RolledBack then Replied(rollbackReceipts[req.Id()])
            else Refused("rollback_receipt_missing");
      }
      if tx0.rollbackReceipt.None? {
        return Refused("rollback_receipt_missing");
      }
      var end, tx := Perform(WriteRollbackReceipt(req.Id(), tx0.rollbackReceipt.value), tx0);
      reply := match end
        case Crashed => Dead
        case Raised(_) => Failed(WriteFailed)
        case Done => if tx0.status == RolledBack then Replied(tx0.rollbackReceipt.value)
            else Refused("rollback_receipt_missing");
    }

    /** `_rollback_applied_restore_under_lock`. */
    method RollbackRestore(req: RollbackRequest) returns (reply: Reply<RollbackReceipt>)
      modifies this
      ensures Call(View(), plan, reply) == Rollback(digests, old(View()), req, old(plan))
      ensures forall origins ::
          World(old(View()), origins) && Disciplined(old(View()), RollbackCall(req, old(plan))) ==>
            World(View(), origins)
      ensures forall receipt :: RolledBackWith(old(View()), req, receipt) ==>
          reply == Replied(receipt) && View() == old(View())
    {
      ghost var d := View();
      forall receipt | RolledBackWith(d, req, receipt)
        ensures Rollback(digests, d, req, plan) == Call(d, plan, Replied(receipt))
      {
        RepeatAnswers(digests, d, req, receipt, req, plan);
      }
      forall origins | World(d, origins) && Disciplined(d, RollbackCall(req, plan))
        ensures World(Rollback(digests, d, req, plan).disk, origins)
      {
        RollbackKeepsWorld(digests, d, origins, req, plan);
      }
      hide World, Disciplined, RolledBackWith;
      hide RollbackAccepted, RollbackReplay;
      if req.key !in journal {
        return Refused("transaction_not_found");
      }
      var tx := journal[req.key];
      if req.rollbackKey in rollbackIdempotency {
        reply := ReplayRollback(tx, req);
      } else {
        var objection := RollbackObjection(digests, View(), tx, req);
        if objection.Some? {
          reply := Refused(objection.value);
        } else {
          reply := AcceptRollback(tx, req);
        }
      }
    }
  }
}
