/** The last journal write of an apply, which follows its idempotency record: what replays and
    public rollbacks are told when it does not happen. */
module RestoreLastWrite {
  import opened Wrappers
  import opened BrainRegistry
  import opened RestoreDisk
  import opened RestoreApply
  import opened RestoreAdmission
  import opened RestoreSafety
  import opened RestoreRollback
  import opened RestoreCalls
  import opened RestorePlan
  import opened RestoreRuns
  import opened RestoreReplay
  import opened RestoreStack
  import opened RestoreWitness

  // ----- Which plans record a key, and which apply it

  /** The plan lets every step of a block that commits pass but dies at the last one. */
  predicate LastWriteCrashes(m0: Machine, req: Request, plan: seq<Fault>) {
    var n := BlockCount(m0.tx.existed, m0.tx.receipt.selected);
    Commits(m0.disk, m0.tx, req) && n <= |plan| && plan[n - 1].Crash? && Clear(plan, n - 1)
  }

  lemma {:induction false} BlockRecordsIff(dg: Digests, m0: Machine, req: Request, plan: seq<Fault>)
    requires Ready(m0)
    ensures var r, n := ApplyBlock(dg, m0, req, plan), BlockCount(m0.tx.existed, m0.tx.receipt.selected);
            && (m0.tx.key in r.m.disk.idempotency <==> Commits(m0.disk, m0.tx, req) && Clear(plan, n - 1))
            && (r.end.Done? <==> Commits(m0.disk, m0.tx, req) && Clear(plan, n))
            && (r.end.Crashed? && m0.tx.key in r.m.disk.idempotency <==> LastWriteCrashes(m0, req, plan))
  {
    hide UpToRecord, ApplyBlock, Commits, Ready;
    var n := BlockCount(m0.tx.existed, m0.tx.receipt.selected);
    var r, r0 := UpToRecord(dg, m0, req, plan), UpToRecord(dg, m0, req, []);
    RecordInStep(dg, m0, req, plan);
    BlockCommitsIff(dg, m0, req);
    BlockIsRecordThenCommit(dg, m0, req, plan);
    BlockIsRecordThenCommit(dg, m0, req, []);
    SmoothThen(r0, Commit(r0.m.tx.(status := Applied)));
    NotYetReady(dg, m0, req, plan);
    BlockStatusRecorded(dg, m0, req, plan);
    assert Clear(plan, n) <==> Clear(plan, n - 1) && (n - 1 < |plan| ==> plan[n - 1].NoFault?);
  }

  lemma {:induction false} BlockStatusRecorded(dg: Digests, m0: Machine, req: Request, plan: seq<Fault>)
    requires Ready(m0)
    ensures var r := ApplyBlock(dg, m0, req, plan);
            m0.tx.key in r.m.disk.idempotency <==> r.m.tx.status == Applied
  {
    hide ApplyBlock, Ready, UpdateOf;
    ApplyBlockStops(dg, m0, req, plan);
  }

  /** What a call that began leaves of its key, in terms of its block's steps. */
  ghost predicate Leaves(d: Disk, reply: Reply<Receipt>, tx: Transaction, recorded: bool, applied: bool) {
    && (tx.key in d.idempotency <==> recorded)
    && tx.key in d.journal && SameTransaction(d.journal[tx.key], tx)
    && (d.journal[tx.key].status == Applied <==> applied)
    && (reply.Replied? <==> applied)
    && (recorded ==> KeyRecorded(Machine(d, tx), d))
    && (var status := d.journal[tx.key].status; status == Applied || status == ApplyRolledBack || InFlight(status))
  }

  lemma {:induction false} CallRecordsIff(dg: Digests, m0: Machine, req: Request, plan: seq<Fault>)
    requires Ready(m0) && m0.tx.receipt.id == req.Id()
    ensures var call, n := ApplyOrUndo(dg, m0, req, plan), BlockCount(m0.tx.existed, m0.tx.receipt.selected);
            var commits := Commits(m0.disk, m0.tx, req);
            Leaves(call.disk, call.reply, m0.tx, commits && Clear(plan, n - 1), commits && Clear(plan, n))
  {
    hide ApplyOrUndo, ApplyBlock, Ready, Commits, Clear, Leaves;
    BlockRecordsIff(dg, m0, req, plan);
    CallLeaves(dg, m0, req, plan);
  }

  lemma {:induction false} CallLeaves(dg: Digests, m0: Machine, req: Request, plan: seq<Fault>)
    requires Ready(m0)
    ensures var call, r := ApplyOrUndo(dg, m0, req, plan), ApplyBlock(dg, m0, req, plan);
            Leaves(call.disk, call.reply, m0.tx, m0.tx.key in r.m.disk.idempotency, r.end.Done?)
  {
    assert WellFormed(m0.tx);
    ApplyBlockStops(dg, m0, req, plan);
    hide ApplyBlock, Undo, Leaves, Undoable, Committed, Ready;
    var r := ApplyBlock(dg, m0, req, plan);
    if r.end.Done? {
      CommittedLeaves(dg, m0, r.m, req);
    } else {
      StoppedLeaves(m0, r.m, r.plan, ApplyOrUndo(dg, m0, req, plan).reply);
    }
  }

  lemma {:induction false} CommittedLeaves(dg: Digests, m0: Machine, m: Machine, req: Request)
    requires Committed(dg, m0, m, req)
    ensures Leaves(m.disk, Replied(m0.tx.receipt), m0.tx, m0.tx.key in m.disk.idempotency, true)
  {
    hide UpdateOf;
  }

  lemma {:induction false} StoppedLeaves(m0: Machine, m: Machine, plan: seq<Fault>, reply: Reply<Receipt>)
    requires WellFormed(m0.tx) && Undoable(m0, m) && !reply.Replied?
    ensures Leaves(m.disk, reply, m0.tx, m0.tx.key in m.disk.idempotency, false)
    ensures Leaves(Undo(m, plan).m.disk, reply, m0.tx, m0.tx.key in m.disk.idempotency, false)
  {
    UndoStops(At(m0.disk.trees, m0.tx.Dest()), m, plan);
    hide Undo;
  }

  /** The number of steps before the block of a first call. */
  function OpenCount(d: Disk, req: Request): nat {
    2 + if Stage(req.Id(), req.nonce) in d.trees then 1 else 0
  }

  /** The number of steps of a first call that commits; the last is the last journal write. */
  function CallCount(d: Disk, req: Request): nat {
    OpenCount(d, req) + BlockCount(Opened(req, d).existed, Opened(req, d).receipt.selected)
  }

  lemma {:induction false} OpenStepsIn(req: Request, d: Disk, tx: Transaction, plan: seq<Fault>)
    requires tx.stage == Stage(req.Id(), req.nonce)
    ensures InStep(Open(req, d, tx, plan), Open(req, d, tx, []), plan, OpenCount(d, req))
  {
    hide InStep;
    var r, r0 := Res(Machine(d, tx), plan, Done), Res(Machine(d, tx), [], Done);
    assert InStep(r, r0, plan, 0) by { StartsInStep(Machine(d, tx), plan); }
    var stale := tx.stage in d.trees;
    ThenIfInStep(r, r0, plan, 0, stale, Remove(tx.stage));
    r, r0 := ThenIf(r, stale, Remove(tx.stage)), ThenIf(r0, stale, Remove(tx.stage));
    var n, s := if stale then 1 else 0, Check(tx.Backup() !in d.trees, true);
    ThenInStep(r, r0, plan, n, s, s);
    ThenInStep(Then(r, s), Then(r0, s), plan, n + 1, Commit(tx), Commit(tx));
  }

  lemma {:induction false} StartsInStep(m: Machine, plan: seq<Fault>)
    ensures InStep(Res(m, plan, Done), Res(m, [], Done), plan, 0)
  {
  }

  lemma {:induction false} ClearRest(plan: seq<Fault>, k: nat, n: nat)
    ensures Clear(plan, k) && Clear(Rest(plan, k), n) <==> Clear(plan, k + n)
  {
    if Clear(plan, k) && Clear(Rest(plan, k), n) {
      forall i | 0 <= i < k + n && i < |plan| ensures plan[i].NoFault? {
        if i >= k { assert plan[i] == Rest(plan, k)[i - k]; }
      }
    }
    if Clear(plan, k + n) {
      forall i | 0 <= i < n && i < |Rest(plan, k)| ensures Rest(plan, k)[i].NoFault? {
        assert Rest(plan, k)[i] == plan[k + i];
      }
    }
  }

  lemma {:induction false} AttemptRecordsIff(dg: Digests, d: Disk, req: Request, tx: Transaction, plan: seq<Fault>)
    requires OpensOn(d, req, tx) && tx.stage == Stage(req.Id(), req.nonce)
    ensures var call := AttemptFrom(dg, d, req, tx, plan);
            var n := OpenCount(d, req) + BlockCount(tx.existed, tx.receipt.selected);
            var commits := tx.Backup() !in d.trees && Commits(d, tx, req);
            || Leaves(call.disk, call.reply, tx, commits && Clear(plan, n - 1), commits && Clear(plan, n))
            || (!(commits && Clear(plan, n - 1)) && !(commits && Clear(plan, n)) && !call.reply.Replied?
                && call.disk.journal == d.journal && call.disk.idempotency == d.idempotency)
  {
    hide Open, ApplyOrUndo, Commits, Clear, Ready, Leaves, BlockCount;
    OpenEnds(d, req, tx, plan);
    OpenStops(req, d, tx, plan);
    OpenStepsIn(req, d, tx, plan);
    SmoothOpen(req, d, tx);
    var o, n := Open(req, d, tx, plan), BlockCount(tx.existed, tx.receipt.selected);
    assert n >= 1 by { BlockCountPositive(tx.existed, tx.receipt.selected); }
    ClearRest(plan, OpenCount(d, req), n - 1);
    ClearRest(plan, OpenCount(d, req), n);
    if o.end.Done? {
      CommitsAfterOpen(d, o.m, req);
      CallRecordsIff(dg, o.m, req, o.plan);
    }
  }

  lemma {:induction false} BlockCountPositive(existed: bool, selected: bool)
    ensures BlockCount(existed, selected) >= 1
  {
  }

  /** What a first call under any plan leaves of its key: the idempotency record exactly when it
      would commit and the plan has no fault before the last step, and the status `applied`, with
      a receipt for its caller, exactly when it has none up to and at that step. A recorded key
      is closed: its replays are answered and never recover it. */
  lemma {:induction false} FirstCallIff(dg: Digests, d: Disk, req: Request, plan: seq<Fault>)
    requires req.key !in d.journal && req.key !in d.idempotency
    ensures var call, n := Apply(dg, d, req, plan), CallCount(d, req);
            var d1 := call.disk;
            && (req.key in d1.idempotency <==> WouldCommit(dg, d, req) && Clear(plan, n - 1))
            && (req.key in d1.journal && d1.journal[req.key].status == Applied
                <==> WouldCommit(dg, d, req) && Clear(plan, n))
            && (call.reply.Replied? <==> WouldCommit(dg, d, req) && Clear(plan, n))
            && (req.key in d1.idempotency ==>
                && req.key in d1.journal && Recorded(d1, d1.journal[req.key])
                && Answers(d1.journal[req.key].status) && Closed(d1, req.key)
                && d1.journal[req.key].fingerprint == req.Fingerprint()
                && SameTransaction(d1.journal[req.key], Opened(req, d)))
  {
    hide Apply, AttemptFrom, Objection, Admits, Commits, Clear, Opened, OpenCount, BlockCount;
    AdmitsIff(dg, d, req);
    FirstCallIs(dg, d, req, plan);
    OpenedNames(d, req);
    OpenedShape(d, req);
    OpenedIsOpen(req, d);
    var call := Apply(dg, d, req, plan);
    if Admits(dg, d, req) {
      OpenedOpensOn(dg, d, req);
      var tx := Opened(req, d);
      AttemptRecordsIff(dg, d, req, tx, plan);
      if req.key in call.disk.idempotency { RecordedLeaves(call.disk, call.reply, tx); }
      if req.key in call.disk.journal { StatusLeaves(call.disk, call.reply, tx); }
    }
  }

  lemma {:induction false} OpenedIsOpen(req: Request, d: Disk)
    ensures Opened(req, d).Backup() == Backup(req.Id())
  {
  }

  lemma {:induction false} StatusLeaves(d: Disk, reply: Reply<Receipt>, tx: Transaction)
    ensures forall recorded, applied :: Leaves(d, reply, tx, recorded, applied) ==>
        tx.key in d.journal && (tx.key in d.idempotency <==> recorded)
        && (d.journal[tx.key].status == Applied <==> applied) && (reply.Replied? <==> applied)
  {
  }

  lemma {:induction false} RecordedLeaves(d: Disk, reply: Reply<Receipt>, tx: Transaction)
    requires WellFormed(tx) && tx.key in d.idempotency
    ensures forall recorded, applied :: Leaves(d, reply, tx, recorded, applied) ==>
        tx.key in d.journal && Recorded(d, d.journal[tx.key]) && Answers(d.journal[tx.key].status)
        && Closed(d, tx.key) && SameTransaction(d.journal[tx.key], tx)
  {
  }

  // ----- Which restores can be rolled back

  /** What a committed first call leaves for a rollback to check. */
  lemma {:induction false} CommittedIsAcceptable(dg: Digests, d: Disk, req: Request, plan: seq<Fault>,
      rb: RollbackRequest)
    requires req.key !in d.journal && req.key !in d.idempotency && HasId(d.registry.brains, req.brain)
    requires Apply(dg, d, req, plan).reply.Replied?
    requires rb.key == req.key && rb.expectedDestination == dg.tree(req.tree)
    requires rb.rollbackKey !in d.rollbackIdempotency && rb.Stage() !in d.trees
    ensures Acceptable(dg, Apply(dg, d, req, plan).disk, rb)
  {
    FirstIsAttempt(dg, d, req, plan);
    OpenedNames(d, req);
    OpenedShape(d, req);
    OpenedFacts(d, req);
    hide Apply, Attempt, Opened;
    var m0, m := AttemptCommitted(dg, d, req, plan);
    AcceptableAfter(dg, d, m0, m, req, rb);
  }

  lemma {:induction false} AcceptableAfter(dg: Digests, d: Disk, m0: Machine, m: Machine, req: Request,
      rb: RollbackRequest)
    requires StartsFrom(d, m0) && WellFormed(m0.tx) && m0.tx.existed && m0.tx.key == req.key
    requires Committed(dg, m0, m, req)
    requires rb.key == req.key && rb.expectedDestination == dg.tree(req.tree)
    requires rb.rollbackKey !in d.rollbackIdempotency && rb.Stage() !in d.trees
    ensures Acceptable(dg, m.disk, rb)
  {
    hide UpdateOf;
    assert At(m.disk.trees, rb.Stage()) == At(m0.disk.trees, rb.Stage());
    assert DigestAt(dg, m.disk.trees, m0.tx.Dest()) == Some(dg.tree(req.tree));
    assert DigestAt(dg, m.disk.trees, m0.tx.Backup()) == DigestAt(dg, m0.disk.trees, m0.tx.Dest());
  }

  /** A restore over an existing brain can be rolled back afterwards exactly when it would commit
      and its plan has no fault up to and at its last journal write. Once its idempotency record
      is there, all its replays are answered with its receipt; it can then be rolled back exactly
      when the plan neither raises nor crashes at that write. */
  lemma {:induction false} RollsBackIff(dg: Digests, d: Disk, req: Request, plan: seq<Fault>, rb: RollbackRequest)
    requires req.key !in d.journal && req.key !in d.idempotency && HasId(d.registry.brains, req.brain)
    requires rb.key == req.key && rb.expectedDestination == dg.tree(req.tree)
    requires rb.rollbackKey !in d.rollbackIdempotency && rb.Stage() !in d.trees
    ensures var d1, n := Apply(dg, d, req, plan).disk, CallCount(d, req);
            var rolledBack := Rollback(dg, d1, rb, []).reply.Replied?;
            && (rolledBack <==> WouldCommit(dg, d, req) && Clear(plan, n))
            && (req.key in d1.idempotency ==>
                && (forall p :: Apply(dg, d1, req, p) == Call(d1, p, Replied(Opened(req, d).receipt)))
                && (rolledBack <==> |plan| < n || plan[n - 1].NoFault?))
  {
    hide Apply, Rollback, RollbackAccepted, WouldCommit, CallCount, Opened, Acceptable, Recorded;
    var d1, n := Apply(dg, d, req, plan).disk, CallCount(d, req);
    FirstCallIff(dg, d, req, plan);
    FirstCallTouchesKey(dg, d, req, plan);
    OpenedShape(d, req);
    if Apply(dg, d, req, plan).reply.Replied? {
      CommittedIsAcceptable(dg, d, req, plan, rb);
      AcceptableRollsBack(dg, d1, rb);
    } else {
      UnappliedRefuses(dg, d1, rb, []);
    }
    CountPositive(d, req);
    assert Clear(plan, n) <==> Clear(plan, n - 1) && (n - 1 < |plan| ==> plan[n - 1].NoFault?);
    if req.key in d1.idempotency {
      forall p ensures Apply(dg, d1, req, p) == Call(d1, p, Replied(Opened(req, d).receipt)) {
        RecordedAnswers(dg, d1, req, p);
      }
    }
  }

  /** A recorded key answers its own request with its receipt, whatever the faults. */
  lemma {:induction false} RecordedAnswers(dg: Digests, d: Disk, req: Request, plan: seq<Fault>)
    requires req.key in d.journal && Recorded(d, d.journal[req.key]) && d.journal[req.key].key == req.key
    requires d.journal[req.key].fingerprint == req.Fingerprint() && Answers(d.journal[req.key].status)
    ensures Apply(dg, d, req, plan) == Call(d, plan, Replied(d.journal[req.key].receipt))
  {
    RecordedReplay(dg, d, d.journal[req.key], req, plan);
    hide Apply;
  }

  lemma {:induction false} FirstCallTouchesKey(dg: Digests, d: Disk, req: Request, plan: seq<Fault>)
    requires req.key !in d.journal && req.key !in d.idempotency
    ensures Apply(dg, d, req, plan).disk.rollbackIdempotency == d.rollbackIdempotency
  {
    FirstIsAttempt(dg, d, req, plan);
    hide Apply, Attempt;
    AttemptStops(dg, d, req, plan);
  }

  lemma {:induction false} CountPositive(d: Disk, req: Request)
    ensures CallCount(d, req) >= 2
  {
  }

  lemma {:induction false} AcceptableRollsBack(dg: Digests, d: Disk, rb: RollbackRequest)
    requires Acceptable(dg, d, rb)
    ensures Rollback(dg, d, rb, []).reply.Replied?
  {
    AnsweredRollback(dg, d, rb, []);
    hide RollbackAccepted;
  }

  /** A key that is not applied refuses every rollback under a new rollback key. */
  lemma {:induction false} UnappliedRefuses(dg: Digests, d: Disk, rb: RollbackRequest, plan: seq<Fault>)
    requires rb.key in d.journal ==> d.journal[rb.key].status != Applied
    requires rb.rollbackKey !in d.rollbackIdempotency
    ensures Rollback(dg, d, rb, plan).disk == d && Rollback(dg, d, rb, plan).reply.Refused?
  {
  }

  /** Once a key is recorded without being applied, that is for good: after any disciplined run its
      request is still answered with its receipt, and no rollback of it is ever answered. */
  lemma {:induction false} UnappliedForGood(dg: Digests, d: Disk, origins: Origins, events: seq<Event>, req: Request,
      rb: RollbackRequest, plan: seq<Fault>)
    requires World(d, origins) && DisciplinedRun(dg, d, events)
    requires req.key in d.journal && req.key in d.idempotency && d.journal[req.key].fingerprint == req.Fingerprint()
    requires d.journal[req.key].status == ApplyRolledBack || InFlight(d.journal[req.key].status)
    requires rb.key == req.key
    ensures var d' := DoAll(dg, d, events);
            && Apply(dg, d', req, plan) == Call(d', plan, Replied(d.journal[req.key].receipt))
            && !Rollback(dg, d', rb, plan).reply.Replied?
            && Rollback(dg, d', rb, plan).disk.trees == d'.trees
  {
    assert Journaled(d, req.key, origins);
    var tx := d.journal[req.key];
    RecordStaysAll(dg, d, origins, tx, events);
    var d' := DoAll(dg, d, events);
    hide Apply, Rollback, DoAll, World;
    UnappliedAnswers(dg, d', req, rb, plan);
  }

  lemma {:induction false} UnappliedAnswers(dg: Digests, d: Disk, req: Request, rb: RollbackRequest, plan: seq<Fault>)
    requires req.key in d.journal && Recorded(d, d.journal[req.key]) && d.journal[req.key].key == req.key
    requires d.journal[req.key].fingerprint == req.Fingerprint() && rb.key == req.key
    requires d.journal[req.key].status == ApplyRolledBack || InFlight(d.journal[req.key].status)
    ensures Apply(dg, d, req, plan) == Call(d, plan, Replied(d.journal[req.key].receipt))
    ensures !Rollback(dg, d, rb, plan).reply.Replied? && Rollback(dg, d, rb, plan).disk.trees == d.trees
  {
    RecordedAnswers(dg, d, req, plan);
    hide Apply;
    if rb.rollbackKey in d.rollbackIdempotency {
      UnfinishedReplay(d, d.journal[req.key], rb, plan);
    } else {
      UnappliedRefuses(dg, d, rb, plan);
    }
  }

  /** The replay of a rollback that was not finished is not answered and moves no tree. */
  lemma {:induction false} UnfinishedReplay(d: Disk, tx: Transaction, rb: RollbackRequest, plan: seq<Fault>)
    requires rb.rollbackKey in d.rollbackIdempotency && tx.status != RolledBack
    ensures !RollbackReplay(d, tx, rb, plan).reply.Replied?
    ensures RollbackReplay(d, tx, rb, plan).disk.trees == d.trees
  {
    ReplayTouchesNothing(d, tx, rb, plan);
  }

  // ----- Runs that end so

  function EndOf(fault: Fault): End {
    match fault
    case NoFault => Done
    case Raise(_, http) => Raised(http)
    case Crash(_) => Crashed
  }

  /** The block stopped at its last write: the new tree is in place, the old one in the backup. */
  lemma {:induction false} StoppedAtLastWrite(dg: Digests, m0: Machine, req: Request, plan: seq<Fault>, n: nat)
    requires Ready(m0) && Commits(m0.disk, m0.tx, req)
    requires 1 <= n <= |plan| && n == BlockCount(m0.tx.existed, m0.tx.receipt.selected)
    requires Clear(plan, n - 1) && !plan[n - 1].NoFault?
    ensures var r := ApplyBlock(dg, m0, req, plan);
            && Installed(m0.disk.trees, r.m.disk.trees, m0.tx, req.tree)
            && r.plan == Rest(plan, n) && r.end == EndOf(plan[n - 1])
            && r.m.tx.existed == m0.tx.existed && r.m.tx.receipt == m0.tx.receipt && r.m.tx.status == Applied
  {
    hide UpToRecord, ApplyBlock, Commits, Ready, UpdateOf;
    var r, r0 := UpToRecord(dg, m0, req, plan), UpToRecord(dg, m0, req, []);
    RecordInStep(dg, m0, req, plan);
    BlockCommitsIff(dg, m0, req);
    BlockIsRecordThenCommit(dg, m0, req, plan);
    BlockIsRecordThenCommit(dg, m0, req, []);
    ApplyBlockStops(dg, m0, req, []);
    SmoothThen(r0, Commit(r0.m.tx.(status := Applied)));
    CutAtCommit(r, r0, plan, n);
  }

  lemma {:induction false} CutAtCommit(r: Res, r0: Res, plan: seq<Fault>, n: nat)
    requires n >= 1 && n <= |plan| && InStep(r, r0, plan, n - 1) && r.end.Done? && !plan[n - 1].NoFault?
    ensures var s := Commit(r.m.tx.(status := Applied));
            && Then(r, s).m == r.m.(tx := r.m.tx.(status := Applied)) && Then(r, s).plan == Rest(plan, n)
            && Then(r, s).end == EndOf(plan[n - 1])
            && Then(r0, s).end.Done? && Then(r0, s).m.disk.trees == r.m.disk.trees
            && Then(r0, s).m.tx == r.m.tx.(status := Applied)
  {
    assert r.plan[0] == plan[n - 1] && r.plan[1..] == Rest(plan, n);
  }

  /** The call cut short at the last write by `faults`: by a crash, or by an exception whose undo
      dies after it removed the new tree. */
  lemma {:induction false} CutShort(dg: Digests, m0: Machine, req: Request, undone: bool)
    requires Ready(m0) && Commits(m0.disk, m0.tx, req) && m0.tx.existed
    ensures var n := BlockCount(m0.tx.existed, m0.tx.receipt.selected);
            var d1 := ApplyOrUndo(dg, m0, req, Faultless(n - 1) + Cut(undone)).disk;
            && At(d1.trees, m0.tx.Dest()) == (if undone then None else Some(req.tree))
            && At(d1.trees, m0.tx.Backup()) == At(m0.disk.trees, m0.tx.Dest())
            && m0.tx.key in d1.journal && InFlight(d1.journal[m0.tx.key].status)
  {
    hide ApplyOrUndo, ApplyBlock, Commits, Ready, Undo, Faultless, BlockCount;
    BlockCut(dg, m0, req, undone);
    var plan := Faultless(BlockCount(m0.tx.existed, m0.tx.receipt.selected) - 1) + Cut(undone);
    EndsInUndo(dg, m0, req, plan);
    var r := ApplyBlock(dg, m0, req, plan);
    if undone { DiesAfterRemoval(r.m); }
  }

  lemma {:induction false} BlockCut(dg: Digests, m0: Machine, req: Request, undone: bool)
    requires Ready(m0) && Commits(m0.disk, m0.tx, req) && m0.tx.existed
    ensures BlockCount(m0.tx.existed, m0.tx.receipt.selected) >= 1
    ensures var plan := Faultless(BlockCount(m0.tx.existed, m0.tx.receipt.selected) - 1) + Cut(undone);
            var r := ApplyBlock(dg, m0, req, plan);
            && Installed(m0.disk.trees, r.m.disk.trees, m0.tx, req.tree)
            && m0.tx.key in r.m.disk.journal && InFlight(r.m.disk.journal[m0.tx.key].status)
            && WellFormed(r.m.tx) && SameTransaction(r.m.tx, m0.tx)
            && r.end == (if undone then Raised(false) else Crashed)
            && r.plan == (if undone then [NoFault, CRASH] else [])
  {
    hide ApplyBlock, Commits, Undoable, Committed, Faultless, Clear, Rest, BlockCount;
    var n := BlockCount(m0.tx.existed, m0.tx.receipt.selected);
    BlockCountPositive(m0.tx.existed, m0.tx.receipt.selected);
    CutPlan(n, undone);
    var plan := Faultless(n - 1) + Cut(undone);
    StoppedAtLastWrite(dg, m0, req, plan, n);
    ApplyBlockStops(dg, m0, req, plan);
    UndoableInFlight(m0, ApplyBlock(dg, m0, req, plan).m);
  }

  lemma {:induction false} EndsInUndo(dg: Digests, m0: Machine, req: Request, plan: seq<Fault>)
    ensures var r, d := ApplyBlock(dg, m0, req, plan), ApplyOrUndo(dg, m0, req, plan).disk;
            d == if r.end.Raised? then Undo(r.m, r.plan).m.disk else r.m.disk
  {
    hide ApplyBlock, Undo;
  }

  lemma {:induction false} CutPlan(n: nat, undone: bool)
    requires n >= 1
    ensures var plan := Faultless(n - 1) + Cut(undone);
            && n <= |plan| && Clear(plan, n - 1)
            && plan[n - 1] == (if undone then RAISE else CRASH)
            && Rest(plan, n) == (if undone then [NoFault, CRASH] else [])
  {
  }

  lemma {:induction false} UndoableInFlight(m0: Machine, m: Machine)
    requires Undoable(m0, m)
    ensures m0.tx.key in m.disk.journal && InFlight(m.disk.journal[m0.tx.key].status) && SameTransaction(m.tx, m0.tx)
  {
  }

  /** The faults from the last journal write on. */
  function Cut(undone: bool): seq<Fault> {
    if undone then [RAISE, NoFault, CRASH] else [CRASH]
  }

  lemma {:induction false} DiesAfterRemoval(m: Machine)
    requires WellFormed(m.tx) && m.tx.existed && m.tx.Backup() in m.disk.trees && m.tx.Dest() in m.disk.trees
    ensures var u := Undo(m, [NoFault, CRASH]);
            u.m == m.(disk := m.disk.(trees := m.disk.trees - {m.tx.Dest()})) && u.end.Crashed?
  {
    var r := UndoDestination(m, [NoFault, CRASH]);
    assert r == Res(m.(disk := m.disk.(trees := m.disk.trees - {m.tx.Dest()})), [], Crashed);
    hide UndoDestination;
  }

  /** A first request over an existing brain stops at its last journal write: the process dies,
      and the new tree is in place; or the write raises and the process dies in the undo, and no
      tree is. The old one is in the backup in either case. Every replay is answered with the
      receipt and no rollback is, and other keys may go on with the brain. */
  lemma {:induction false} StoppedForGood(dg: Digests, d: Disk, req: Request, undone: bool)
    requires Begins(dg, d, req) && WouldCommit(dg, d, req) && HasId(d.registry.brains, req.brain)
    ensures var d1 := Apply(dg, d, req, Faultless(CallCount(d, req) - 1) + Cut(undone)).disk;
            && At(d1.trees, Dest(req.brain)) == (if undone then None else Some(req.tree))
            && At(d1.trees, Backup(req.Id())) == At(d.trees, Dest(req.brain))
            && req.key in d1.journal && InFlight(d1.journal[req.key].status) && Closed(d1, req.key)
            && (forall p :: Apply(dg, d1, req, p) == Call(d1, p, Replied(Opened(req, d).receipt)))
            && (forall rb: RollbackRequest, p :: rb.key == req.key && rb.rollbackKey !in d1.rollbackIdempotency ==>
                  Rollback(dg, d1, rb, p).disk == d1 && Rollback(dg, d1, rb, p).reply.Refused?)
  {
    OpenedFacts(d, req);
    OpenedShape(d, req);
    hide Apply, Rollback, Commits, ApplyOrUndo, Opened, Ready, Recorded, Admits;
    var n := BlockCount(Opened(req, d).existed, Opened(req, d).receipt.selected);
    var plan := Faultless(n + 1) + Cut(undone);
    assert CallCount(d, req) == n + 2;
    var d1 := Apply(dg, d, req, plan).disk;
    BlockCountPositive(Opened(req, d).existed, Opened(req, d).receipt.selected);
    var m0 := OpenedForBlock(dg, d, req, n - 1, Cut(undone));
    CommitsAfterOpen(d, m0, req);
    CutShort(dg, m0, req, undone);
    FirstCallIff(dg, d, req, plan);
    assert Clear(plan, n + 1);
    forall p ensures Apply(dg, d1, req, p) == Call(d1, p, Replied(Opened(req, d).receipt)) {
      RecordedAnswers(dg, d1, req, p);
    }
    forall rb: RollbackRequest, p | rb.key == req.key && rb.rollbackKey !in d1.rollbackIdempotency
      ensures Rollback(dg, d1, rb, p).disk == d1 && Rollback(dg, d1, rb, p).reply.Refused?
    {
      UnappliedRefuses(dg, d1, rb, p);
    }
  }
}
