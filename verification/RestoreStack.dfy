/** Committed restores of one brain form a stack that public rollbacks unwind. */
module RestoreStack {
  import opened Wrappers
  import opened BrainRegistry
  import opened RestoreDisk
  import opened RestoreApply
  import opened RestoreSafety
  import opened RestoreRollback
  import opened RestoreCalls
  import opened RestorePlan

  /** Destination tree and registry between two restores. */
  datatype Level = Level(tree: Tree, registry: Registry)

  predicate OnStack(dg: Digests, d: Disk, brain: string, below: Level, above: Level, key: string) {
    && key in d.journal
    && var tx := d.journal[key];
       && tx.key == key && WellFormed(tx) && tx.receipt.brain == brain && tx.status == Applied && tx.existed
       && At(d.trees, tx.Backup()) == Some(below.tree) && tx.backupDigest == Some(dg.tree(below.tree))
       && tx.appliedDigest == Some(dg.tree(above.tree))
       && tx.originalRegistry == below.registry
       && tx.appliedRegistry == Some(above.registry) && tx.appliedRegistryDigest == Some(dg.registry(above.registry))
  }

  /** `levels[i]` is what `keys[i]` replaced; the last level is what is there now. */
  ghost predicate Stack(dg: Digests, d: Disk, brain: string, levels: seq<Level>, keys: seq<string>) {
    && |levels| == |keys| + 1
    && (forall i, j :: 0 <= i < j < |keys| ==> keys[i] != keys[j])
    && At(d.trees, Dest(brain)) == Some(levels[|keys|].tree) && d.registry == levels[|keys|].registry
    && (forall i :: 0 <= i < |keys| ==> OnStack(dg, d, brain, levels[i], levels[i + 1], keys[i]))
    && (forall k :: k in d.rollbackIdempotency ==> d.rollbackIdempotency[k].key !in keys)
    && (forall p :: p in d.trees && p.RollbackStage? ==> p.rollback.rollbackKey in d.rollbackIdempotency)
  }

  ghost predicate DistinctTrees(dg: Digests, levels: seq<Level>) {
    forall i, j :: 0 <= i < j < |levels| ==> dg.tree(levels[i].tree) != dg.tree(levels[j].tree)
  }

  // ----- Push

  lemma {:induction false} AttemptCommitted(dg: Digests, d: Disk, req: Request, plan: seq<Fault>)
      returns (m0: Machine, m: Machine)
    requires req.key !in d.idempotency && Attempt(dg, d, req, plan).reply.Replied?
    ensures Objection(dg, d, req).None? && OpensOn(d, req, Opened(req, d)) && m0.tx == Opened(req, d)
    ensures StartsFrom(d, m0) && Ready(m0) && m.disk == Attempt(dg, d, req, plan).disk && Committed(dg, m0, m, req)
  {
    hide ApplyBlock, Undo, Open, Committed, Undoable, Opened;
    OpenedOpensOn(dg, d, req);
    var tx := Opened(req, d);
    OpenEnds(d, req, tx, plan);
    var o := Open(req, d, tx, plan);
    ApplyBlockStops(dg, o.m, req, o.plan);
    var r := ApplyBlock(dg, o.m, req, o.plan);
    m0, m := o.m, r.m;
  }

  /** A committed restore over an existing brain pushes one level. */
  lemma {:induction false} CommitPushes(dg: Digests, d: Disk, brain: string, levels: seq<Level>, keys: seq<string>,
      req: Request, plan: seq<Fault>)
    requires Stack(dg, d, brain, levels, keys) && req.brain == brain
    requires req.key !in d.journal && req.key !in d.idempotency
    requires forall k :: k in d.rollbackIdempotency ==> d.rollbackIdempotency[k].key != req.key
    requires Apply(dg, d, req, plan).reply.Replied?
    ensures var d' := Apply(dg, d, req, plan).disk;
            Stack(dg, d', brain, levels + [Level(req.tree, d'.registry)], keys + [req.key])
  {
    assert Dest(brain) in d.trees;
    FirstIsAttempt(dg, d, req, plan);
    OpenedOver(dg, d, req);
    hide Apply, Attempt, ApplyBlock, Stack, Objection, Opened, OpensOn, Ready, Committed;
    var m0, m := AttemptCommitted(dg, d, req, plan);
    Pushed(dg, d, brain, levels, keys, req, m0, m);
  }

  /** A request that is not refused over an existing destination restores a registered brain. */
  lemma {:induction false} OpenedOver(dg: Digests, d: Disk, req: Request)
    ensures var tx := Opened(req, d);
            && tx.key == req.key && tx.receipt.brain == req.brain && tx.originalRegistry == d.registry
            && (Objection(dg, d, req).None? && Dest(req.brain) in d.trees ==> tx.existed)
  {
  }

  lemma {:induction false} Pushed(dg: Digests, d: Disk, brain: string, levels: seq<Level>, keys: seq<string>,
      req: Request, m0: Machine, m: Machine)
    requires Stack(dg, d, brain, levels, keys) && m0.tx.receipt.brain == brain && m0.tx.existed && m0.tx.key == req.key
    requires req.key !in d.journal && forall k :: k in d.rollbackIdempotency ==> d.rollbackIdempotency[k].key != req.key
    requires m0.tx.originalRegistry == d.registry
    requires StartsFrom(d, m0) && Ready(m0) && Committed(dg, m0, m, req)
    ensures Stack(dg, m.disk, brain, levels + [Level(req.tree, m.disk.registry)], keys + [req.key])
  {
    var n, d' := |keys|, m.disk;
    var levels', keys' := levels + [Level(req.tree, d'.registry)], keys + [req.key];
    StandingKeysJournaled(dg, d, brain, levels, keys);
    NewestOnStack(dg, d, brain, levels[n], req, m0, m);
    PushFiles(dg, d, m0, m, req);
    hide OnStack, Committed, Ready, StartsFrom;
    forall i | 0 <= i < n + 1 ensures OnStack(dg, d', brain, levels'[i], levels'[i + 1], keys'[i]) {
      if i < n {
        assert levels'[i] == levels[i] && levels'[i + 1] == levels[i + 1];
        StandsUnder(dg, d, brain, levels[i], levels[i + 1], keys[i], req, m0, m);
      }
    }
  }

  /** What a committed restore leaves of the files and places that the stack reads. */
  lemma {:induction false} PushFiles(dg: Digests, d: Disk, m0: Machine, m: Machine, req: Request)
    requires StartsFrom(d, m0) && WellFormed(m0.tx) && Committed(dg, m0, m, req)
    ensures At(m.disk.trees, m0.tx.Dest()) == Some(req.tree) && m.disk.rollbackIdempotency == d.rollbackIdempotency
    ensures forall p: Place :: p in m.disk.trees && p.RollbackStage? ==> p in d.trees
  {
    hide UpdateOf;
    forall p: Place | p in m.disk.trees && p.RollbackStage? ensures p in d.trees {
      assert At(m0.disk.trees, p) == At(m.disk.trees, p);
    }
  }

  lemma {:induction false} StandsUnder(dg: Digests, d: Disk, brain: string, below: Level, above: Level, k: string,
      req: Request, m0: Machine, m: Machine)
    requires OnStack(dg, d, brain, below, above, k) && k != m0.tx.key
    requires StartsFrom(d, m0) && WellFormed(m0.tx) && Committed(dg, m0, m, req)
    ensures OnStack(dg, m.disk, brain, below, above, k)
  {
    hide UpdateOf;
    var tx := m0.tx;
    assert At(m0.disk.trees, d.journal[k].Backup()) == At(m.disk.trees, d.journal[k].Backup());
    ExceptUpdate(d.journal, tx.key, tx);
    StandsStill(dg, d, m.disk, brain, below, above, k, tx.key);
  }

  /** A key other than the one a call is about stays on the stack. */
  lemma {:induction false} StandsStill(dg: Digests, d: Disk, d': Disk, brain: string, below: Level, above: Level,
      k: string, key: string)
    requires OnStack(dg, d, brain, below, above, k) && k != key && d.journal - {key} == d'.journal - {key}
    requires At(d.trees, d.journal[k].Backup()) == At(d'.trees, d.journal[k].Backup())
    ensures OnStack(dg, d', brain, below, above, k)
  {
    assert k in d.journal - {key} && (d.journal - {key})[k] == (d'.journal - {key})[k];
  }

  lemma {:induction false} NewestOnStack(dg: Digests, d: Disk, brain: string, below: Level, req: Request, m0: Machine,
      m: Machine)
    requires m0.tx.receipt.brain == brain && m0.tx.existed && m0.tx.key == req.key
        && m0.tx.originalRegistry == d.registry
    requires StartsFrom(d, m0) && Ready(m0) && Committed(dg, m0, m, req)
    requires At(d.trees, Dest(brain)) == Some(below.tree) && d.registry == below.registry
    ensures OnStack(dg, m.disk, brain, below, Level(req.tree, m.disk.registry), req.key)
  {
    hide UpdateOf;
    assert At(m0.disk.trees, m0.tx.Dest()) == At(d.trees, m0.tx.Dest());
  }

  // ----- Pop

  /** A rollback that is answered with a receipt has run to its end. */
  lemma {:induction false} AnsweredBlock(dg: Digests, m0: Machine, req: RollbackRequest, receipt: RollbackReceipt,
      plan: seq<Fault>)
    requires Pending(m0, req) && receipt.id == req.Id()
    ensures var call := RollbackOrRevert(dg, m0, req, receipt, plan);
            call.reply.Replied? ==>
              && req.key in call.disk.journal && call.disk.journal[req.key].status == RolledBack
              && req.rollbackKey in call.disk.rollbackIdempotency
              && call.disk.rollbackIdempotency[req.rollbackKey] == req.Fingerprint()
    ensures plan == [] && DigestAt(dg, m0.disk.trees, m0.tx.Backup()) == Some(receipt.restored) ==>
              RollbackOrRevert(dg, m0, req, receipt, plan).reply.Replied?
  {
    hide RollbackBlock, Revert, Cleanup, Revertible;
    RollbackBlockStops(dg, m0, req, receipt, plan);
    var r := RollbackBlock(dg, m0, req, receipt, plan);
    if r.end.Done? { CleanupStops(r, req); }
  }

  lemma {:induction false} AnsweredRollback(dg: Digests, d: Disk, req: RollbackRequest, plan: seq<Fault>)
    requires Acceptable(dg, d, req)
    ensures var call := RollbackAccepted(dg, d, d.journal[req.key], req, plan);
            && RollbackOutcome(d, call.disk, req)
            && (call.reply.Replied? ==>
                && call.disk.journal[req.key].status == RolledBack
                && req.rollbackKey in call.disk.rollbackIdempotency
                && call.disk.rollbackIdempotency[req.rollbackKey] == req.Fingerprint())
            && (plan == [] ==> call.reply.Replied?)
            && (call.reply == Failed(RollbackNotStarted) ==> call.disk == d)
            && !call.reply.Refused?
  {
    hide RollbackOrRevert;
    PendingStart(dg, d, req);
    RollbackStops(dg, d, req, plan);
    var rest := AcceptedRuns(dg, d, req, plan);
    var tx := d.journal[req.key];
    var receipt := RollbackReceipt(req.Id(), tx.receipt.brain, BackupDigest(dg, d, tx));
    AnsweredBlock(dg, PendingMachine(d, req), req, receipt, rest);
    AnsweredBlock(dg, PendingMachine(d, req), req, receipt, []);
    var o := Then(Res(Machine(d, tx), plan, Done), Commit(PendingOf(tx)));
    StartedReplies(dg, o.m, req, receipt, o.plan);
    StartedReplies(dg, PendingMachine(d, req), req, receipt, rest);
  }

  lemma {:induction false} StartedReplies(dg: Digests, m0: Machine, req: RollbackRequest, receipt: RollbackReceipt,
      plan: seq<Fault>)
    ensures var reply := RollbackOrRevert(dg, m0, req, receipt, plan).reply;
            reply != Failed(RollbackNotStarted) && !reply.Refused?
  {
    hide RollbackBlock, Revert, Cleanup, Escalate;
  }

  /** The newest restore's rollback, asked for correctly. */
  ghost predicate AsksNewest(dg: Digests, d: Disk, levels: seq<Level>, keys: seq<string>, req: RollbackRequest) {
    && |levels| == |keys| + 1 && keys != [] && req.key == keys[|keys| - 1]
    && req.rollbackKey !in d.rollbackIdempotency && req.expectedDestination == dg.tree(levels[|keys|].tree)
  }

  lemma {:induction false} NewestIsAcceptable(dg: Digests, d: Disk, brain: string, levels: seq<Level>,
      keys: seq<string>, req: RollbackRequest)
    requires Stack(dg, d, brain, levels, keys) && AsksNewest(dg, d, levels, keys, req)
    ensures Acceptable(dg, d, req)
    ensures forall plan :: Rollback(dg, d, req, plan) == RollbackAccepted(dg, d, d.journal[req.key], req, plan)
  {
    var n := |keys|;
    assert OnStack(dg, d, brain, levels[n - 1], levels[n], req.key);
  }

  /** Rolling back the newest restore, asked for correctly, pops its level when it is answered;
      without faults it is answered. */
  lemma {:induction false} RollbackPops(dg: Digests, d: Disk, brain: string, levels: seq<Level>, keys: seq<string>,
      req: RollbackRequest, plan: seq<Fault>)
    requires Stack(dg, d, brain, levels, keys) && AsksNewest(dg, d, levels, keys, req)
    ensures plan == [] ==> Rollback(dg, d, req, plan).reply.Replied?
    ensures var call := Rollback(dg, d, req, plan);
            call.reply.Replied? ==>
              && Stack(dg, call.disk, brain, levels[..|keys|], keys[..|keys| - 1])
              && forall k :: k in call.disk.rollbackIdempotency ==> k in d.rollbackIdempotency || k == req.rollbackKey
  {
    NewestIsAcceptable(dg, d, brain, levels, keys, req);
    hide Rollback, RollbackAccepted, Stack, Acceptable, RollbackOutcome;
    AnsweredRollback(dg, d, req, plan);
    if Rollback(dg, d, req, plan).reply.Replied? {
      Popped(dg, d, Rollback(dg, d, req, plan).disk, brain, levels, keys, req);
    }
  }

  lemma {:induction false} Popped(dg: Digests, d: Disk, d': Disk, brain: string, levels: seq<Level>, keys: seq<string>,
      req: RollbackRequest)
    requires Stack(dg, d, brain, levels, keys) && keys != [] && req.key == keys[|keys| - 1]
    requires req.key in d.journal && RollbackOutcome(d, d', req) && d'.journal[req.key].status == RolledBack
    requires req.rollbackKey in d'.rollbackIdempotency
    requires d'.rollbackIdempotency[req.rollbackKey] == req.Fingerprint()
    ensures Stack(dg, d', brain, levels[..|keys|], keys[..|keys| - 1])
    ensures forall k :: k in d'.rollbackIdempotency ==> k in d.rollbackIdempotency || k == req.rollbackKey
  {
    var n, tx := |keys|, d.journal[req.key];
    assert OnStack(dg, d, brain, levels[n - 1], levels[n], req.key);
    forall i | 0 <= i < n - 1 ensures OnStack(dg, d', brain, levels[i], levels[i + 1], keys[i]) {
      var k := keys[i];
      assert OnStack(dg, d, brain, levels[i], levels[i + 1], k) && k != req.key;
      assert At(d.trees, d.journal[k].Backup()) == At(d'.trees, d.journal[k].Backup());
      StandsStill(dg, d, d', brain, levels[i], levels[i + 1], k, req.key);
    }
    forall k | k in d'.rollbackIdempotency
      ensures d'.rollbackIdempotency[k].key !in keys[..n - 1] && (k in d.rollbackIdempotency || k == req.rollbackKey)
    {
      if k != req.rollbackKey {
        assert k in d'.rollbackIdempotency - {req.rollbackKey} && k in d.rollbackIdempotency - {req.rollbackKey};
        assert (d.rollbackIdempotency - {req.rollbackKey})[k] == (d'.rollbackIdempotency - {req.rollbackKey})[k];
      }
    }
    forall p: Place | p in d'.trees && p.RollbackStage? ensures p.rollback.rollbackKey in d'.rollbackIdempotency {
      if p != req.Stage() && p.rollback.rollbackKey != req.rollbackKey {
        assert At(d.trees, p) == At(d'.trees, p);
        assert p.rollback.rollbackKey in d.rollbackIdempotency - {req.rollbackKey};
        assert p.rollback.rollbackKey in d'.rollbackIdempotency - {req.rollbackKey};
      }
    }
  }

  /** Rolling back any older restore is refused and changes nothing. */
  lemma {:induction false} OutOfOrderRefused(dg: Digests, d: Disk, brain: string, levels: seq<Level>, keys: seq<string>,
      i: nat, req: RollbackRequest, plan: seq<Fault>)
    requires Stack(dg, d, brain, levels, keys) && DistinctTrees(dg, levels)
    requires i < |keys| - 1 && req.key == keys[i]
    ensures var call := Rollback(dg, d, req, plan);
            call.reply.Refused? && call.disk == d
  {
    assert OnStack(dg, d, brain, levels[i], levels[i + 1], req.key);
    assert dg.tree(levels[i + 1].tree) != dg.tree(levels[|keys|].tree);
    if req.rollbackKey in d.rollbackIdempotency {
      assert d.rollbackIdempotency[req.rollbackKey].key !in keys;
    }
  }

  /** And so is any other request to roll a standing restore back that does not ask correctly for
      the newest: the rollback key was used before, or the expected digest is not the newest's. */
  lemma {:induction false} MisaskedRefused(dg: Digests, d: Disk, brain: string, levels: seq<Level>, keys: seq<string>,
      req: RollbackRequest, plan: seq<Fault>)
    requires Stack(dg, d, brain, levels, keys) && DistinctTrees(dg, levels)
    requires req.key in keys && !AsksNewest(dg, d, levels, keys, req)
    ensures var call := Rollback(dg, d, req, plan);
            call.reply.Refused? && call.disk == d
  {
    var i :| 0 <= i < |keys| && keys[i] == req.key;
    if i < |keys| - 1 {
      hide Rollback, Stack;
      OutOfOrderRefused(dg, d, brain, levels, keys, i, req, plan);
    } else {
      assert OnStack(dg, d, brain, levels[i], levels[i + 1], req.key);
      if req.rollbackKey in d.rollbackIdempotency { assert d.rollbackIdempotency[req.rollbackKey].key !in keys; }
    }
  }

  // ----- Unwinding

  function RollbackAll(dg: Digests, d: Disk, reqs: seq<RollbackRequest>): Disk
    decreases |reqs|
  {
    if reqs == [] then d else RollbackAll(dg, Rollback(dg, d, reqs[0], []).disk, reqs[1..])
  }

  /** The requests name the restores from the newest down, each with a new rollback key and
      the digest of the tree it installed. */
  ghost predicate NewestFirst(dg: Digests, d: Disk, levels: seq<Level>, keys: seq<string>, reqs: seq<RollbackRequest>) {
    && |reqs| <= |keys| < |levels|
    && (forall j {:trigger reqs[j]} :: 0 <= j < |reqs| ==>
          && reqs[j].key == keys[|keys| - 1 - j]
          && reqs[j].expectedDestination == dg.tree(levels[|keys| - j].tree)
          && reqs[j].rollbackKey !in d.rollbackIdempotency)
    && (forall i, j :: 0 <= i < j < |reqs| ==> reqs[i].rollbackKey != reqs[j].rollbackKey)
  }

  lemma {:induction false} PrefixOfPrefix<T>(s: seq<T>, n: nat, k: nat)
    requires k <= n <= |s|
    ensures s[..n][..k] == s[..k]
  {
  }

  lemma {:induction false} NextNewest(dg: Digests, d: Disk, d1: Disk, levels: seq<Level>, keys: seq<string>,
      reqs: seq<RollbackRequest>)
    requires |levels| == |keys| + 1 && reqs != [] && keys != [] && NewestFirst(dg, d, levels, keys, reqs)
    requires forall k :: k in d1.rollbackIdempotency ==> k in d.rollbackIdempotency || k == reqs[0].rollbackKey
    ensures NewestFirst(dg, d1, levels[..|keys|], keys[..|keys| - 1], reqs[1..])
  {
    var rest := reqs[1..];
    forall j {:trigger rest[j]} | 0 <= j < |rest|
      ensures rest[j].key == keys[..|keys| - 1][|keys| - 2 - j]
      ensures rest[j].expectedDestination == dg.tree(levels[..|keys|][|keys| - 1 - j].tree)
      ensures rest[j].rollbackKey !in d1.rollbackIdempotency
    {
      assert rest[j] == reqs[j + 1];
    }
  }

  /** Rolling back the newest k restores gives exactly the destination and the registry from
      before them, and leaves the rest of the stack standing. */
  lemma {:induction false} UnwindNewest(dg: Digests, d: Disk, brain: string, levels: seq<Level>, keys: seq<string>,
      reqs: seq<RollbackRequest>)
    requires Stack(dg, d, brain, levels, keys) && NewestFirst(dg, d, levels, keys, reqs)
    ensures var d', k := RollbackAll(dg, d, reqs), |keys| - |reqs|;
            && Stack(dg, d', brain, levels[..k + 1], keys[..k])
            && At(d'.trees, Dest(brain)) == Some(levels[k].tree) && d'.registry == levels[k].registry
    decreases |reqs|
  {
    hide Rollback, Stack, NewestFirst;
    var n, k := |keys|, |keys| - |reqs|;
    StackSizes(dg, d, brain, levels, keys, reqs);
    if reqs == [] {
      assert levels[..n + 1] == levels && keys[..n] == keys;
    } else {
      var d1 := Rollback(dg, d, reqs[0], []).disk;
      RollbackPops(dg, d, brain, levels, keys, reqs[0], []);
      NextNewest(dg, d, d1, levels, keys, reqs);
      UnwindNewest(dg, d1, brain, levels[..n], keys[..n - 1], reqs[1..]);
      PrefixOfPrefix(levels, n, k + 1);
      PrefixOfPrefix(keys, n - 1, k);
    }
  }

  lemma {:induction false} StackSizes(dg: Digests, d: Disk, brain: string, levels: seq<Level>, keys: seq<string>,
      reqs: seq<RollbackRequest>)
    requires Stack(dg, d, brain, levels, keys) && NewestFirst(dg, d, levels, keys, reqs)
    ensures |levels| == |keys| + 1 && |reqs| <= |keys|
    ensures At(d.trees, Dest(brain)) == Some(levels[|keys|].tree) && d.registry == levels[|keys|].registry
    ensures reqs != [] ==> reqs[0].key == keys[|keys| - 1] && reqs[0].rollbackKey !in d.rollbackIdempotency
                           && reqs[0].expectedDestination == dg.tree(levels[|keys|].tree)
  {
  }

  // ----- Calls that leave the stack as it is

  /** The call came back, and what it began is finished or undone. */
  predicate RestoreEnded(reply: Reply<Receipt>) {
    reply.Replied? || reply.Refused?
    || (reply.Failed? && reply.why in {NotStarted, ApplyError, ApplyFailedRolledBack})
  }

  predicate RollbackEnded(reply: Reply<RollbackReceipt>) {
    reply.Replied? || reply.Refused? || (reply.Failed? && reply.why in {RollbackNotStarted, RollbackFailedReverted})
  }

  lemma {:induction false} UnansweredBlock(dg: Digests, m0: Machine, req: Request, plan: seq<Fault>)
    requires Ready(m0) && m0.tx.receipt.id == req.Id()
    ensures var call := ApplyOrUndo(dg, m0, req, plan);
            !call.reply.Replied? && RestoreEnded(call.reply) ==>
              m0.tx.key in call.disk.journal && call.disk.journal[m0.tx.key].status == ApplyRolledBack
    ensures plan == [] ==> RestoreEnded(ApplyOrUndo(dg, m0, req, plan).reply)
  {
    hide ApplyBlock, Undo, Ready;
    var r := ApplyBlock(dg, m0, req, plan);
    if r.end.Raised? { ApplyFailureIsAtomic(dg, m0, req, plan); }
    if plan == [] { SmoothBlockEnd(dg, m0, req); }
  }

  lemma {:induction false} SmoothBlockEnd(dg: Digests, m0: Machine, req: Request)
    ensures ApplyBlock(dg, m0, req, []).plan == [] && !ApplyBlock(dg, m0, req, []).end.Crashed?
  {
    SmoothEnds(dg, m0, req);
  }

  /** An attempt that ended unanswered was undone or not begun. */
  lemma {:induction false} UnansweredAttempt(dg: Digests, d: Disk, req: Request, plan: seq<Fault>)
    requires req.key !in d.idempotency
    ensures var call := Attempt(dg, d, req, plan);
            !call.reply.Replied? && RestoreEnded(call.reply) ==>
              || call.disk.journal == d.journal
              || (req.key in call.disk.journal && call.disk.journal[req.key].status == ApplyRolledBack)
    ensures plan == [] ==> RestoreEnded(Attempt(dg, d, req, plan).reply)
  {
    hide ApplyOrUndo, Open, Ready;
    if Objection(dg, d, req).None? {
      OpenedOpensOn(dg, d, req);
      var tx := Opened(req, d);
      OpenEnds(d, req, tx, plan);
      OpenStops(req, d, tx, plan);
      var o := Open(req, d, tx, plan);
      if o.end.Done? { UnansweredBlock(dg, o.m, req, o.plan); }
      if plan == [] { SmoothOpen(req, d, tx); }
    }
  }

  lemma {:induction false} StackUntouched(dg: Digests, d: Disk, d': Disk, brain: string, levels: seq<Level>,
      keys: seq<string>, tx: Transaction)
    requires Stack(dg, d, brain, levels, keys) && tx.key !in keys && WellFormed(tx)
    requires OnlyOwnFiles(d, d', tx) && d'.registry == d.registry
    requires forall p: Place :: p != tx.stage ==> At(d'.trees, p) == At(d.trees, p)
    ensures Stack(dg, d', brain, levels, keys)
  {
    forall i | 0 <= i < |keys| ensures OnStack(dg, d', brain, levels[i], levels[i + 1], keys[i]) {
      var k := keys[i];
      assert OnStack(dg, d, brain, levels[i], levels[i + 1], k);
      assert At(d'.trees, d.journal[k].Backup()) == At(d.trees, d.journal[k].Backup());
      StandsStill(dg, d, d', brain, levels[i], levels[i + 1], k, tx.key);
    }
    assert At(d'.trees, Dest(brain)) == At(d.trees, Dest(brain));
    forall p: Place | p in d'.trees && p.RollbackStage? ensures p.rollback.rollbackKey in d'.rollbackIdempotency {
      assert At(d'.trees, p) == At(d.trees, p);
    }
  }

  lemma {:induction false} StandingKeysJournaled(dg: Digests, d: Disk, brain: string, levels: seq<Level>,
      keys: seq<string>)
    requires Stack(dg, d, brain, levels, keys)
    ensures forall k :: k in keys ==> k in d.journal
  {
    forall k | k in keys ensures k in d.journal {
      var i :| 0 <= i < |keys| && keys[i] == k;
      assert OnStack(dg, d, brain, levels[i], levels[i + 1], keys[i]);
    }
  }

  /** A first request that ended unanswered leaves the stack standing. */
  lemma {:induction false} UnansweredRestoreStays(dg: Digests, d: Disk, brain: string, levels: seq<Level>,
      keys: seq<string>, req: Request, plan: seq<Fault>)
    requires Stack(dg, d, brain, levels, keys) && req.key !in d.journal && req.key !in d.idempotency
    requires var reply := Apply(dg, d, req, plan).reply; !reply.Replied? && RestoreEnded(reply)
    ensures Stack(dg, Apply(dg, d, req, plan).disk, brain, levels, keys)
  {
    FirstIsAttempt(dg, d, req, plan);
    hide Apply, Attempt, Objection, Stack;
    UnansweredAttempt(dg, d, req, plan);
    AttemptStops(dg, d, req, plan);
    StandingKeysJournaled(dg, d, brain, levels, keys);
    var tx, d' := Opened(req, d), Attempt(dg, d, req, plan).disk;
    UndoneTrees(d, d', tx, req);
    StackUntouched(dg, d, d', brain, levels, keys, tx);
  }

  lemma {:induction false} UndoneTrees(d: Disk, d': Disk, tx: Transaction, req: Request)
    requires AttemptDisk(d, d', tx, req.tree) && tx.key == req.key && req.key !in d.journal
    requires d'.journal == d.journal || (req.key in d'.journal && d'.journal[req.key].status == ApplyRolledBack)
    ensures d'.registry == d.registry && forall p: Place :: p != tx.stage ==> At(d'.trees, p) == At(d.trees, p)
  {
  }

  lemma {:induction false} FirstIsAttempt(dg: Digests, d: Disk, req: Request, plan: seq<Fault>)
    requires req.key !in d.journal && req.key !in d.idempotency
    ensures Apply(dg, d, req, plan) == Attempt(dg, d, req, plan)
  {
  }

  /** A rollback of the newest restore that ended unanswered leaves the stack standing. */
  lemma {:induction false} UnansweredRollbackStays(dg: Digests, d: Disk, brain: string, levels: seq<Level>,
      keys: seq<string>, req: RollbackRequest, plan: seq<Fault>)
    requires Stack(dg, d, brain, levels, keys) && AsksNewest(dg, d, levels, keys, req)
    requires var reply := Rollback(dg, d, req, plan).reply; !reply.Replied? && RollbackEnded(reply)
    ensures Stack(dg, Rollback(dg, d, req, plan).disk, brain, levels, keys)
  {
    NewestIsAcceptable(dg, d, brain, levels, keys, req);
    hide Rollback, RollbackAccepted, Acceptable, Stack, AsksNewest, RollbackOutcome;
    AnsweredRollback(dg, d, req, plan);
    if Rollback(dg, d, req, plan).disk != d { RevertedRollbackStays(dg, d, brain, levels, keys, req, plan); }
  }

  lemma {:induction false} RevertedRollbackStays(dg: Digests, d: Disk, brain: string, levels: seq<Level>,
      keys: seq<string>, req: RollbackRequest, plan: seq<Fault>)
    requires Stack(dg, d, brain, levels, keys) && AsksNewest(dg, d, levels, keys, req) && Acceptable(dg, d, req)
    requires RollbackAccepted(dg, d, d.journal[req.key], req, plan).reply == Failed(RollbackFailedReverted)
    ensures Stack(dg, RollbackAccepted(dg, d, d.journal[req.key], req, plan).disk, brain, levels, keys)
  {
    assert OnStack(dg, d, brain, levels[|keys| - 1], levels[|keys|], req.key);
    assert Some(d.registry) == d.journal[req.key].appliedRegistry;
    hide RollbackAccepted, Acceptable, Stack, AsksNewest;
    FailedRollbackNeverHappened(dg, d, req, plan);
    var d' := RollbackAccepted(dg, d, d.journal[req.key], req, plan).disk;
    SameRestoreStays(dg, d, d', brain, levels, keys, req.key);
  }

  lemma {:induction false} SameRestoreStays(dg: Digests, d: Disk, d': Disk, brain: string, levels: seq<Level>,
      keys: seq<string>, key: string)
    requires Stack(dg, d, brain, levels, keys) && key in d.journal && key in d'.journal
    requires d'.trees == d.trees && d'.registry == d.registry && d'.rollbackIdempotency == d.rollbackIdempotency
    requires d'.journal - {key} == d.journal - {key}
    requires SameRestore(d'.journal[key], d.journal[key]) && d'.journal[key].status == Applied
    ensures Stack(dg, d', brain, levels, keys)
  {
    forall i | 0 <= i < |keys| ensures OnStack(dg, d', brain, levels[i], levels[i + 1], keys[i]) {
      var k := keys[i];
      assert OnStack(dg, d, brain, levels[i], levels[i + 1], k);
      if k != key { StandsStill(dg, d, d', brain, levels[i], levels[i + 1], k, key); }
    }
  }

  // ----- Runs of restores and rollbacks on one brain

  datatype StackOp = Restore(request: Request, plan: seq<Fault>) | Retract(rollback: RollbackRequest, plan: seq<Fault>)

  /** The restore is a new one whose tree has a new digest; the rollback names a standing restore,
      with any rollback key and any expected digest. Whatever the faults, the call comes back with
      what it began finished or undone. */
  ghost predicate Sensible(dg: Digests, d: Disk, brain: string, levels: seq<Level>, keys: seq<string>, op: StackOp)
    requires |levels| == |keys| + 1
  {
    match op
    case Restore(req, plan) =>
      && req.brain == brain && req.key !in d.journal && req.key !in d.idempotency
      && (forall k :: k in d.rollbackIdempotency ==> d.rollbackIdempotency[k].key != req.key)
      && (forall i :: 0 <= i < |levels| ==> dg.tree(levels[i].tree) != dg.tree(req.tree))
      && (plan != [] ==> RestoreEnded(Apply(dg, d, req, plan).reply))
    case Retract(req, plan) =>
      && req.key in keys
      && (plan != [] ==> RollbackEnded(Rollback(dg, d, req, plan).reply))
  }

  function StepOp(dg: Digests, d: Disk, op: StackOp): Disk {
    match op
    case Restore(req, plan) => Apply(dg, d, req, plan).disk
    case Retract(req, plan) => Rollback(dg, d, req, plan).disk
  }

  predicate Answered(dg: Digests, d: Disk, op: StackOp) {
    match op
    case Restore(req, plan) => Apply(dg, d, req, plan).reply.Replied?
    case Retract(req, plan) => Rollback(dg, d, req, plan).reply.Replied?
  }

  /** The stack machine: an answered restore pushes, an answered rollback pops, and a call that is
      not answered does nothing. */
  function Abstract(levels: seq<Level>, keys: seq<string>, op: StackOp, answered: bool, registry: Registry)
      : (seq<Level>, seq<string>)
    requires |levels| == |keys| + 1
  {
    if !answered then (levels, keys)
    else
      match op
      case Restore(req, _) => (levels + [Level(req.tree, registry)], keys + [req.key])
      case Retract(_, _) => if keys == [] then (levels, keys) else (levels[..|keys|], keys[..|keys| - 1])
  }

  /** One call on the disk is one step of the stack machine. Only the newest standing restore's
      rollback, asked for correctly, can be answered, and without faults it is; any other leaves
      the disk as it is. Without faults a restore is answered exactly when its conditions hold
      beforehand. */
  lemma {:induction false} DiskRefinesStack(dg: Digests, d: Disk, brain: string, levels: seq<Level>, keys: seq<string>,
      op: StackOp)
    requires Stack(dg, d, brain, levels, keys) && DistinctTrees(dg, levels)
    requires Sensible(dg, d, brain, levels, keys, op)
    ensures var d', answered := StepOp(dg, d, op), Answered(dg, d, op);
            var (levels', keys') := Abstract(levels, keys, op, answered, d'.registry);
            Stack(dg, d', brain, levels', keys') && DistinctTrees(dg, levels')
    ensures op.Restore? && op.plan == [] ==> (Answered(dg, d, op) <==> WouldCommit(dg, d, op.request))
    ensures op.Retract? && Answered(dg, d, op) ==> AsksNewest(dg, d, levels, keys, op.rollback)
    ensures op.Retract? && op.plan == [] ==> (Answered(dg, d, op) <==> AsksNewest(dg, d, levels, keys, op.rollback))
    ensures op.Retract? && !AsksNewest(dg, d, levels, keys, op.rollback) ==> StepOp(dg, d, op) == d
  {
    StackLengths(dg, d, brain, levels, keys);
    hide Apply, Rollback, WouldCommit, Stack, RestoreEnded, RollbackEnded;
    match op
    case Restore(req, plan) => RestoreRefines(dg, d, brain, levels, keys, req, plan);
    case Retract(req, plan) =>
      if AsksNewest(dg, d, levels, keys, req) {
        RollbackPops(dg, d, brain, levels, keys, req, plan);
        if !Answered(dg, d, op) { UnansweredRollbackStays(dg, d, brain, levels, keys, req, plan); }
      } else {
        MisaskedRefused(dg, d, brain, levels, keys, req, plan);
      }
  }

  lemma {:induction false} RestoreRefines(dg: Digests, d: Disk, brain: string, levels: seq<Level>, keys: seq<string>,
      req: Request, plan: seq<Fault>)
    requires Stack(dg, d, brain, levels, keys) && DistinctTrees(dg, levels)
    requires |levels| == |keys| + 1 && Sensible(dg, d, brain, levels, keys, Restore(req, plan))
    ensures var call := Apply(dg, d, req, plan);
            var pushed := levels + [Level(req.tree, call.disk.registry)];
            if call.reply.Replied? then
                Stack(dg, call.disk, brain, pushed, keys + [req.key]) && DistinctTrees(dg, pushed)
            else Stack(dg, call.disk, brain, levels, keys)
    ensures plan == [] ==> (Apply(dg, d, req, plan).reply.Replied? <==> WouldCommit(dg, d, req))
  {
    FirstIsAttempt(dg, d, req, plan);
    DistinctPushed(dg, levels, Level(req.tree, Apply(dg, d, req, plan).disk.registry));
    hide Apply, Attempt, WouldCommit, Stack, RestoreEnded, DistinctTrees;
    if plan == [] { FirstApplyCommitsIff(dg, d, req); }
    if Apply(dg, d, req, plan).reply.Replied? {
      CommitPushes(dg, d, brain, levels, keys, req, plan);
    } else {
      if plan == [] { UnansweredAttempt(dg, d, req, plan); }
      UnansweredRestoreStays(dg, d, brain, levels, keys, req, plan);
    }
  }

  lemma {:induction false} DistinctPushed(dg: Digests, levels: seq<Level>, level: Level)
    requires DistinctTrees(dg, levels)
    requires forall i :: 0 <= i < |levels| ==> dg.tree(levels[i].tree) != dg.tree(level.tree)
    ensures DistinctTrees(dg, levels + [level])
  {
  }

  ghost predicate SensibleRun(dg: Digests, d: Disk, brain: string, levels: seq<Level>, keys: seq<string>,
      ops: seq<StackOp>)
    requires |levels| == |keys| + 1
    decreases |ops|
  {
    ops != [] ==>
      && Sensible(dg, d, brain, levels, keys, ops[0])
      && var d' := StepOp(dg, d, ops[0]);
         var (levels', keys') := Abstract(levels, keys, ops[0], Answered(dg, d, ops[0]), d'.registry);
         SensibleRun(dg, d', brain, levels', keys', ops[1..])
  }

  function RunOps(dg: Digests, d: Disk, ops: seq<StackOp>): Disk
    decreases |ops|
  {
    if ops == [] then d else RunOps(dg, StepOp(dg, d, ops[0]), ops[1..])
  }

  function AbstractRun(dg: Digests, d: Disk, levels: seq<Level>, keys: seq<string>, ops: seq<StackOp>)
      : (seq<Level>, seq<string>)
    requires |levels| == |keys| + 1
    decreases |ops|
  {
    if ops == [] then (levels, keys)
    else
      var d' := StepOp(dg, d, ops[0]);
      var (levels', keys') := Abstract(levels, keys, ops[0], Answered(dg, d, ops[0]), d'.registry);
      AbstractRun(dg, d', levels', keys', ops[1..])
  }

  /** Over any run of new restores and rollback requests, in any order and with any faults that
      leave each call finished or undone, the disk is where the stack machine says: destination
      and registry are those of its top level, and every standing restore still has what it
      replaced. */
  lemma {:induction false} RunRefinesStack(dg: Digests, d: Disk, brain: string, levels: seq<Level>, keys: seq<string>,
      ops: seq<StackOp>)
    requires Stack(dg, d, brain, levels, keys) && DistinctTrees(dg, levels)
    requires SensibleRun(dg, d, brain, levels, keys, ops)
    ensures var (levels', keys') := AbstractRun(dg, d, levels, keys, ops);
            Stack(dg, RunOps(dg, d, ops), brain, levels', keys') && DistinctTrees(dg, levels')
    decreases |ops|
  {
    hide StepOp, Answered, Stack, DistinctTrees, Sensible;
    if ops != [] {
      StackLengths(dg, d, brain, levels, keys);
      DiskRefinesStack(dg, d, brain, levels, keys, ops[0]);
      var d' := StepOp(dg, d, ops[0]);
      var (levels', keys') := Abstract(levels, keys, ops[0], Answered(dg, d, ops[0]), d'.registry);
      RunRefinesStack(dg, d', brain, levels', keys', ops[1..]);
    }
  }

  lemma {:induction false} StackLengths(dg: Digests, d: Disk, brain: string, levels: seq<Level>, keys: seq<string>)
    requires Stack(dg, d, brain, levels, keys)
    ensures |levels| == |keys| + 1
  {
  }
}
