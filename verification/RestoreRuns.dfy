/** Whole runs: any number of apply and rollback calls on any keys, each cut short anywhere. */
module RestoreRuns {
  import opened Wrappers
  import opened BrainRegistry
  import opened RestoreDisk
  import opened RestoreApply
  import opened RestoreSafety
  import opened RestoreRollback
  import opened RestoreCalls

  datatype Event =
    | ApplyCall(apply: Request, plan: seq<Fault>)
    | RollbackCall(rollback: RollbackRequest, plan: seq<Fault>)

  function Do(dg: Digests, d: Disk, e: Event): Disk {
    match e
    case ApplyCall(req, plan) => Apply(dg, d, req, plan).disk
    case RollbackCall(req, plan) => Rollback(dg, d, req, plan).disk
  }

  function DoAll(dg: Digests, d: Disk, events: seq<Event>): Disk
    decreases |events|
  {
    if events == [] then d else DoAll(dg, Do(dg, d, events[0]), events[1..])
  }

  // ----- The original tree of each key

  /** The tree each journaled key found at its destination when its last attempt began. */
  type Origins = map<string, Option<Tree>>

  /** The disk on which the call begins a fresh attempt, if it gets there. */
  function AttemptStart(dg: Digests, d: Disk, req: Request, plan: seq<Fault>): Option<Disk> {
    match ReplayOf(d, req)
    case Fresh => Some(d)
    case Recover =>
      var u := Undo(Machine(d, d.journal[req.key]), plan);
      if u.end.Done? then Some(u.m.disk) else None
    case _ => None
  }

  function OriginsAfter(dg: Digests, d: Disk, origins: Origins, e: Event): Origins {
    match e
    case RollbackCall(_, _) => origins
    case ApplyCall(req, plan) =>
      var start := AttemptStart(dg, d, req, plan);
      if start.Some? then origins[req.key := At(start.value.trees, Dest(req.brain))] else origins
  }

  // ----- The invariant

  predicate Settled(status: Status) {
    status in {Applied, ApplyRolledBack, RolledBack}
  }

  /** Nothing more happens to the key unless its rollback is asked for: its status says so, or its
      idempotency record is there, so that its replays are answered and never recover it. */
  predicate Closed(d: Disk, key: string)
    requires key in d.journal
  {
    Settled(d.journal[key].status) || (InFlight(d.journal[key].status) && key in d.idempotency)
  }

  /** Where the original tree of one key is, by the status of its journal record and by whether it
      has an idempotency record. */
  predicate KeySafe(trees: Trees, tx: Transaction, original: Option<Tree>, recorded: bool) {
    match tx.status
    case Applied => Kept(original, trees, tx) && (tx.existed ==> tx.Backup() in trees)
    case ApplyRolledBack => tx.Backup() !in trees
    case RolledBack => tx.Backup() !in trees
    case status =>
      if recorded && InFlight(status) then tx.Backup() in trees ==> tx.existed && At(trees, tx.Backup()) == original
      else Kept(original, trees, tx)
  }

  predicate Answered(d: Disk, tx: Transaction) {
    && tx.key in d.idempotency && d.idempotency[tx.key] == tx.fingerprint
    && tx.receipt.id in d.receipts && d.receipts[tx.receipt.id] == tx.receipt
  }

  predicate Journaled(d: Disk, key: string, origins: Origins)
    requires key in d.journal
  {
    var tx := d.journal[key];
    && tx.key == key && WellFormed(tx)
    && key in origins && KeySafe(d.trees, tx, origins[key], key in d.idempotency)
    && (key in d.idempotency ==> Answered(d, tx))
    && (tx.status in {Applied, RollbackPending, RolledBack, RollbackRecoveryRequired} ==> Answered(d, tx))
  }

  /** Every journaled key is safe. */
  ghost predicate World(d: Disk, origins: Origins) {
    forall key :: key in d.journal ==> Journaled(d, key, origins)
  }

  /** No other key is in the middle of something on this brain: an interrupted key whose replay
      is not answered is recovered before another key touches its destination. */
  ghost predicate Alone(d: Disk, key: string, brain: string) {
    forall k :: k in d.journal && k != key && d.journal[k].receipt.brain == brain ==> Closed(d, k)
  }

  ghost predicate Disciplined(d: Disk, e: Event) {
    match e
    case ApplyCall(req, _) => Alone(d, req.key, req.brain)
    case RollbackCall(req, _) => req.key in d.journal ==> Alone(d, req.key, d.journal[req.key].receipt.brain)
  }

  ghost predicate DisciplinedRun(dg: Digests, d: Disk, events: seq<Event>)
    decreases |events|
  {
    events != [] ==> Disciplined(d, events[0]) && DisciplinedRun(dg, Do(dg, d, events[0]), events[1..])
  }

  function OriginsAfterAll(dg: Digests, d: Disk, origins: Origins, events: seq<Event>): Origins
    decreases |events|
  {
    if events == [] then origins
    else OriginsAfterAll(dg, Do(dg, d, events[0]), OriginsAfter(dg, d, origins, events[0]), events[1..])
  }

  // ----- Other keys

  /** The scratch places of one key. */
  predicate Scratch(p: Place, key: string) {
    (p.Stage? && p.receipt.key == key) || (p.RollbackStage? && p.rollback.key == key)
  }

  /** A call on one key moves trees only at its destination, its backup and its scratch places. */
  ghost predicate TouchesOnly(before: Trees, after: Trees, brain: string, id: ReceiptId) {
    forall p: Place :: p != Dest(brain) && p != Backup(id) && !Scratch(p, id.key) ==> At(before, p) == At(after, p)
  }

  ghost predicate TouchesKey(before: Disk, after: Disk, key: string) {
    && before.journal - {key} == after.journal - {key}
    && before.idempotency - {key} == after.idempotency - {key}
    && (forall id: ReceiptId :: id.key != key ==> (id in before.receipts <==> id in after.receipts))
    && (forall id: ReceiptId :: id.key != key && id in before.receipts && id in after.receipts ==>
        before.receipts[id] == after.receipts[id])
  }

  lemma {:induction false} OtherKeySafe(before: Trees, after: Trees, brain: string, id: ReceiptId, tx: Transaction,
      original: Option<Tree>, recorded: bool)
    requires TouchesOnly(before, after, brain, id) && WellFormed(tx) && tx.key != id.key
    requires !Settled(tx.status) && !(InFlight(tx.status) && recorded) ==> tx.receipt.brain != brain
    requires KeySafe(before, tx, original, recorded)
    ensures KeySafe(after, tx, original, recorded)
  {
    assert At(before, tx.Backup()) == At(after, tx.Backup());
    if tx.receipt.brain != brain { assert At(before, tx.Dest()) == At(after, tx.Dest()); }
  }

  lemma {:induction false} OthersStay(d: Disk, d': Disk, key: string, brain: string, id: ReceiptId, origins: Origins,
      origins': Origins)
    requires World(d, origins) && Alone(d, key, brain) && id.key == key
    requires TouchesOnly(d.trees, d'.trees, brain, id) && TouchesKey(d, d', key)
    requires forall k :: k != key && k in origins ==> k in origins' && origins'[k] == origins[k]
    ensures forall k :: k in d'.journal && k != key ==> Journaled(d', k, origins')
    ensures Alone(d', key, brain)
  {
    forall k | k in d'.journal && k != key
      ensures Journaled(d', k, origins') && k in d.journal && d.journal[k] == d'.journal[k]
      ensures k in d.idempotency <==> k in d'.idempotency
    {
      assert k in d'.journal - {key} && k in d.journal - {key};
      assert (d.journal - {key})[k] == (d'.journal - {key})[k];
      var tx := d.journal[k];
      assert Journaled(d, k, origins);
      OtherKeySafe(d.trees, d'.trees, brain, id, tx, origins[k], k in d.idempotency);
      assert k in d.idempotency <==> k in d.idempotency - {key};
      assert k in d'.idempotency <==> k in d'.idempotency - {key};
      if k in d.idempotency {
        assert (d.idempotency - {key})[k] == (d'.idempotency - {key})[k];
        assert Answered(d', tx);
      }
    }
  }

  // ----- Apply

  lemma {:induction false} OwnPlacesTouch(before: Disk, after: Disk, tx: Transaction)
    requires WellFormed(tx) && OnlyOwnPlaces(before.trees, after.trees, tx)
    ensures TouchesOnly(before.trees, after.trees, tx.receipt.brain, tx.receipt.id)
  {
  }

  lemma {:induction false} OwnFilesTouch(before: Disk, after: Disk, tx: Transaction)
    requires WellFormed(tx) && OnlyOwnFiles(before, after, tx)
    ensures TouchesKey(before, after, tx.key)
  {
    forall id: ReceiptId | id.key != tx.key
      ensures id in before.receipts <==> id in after.receipts
      ensures id in before.receipts && id in after.receipts ==> before.receipts[id] == after.receipts[id]
    {
      assert id in before.receipts - {tx.receipt.id} <==> id in before.receipts;
      assert id in after.receipts - {tx.receipt.id} <==> id in after.receipts;
      if id in before.receipts {
        assert (before.receipts - {tx.receipt.id})[id] == (after.receipts - {tx.receipt.id})[id];
      }
    }
  }

  lemma {:induction false} OwnKeyAfterAttempt(d: Disk, d': Disk, tx: Transaction, tree: Tree, origins: Origins,
      origins': Origins)
    requires World(d, origins) && WellFormed(tx) && AttemptDisk(d, d', tx, tree) && tx.key !in d.idempotency
    requires tx.key in d.journal ==>
        d.journal[tx.key].status == ApplyRolledBack && d.journal[tx.key].receipt.id == tx.receipt.id
    requires tx.key in origins' && origins'[tx.key] == At(d.trees, tx.Dest())
    ensures tx.key in d'.journal ==> Journaled(d', tx.key, origins')
  {
    if tx.key in d'.journal {
      if d'.journal == d.journal {
        assert Journaled(d, tx.key, origins);
        assert At(d'.trees, tx.Backup()) == At(d.trees, tx.Backup());
      }
    }
  }

  lemma {:induction false} AttemptDiskKeepsWorld(d: Disk, d': Disk, tx: Transaction, tree: Tree, origins: Origins)
    requires World(d, origins) && Alone(d, tx.key, tx.receipt.brain) && tx.key !in d.idempotency
    requires WellFormed(tx) && AttemptDisk(d, d', tx, tree)
    requires tx.key in d.journal ==>
        d.journal[tx.key].status == ApplyRolledBack && d.journal[tx.key].receipt.id == tx.receipt.id
    ensures World(d', origins[tx.key := At(d.trees, tx.Dest())])
  {
    var origins' := origins[tx.key := At(d.trees, tx.Dest())];
    OwnPlacesTouch(d, d', tx);
    OwnFilesTouch(d, d', tx);
    OthersStay(d, d', tx.key, tx.receipt.brain, tx.receipt.id, origins, origins');
    OwnKeyAfterAttempt(d, d', tx, tree, origins, origins');
  }

  lemma {:induction false} AttemptKeepsWorld(dg: Digests, d: Disk, origins: Origins, req: Request, plan: seq<Fault>)
    requires World(d, origins) && Alone(d, req.key, req.brain) && req.key !in d.idempotency
    requires req.key in d.journal ==>
        d.journal[req.key].status == ApplyRolledBack && d.journal[req.key].receipt.id == req.Id()
    ensures World(Attempt(dg, d, req, plan).disk, origins[req.key := At(d.trees, Dest(req.brain))])
  {
    AttemptStops(dg, d, req, plan);
    AttemptDiskKeepsWorld(d, Attempt(dg, d, req, plan).disk, Opened(req, d), req.tree, origins);
  }

  /** The recovery of a key, wherever it stops. */
  lemma {:induction false} RecoveryKeepsWorld(d: Disk, origins: Origins, key: string, plan: seq<Fault>)
    requires World(d, origins) && key in d.journal && Alone(d, key, d.journal[key].receipt.brain)
    requires (InFlight(d.journal[key].status) && key !in d.idempotency) || d.journal[key].status == ApplyRolledBack
    ensures var u := Undo(Machine(d, d.journal[key]), plan);
            && World(u.m.disk, origins)
            && Alone(u.m.disk, key, d.journal[key].receipt.brain)
            && u.m.disk.idempotency == d.idempotency
            && (u.end.Done? ==>
                key in u.m.disk.journal && u.m.disk.journal[key] == d.journal[key].(status := ApplyRolledBack))
            && (u.end.Done? && InFlight(d.journal[key].status) && d.journal[key].existed
                ==> At(u.m.disk.trees, d.journal[key].Dest()) == origins[key])
  {
    hide Undo;
    var tx := d.journal[key];
    assert Journaled(d, key, origins);
    var original := if tx.status == ApplyRolledBack then At(d.trees, tx.Dest()) else origins[key];
    UndoStops(original, Machine(d, tx), plan);
    var u := Undo(Machine(d, tx), plan);
    hide KeySafe, Restored, OnlyOwnPlaces;
    OwnPlacesTouch(d, u.m.disk, tx);
    JournalTouch(d, u.m.disk, tx);
    OthersStay(d, u.m.disk, key, tx.receipt.brain, tx.receipt.id, origins, origins);
    RecoveredKeySafe(d, u, origins, key, original);
  }

  lemma {:induction false} JournalTouch(before: Disk, after: Disk, tx: Transaction)
    requires OnlyJournal(before, after, tx.key)
    ensures TouchesKey(before, after, tx.key)
  {
  }

  lemma {:induction false} RecoveredKeySafe(d: Disk, u: Res, origins: Origins, key: string, original: Option<Tree>)
    requires key in d.journal && Journaled(d, key, origins)
    requires (InFlight(d.journal[key].status) && key !in d.idempotency) || d.journal[key].status == ApplyRolledBack
    requires var tx := d.journal[key];
             && Kept(original, u.m.disk.trees, tx) && OnlyJournal(d, u.m.disk, key)
             && (tx.status != ApplyRolledBack ==> original == origins[key])
             && (tx.Backup() !in d.trees ==> tx.Backup() !in u.m.disk.trees)
             && (!u.end.Done? ==> u.m.disk.journal == d.journal)
             && (u.end.Done? ==> Restored(original, u.m.disk.trees, tx)
                                 && u.m.disk.journal == d.journal[key := tx.(status := ApplyRolledBack)])
    ensures key in u.m.disk.journal && Journaled(u.m.disk, key, origins)
    ensures u.end.Done? && d.journal[key].existed ==> At(u.m.disk.trees, d.journal[key].Dest()) == original
  {
  }

  /** In a safe world a replay answers, refuses, starts afresh or recovers; it never repairs. */
  lemma {:induction false} ReplayInWorld(d: Disk, origins: Origins, req: Request)
    requires World(d, origins)
    ensures var replay := ReplayOf(d, req);
            && !replay.RepairReceipt? && !replay.RepairBoth?
            && (replay.Fresh? ==> req.key !in d.journal && req.key !in d.idempotency)
            && (replay.Recover? ==>
                  && req.key in d.journal && req.key !in d.idempotency
                  && (InFlight(d.journal[req.key].status) || d.journal[req.key].status == ApplyRolledBack)
                  && WellFormed(d.journal[req.key]) && d.journal[req.key].key == req.key
                  && d.journal[req.key].receipt.id == req.Id() && d.journal[req.key].receipt.brain == req.brain)
  {
    if req.key in d.journal { assert Journaled(d, req.key, origins); }
  }

  /** What an apply call comes down to in a safe world. */
  lemma {:induction false} ApplyCases(dg: Digests, d: Disk, origins: Origins, req: Request, plan: seq<Fault>)
    requires World(d, origins)
    ensures var call := Apply(dg, d, req, plan);
            match ReplayOf(d, req)
            case Fresh => call == Attempt(dg, d, req, plan)
            case Recover =>
              var u := Undo(Machine(d, d.journal[req.key]), plan);
              call.disk == if u.end.Done? then Attempt(dg, u.m.disk, req, u.plan).disk else u.m.disk
            case _ => call.disk == d
  {
    ReplayInWorld(d, origins, req);
    hide Attempt, Undo, ReplayOf, World;
  }

  lemma {:induction false} ApplyKeepsWorld(dg: Digests, d: Disk, origins: Origins, req: Request, plan: seq<Fault>)
    requires World(d, origins) && Alone(d, req.key, req.brain)
    ensures World(Apply(dg, d, req, plan).disk, OriginsAfter(dg, d, origins, ApplyCall(req, plan)))
  {
    hide Apply, Attempt, Undo, ReplayOf;
    ReplayInWorld(d, origins, req);
    ApplyCases(dg, d, origins, req, plan);
    match ReplayOf(d, req)
    case Reject(_) =>
    case Answer(_) =>
    case RepairReceipt(_) => assert false;
    case RepairBoth(_) => assert false;
    case Fresh => AttemptKeepsWorld(dg, d, origins, req, plan);
    case Recover =>
      RecoveryKeepsWorld(d, origins, req.key, plan);
      var u := Undo(Machine(d, d.journal[req.key]), plan);
      if u.end.Done? { AttemptKeepsWorld(dg, u.m.disk, origins, req, u.plan); }
  }

  // ----- Rollback

  lemma {:induction false} RollbackDiskKeepsWorld(d: Disk, d': Disk, req: RollbackRequest, origins: Origins)
    requires World(d, origins) && req.key in d.journal && Alone(d, req.key, d.journal[req.key].receipt.brain)
    requires d.journal[req.key].status == Applied && d.journal[req.key].existed && RollbackOutcome(d, d', req)
    ensures World(d', origins)
  {
    var tx := d.journal[req.key];
    assert Journaled(d, req.key, origins);
    assert TouchesOnly(d.trees, d'.trees, tx.receipt.brain, tx.receipt.id);
    OthersStay(d, d', req.key, tx.receipt.brain, tx.receipt.id, origins, origins);
    if d'.journal[req.key].status == Applied {
      assert At(d.trees, tx.Backup()) == At(d'.trees, tx.Backup());
    }
    assert Journaled(d', req.key, origins);
  }

  lemma {:induction false} RollbackKeepsWorld(dg: Digests, d: Disk, origins: Origins, req: RollbackRequest,
      plan: seq<Fault>)
    requires World(d, origins) && (req.key in d.journal ==> Alone(d, req.key, d.journal[req.key].receipt.brain))
    ensures World(Rollback(dg, d, req, plan).disk, origins)
  {
    hide RollbackAccepted, RollbackReplay, RollbackOutcome;
    if req.key in d.journal {
      var tx := d.journal[req.key];
      assert Journaled(d, req.key, origins);
      if req.rollbackKey in d.rollbackIdempotency {
        ReplayTouchesNothing(d, tx, req, plan);
        assert forall k :: k in d.journal ==> Journaled(d, k, origins);
      } else if RollbackObjection(dg, d, tx, req).None? {
        RollbackStops(dg, d, req, plan);
        RollbackDiskKeepsWorld(d, RollbackAccepted(dg, d, tx, req, plan).disk, req, origins);
      }
    }
  }

  lemma {:induction false} ReplayTouchesNothing(d: Disk, tx: Transaction, req: RollbackRequest, plan: seq<Fault>)
    requires req.rollbackKey in d.rollbackIdempotency
    ensures var d' := RollbackReplay(d, tx, req, plan).disk;
            d' == d.(rollbackReceipts := d'.rollbackReceipts)
  {
    if tx.rollbackReceipt.Some? {
      var s := WriteRollbackReceipt(req.Id(), tx.rollbackReceipt.value);
      var p := ThenCases(Res(Machine(d, tx), plan, Done), s);
      ThenDone(Res(Machine(d, tx), plan, Done), s);
    }
  }

  // ----- Runs

  lemma {:induction false} EventKeepsWorld(dg: Digests, d: Disk, origins: Origins, e: Event)
    requires World(d, origins) && Disciplined(d, e)
    ensures World(Do(dg, d, e), OriginsAfter(dg, d, origins, e))
  {
    match e
    case ApplyCall(req, plan) => ApplyKeepsWorld(dg, d, origins, req, plan);
    case RollbackCall(req, plan) => RollbackKeepsWorld(dg, d, origins, req, plan);
  }

  /** The tree the key's last attempt found is in its backup or, with the backup slot empty, at its
      destination. An interrupted key whose backup was moved back although its idempotency record
      stayed counts as undone. */
  predicate Recoverable(d: Disk, key: string, original: Option<Tree>)
    requires key in d.journal
  {
    var tx := d.journal[key];
    tx.existed && tx.status !in {ApplyRolledBack, RolledBack} ==>
      if tx.Backup() in d.trees then original == Some(d.trees[tx.Backup()])
      else tx.status != Applied
           && (!(InFlight(tx.status) && key in d.idempotency) ==> original == At(d.trees, tx.Dest()))
  }

  /** After any disciplined run of calls, each cut short anywhere or nowhere, the tree that the
      last attempt of every unsettled or applied key found is whole in its backup, or at its
      destination with the backup slot empty. */
  lemma {:induction false} RunKeepsWorld(dg: Digests, d: Disk, origins: Origins, events: seq<Event>)
    requires World(d, origins) && DisciplinedRun(dg, d, events)
    ensures var d', o := DoAll(dg, d, events), OriginsAfterAll(dg, d, origins, events);
            && World(d', o)
            && forall key | key in d'.journal :: Recoverable(d', key, o[key])
    decreases |events|
  {
    if events != [] {
      EventKeepsWorld(dg, d, origins, events[0]);
      RunKeepsWorld(dg, Do(dg, d, events[0]), OriginsAfter(dg, d, origins, events[0]), events[1..]);
    } else {
      forall key | key in d.journal ensures Recoverable(d, key, origins[key]) {
        assert Journaled(d, key, origins);
      }
    }
  }

  /** A settled destination tree survives every apply call on it, cut short anywhere: it is
      still there or in the new backup. The exception is the replay of a key whose failed
      restore was new to the disk. */
  lemma {:induction false} SettledTreeSurvivesApply(dg: Digests, d: Disk, origins: Origins, req: Request,
      plan: seq<Fault>)
    requires World(d, origins) && Dest(req.brain) in d.trees
    requires req.key in d.journal ==> Settled(d.journal[req.key].status)
    requires req.key in d.journal && d.journal[req.key].status == ApplyRolledBack ==> d.journal[req.key].existed
    ensures var trees := Apply(dg, d, req, plan).disk.trees;
            At(trees, Dest(req.brain)) == At(d.trees, Dest(req.brain))
                || At(trees, Backup(req.Id())) == At(d.trees, Dest(req.brain))
  {
    hide Apply, Attempt, Undo, ReplayOf;
    ReplayInWorld(d, origins, req);
    ApplyCases(dg, d, origins, req, plan);
    match ReplayOf(d, req)
    case Reject(_) =>
    case Answer(_) =>
    case RepairReceipt(_) => assert false;
    case RepairBoth(_) => assert false;
    case Fresh => AttemptKeepsTree(dg, d, req, plan);
    case Recover =>
      var tx := d.journal[req.key];
      var u := Undo(Machine(d, tx), plan);
      UndoStops(At(d.trees, tx.Dest()), Machine(d, tx), plan);
      if u.end.Done? { AttemptKeepsTree(dg, u.m.disk, req, u.plan); }
  }

  lemma {:induction false} AttemptKeepsTree(dg: Digests, d: Disk, req: Request, plan: seq<Fault>)
    requires Dest(req.brain) in d.trees && req.key !in d.idempotency
    ensures var trees := Attempt(dg, d, req, plan).disk.trees;
            At(trees, Dest(req.brain)) == At(d.trees, Dest(req.brain))
                || At(trees, Backup(req.Id())) == At(d.trees, Dest(req.brain))
  {
    if Objection(dg, d, req).None? {
      AttemptStops(dg, d, req, plan);
      TreeKept(d, Attempt(dg, d, req, plan).disk, Opened(req, d), req.tree);
    }
  }

  lemma {:induction false} TreeKept(d: Disk, d': Disk, tx: Transaction, tree: Tree)
    requires WellFormed(tx) && tx.existed && AttemptTrees(d, d', tx, tree)
    ensures At(d'.trees, tx.Dest()) == At(d.trees, tx.Dest()) || At(d'.trees, tx.Backup()) == At(d.trees, tx.Dest())
  {
  }
}
