/** Crash safety over whole runs: the tree a destination held before a restore is never lost. */
module RestoreCrash {
  import opened Wrappers
  import opened BrainRegistry
  import opened RestoreDisk
  import opened RestoreApply
  import opened RestoreSafety
  import opened RestoreRollback
  import opened RestoreCalls
  import opened RestoreRuns
  import opened RestoreReplay

  /** The key's journal record is about this brain. */
  predicate On(d: Disk, key: string, brain: string) {
    key in d.journal && d.journal[key].receipt.brain == brain
  }

  /** Where the tree the destination once held is, by the status of the key: in the backup while
      the restore stands, at the destination once it was undone or rolled back (or not begun),
      and while it is underway in the backup or, when the backup slot is empty, at the
      destination. */
  predicate Whole(d: Disk, key: string, brain: string, original: Option<Tree>) {
    if !On(d, key, brain) then At(d.trees, Dest(brain)) == original
    else
      var tx := d.journal[key];
      && (!tx.existed ==> original.None?)
      && match tx.status
         case Applied => At(d.trees, tx.Backup()) == original && (tx.existed ==> original.Some?)
         case ApplyRolledBack => At(d.trees, tx.Dest()) == original && tx.Backup() !in d.trees
         case RolledBack => At(d.trees, tx.Dest()) == original && tx.Backup() !in d.trees
         case _ => Kept(original, d.trees, tx)
  }

  predicate Touches(d: Disk, e: Event, brain: string) {
    match e
    case ApplyCall(req, _) => req.brain == brain
    case RollbackCall(req, _) => On(d, req.key, brain)
  }

  /** The restore of the key stands: it was applied, or died at its last journal write, or did so
      in an undo from there that had not moved the backup yet. */
  predicate Stands(d: Disk, key: string)
    requires key in d.journal
  {
    var tx := d.journal[key];
    tx.status == Applied || (InFlight(tx.status) && key in d.idempotency && (tx.existed ==> tx.Backup() in d.trees))
  }

  /** Another key touches the brain only while the restore of this key stands. */
  predicate LeavesAlone(d: Disk, e: Event, key: string, brain: string) {
    Touches(d, e, brain) && KeyOf(e) != key ==> On(d, key, brain) && Stands(d, key)
  }

  ghost predicate LeftAlone(dg: Digests, d: Disk, events: seq<Event>, key: string, brain: string)
    decreases |events|
  {
    events != [] ==>
        LeavesAlone(d, events[0], key, brain) && LeftAlone(dg, Do(dg, d, events[0]), events[1..], key, brain)
  }

  // ----- Calls on other keys

  lemma {:induction false} TouchesOnlyCompose(a: Trees, b: Trees, c: Trees, brain: string, id: ReceiptId)
    requires TouchesOnly(a, b, brain, id) && TouchesOnly(b, c, brain, id)
    ensures TouchesOnly(a, c, brain, id)
  {
    forall p: Place | p != Dest(brain) && p != Backup(id) && !Scratch(p, id.key) ensures At(a, p) == At(c, p) {
      assert At(a, p) == At(b, p) == At(c, p);
    }
  }

  lemma {:induction false} AttemptPlaces(dg: Digests, d: Disk, req: Request, plan: seq<Fault>)
    requires req.key !in d.idempotency
    ensures TouchesOnly(d.trees, Attempt(dg, d, req, plan).disk.trees, req.brain, req.Id())
  {
    AttemptStops(dg, d, req, plan);
    OwnPlacesTouch(d, Attempt(dg, d, req, plan).disk, Opened(req, d));
  }

  lemma {:induction false} ApplyPlaces(dg: Digests, d: Disk, origins: Origins, req: Request, plan: seq<Fault>)
    requires World(d, origins)
    ensures TouchesOnly(d.trees, Apply(dg, d, req, plan).disk.trees, req.brain, req.Id())
  {
    hide Apply, Attempt, Undo, ReplayOf;
    ReplayInWorld(d, origins, req);
    ApplyCases(dg, d, origins, req, plan);
    match ReplayOf(d, req)
    case Reject(_) =>
    case Answer(_) =>
    case RepairReceipt(_) => assert false;
    case RepairBoth(_) => assert false;
    case Fresh => AttemptPlaces(dg, d, req, plan);
    case Recover =>
      var tx := d.journal[req.key];
      var u := Undo(Machine(d, tx), plan);
      assert Journaled(d, req.key, origins);
      var found := if tx.status == ApplyRolledBack then At(d.trees, tx.Dest()) else origins[req.key];
      UndoStops(found, Machine(d, tx), plan);
      OwnPlacesTouch(d, u.m.disk, tx);
      if u.end.Done? {
        AttemptPlaces(dg, u.m.disk, req, u.plan);
        TouchesOnlyCompose(d.trees, u.m.disk.trees, Attempt(dg, u.m.disk, req, u.plan).disk.trees, req.brain, req.Id());
      }
  }

  lemma {:induction false} RollbackPlaces(dg: Digests, d: Disk, origins: Origins, req: RollbackRequest,
      plan: seq<Fault>)
    requires World(d, origins) && req.key in d.journal
    ensures var tx := d.journal[req.key];
            TouchesOnly(d.trees, Rollback(dg, d, req, plan).disk.trees, tx.receipt.brain, tx.receipt.id)
  {
    var tx := d.journal[req.key];
    assert Journaled(d, req.key, origins);
    if req.rollbackKey in d.rollbackIdempotency {
      ReplayTouchesNothing(d, tx, req, plan);
    } else if RollbackObjection(dg, d, tx, req).None? {
      RollbackStops(dg, d, req, plan);
    }
  }

  lemma {:induction false} WholeStays(d: Disk, d': Disk, origins: Origins, brain': string, id: ReceiptId, key: string,
      brain: string, original: Option<Tree>)
    requires World(d, origins) && Whole(d, key, brain, original) && id.key != key
    requires TouchesKey(d, d', id.key) && TouchesOnly(d.trees, d'.trees, brain', id)
    requires brain' == brain ==> On(d, key, brain) && Stands(d, key)
    ensures Whole(d', key, brain, original)
  {
    assert key in d.journal <==> key in d.journal - {id.key};
    assert key in d'.journal <==> key in d'.journal - {id.key};
    if key in d.journal {
      assert (d.journal - {id.key})[key] == (d'.journal - {id.key})[key];
      assert Journaled(d, key, origins);
      assert At(d.trees, d.journal[key].Backup()) == At(d'.trees, d.journal[key].Backup());
    }
    hide World, TouchesKey, Journaled, Stands, Whole;
    if brain' == brain {
      StandingStays(d, d', origins, key, brain, original);
    } else {
      assert At(d.trees, Dest(brain)) == At(d'.trees, Dest(brain));
      UntouchedStays(d, d', key, brain, original);
    }
  }

  lemma {:induction false} StandingStays(d: Disk, d': Disk, origins: Origins, key: string, brain: string,
      original: Option<Tree>)
    requires On(d, key, brain) && Stands(d, key) && Whole(d, key, brain, original) && Journaled(d, key, origins)
    requires key in d'.journal && d'.journal[key] == d.journal[key]
    requires At(d.trees, d.journal[key].Backup()) == At(d'.trees, d.journal[key].Backup())
    ensures Whole(d', key, brain, original)
  {
  }

  lemma {:induction false} UntouchedStays(d: Disk, d': Disk, key: string, brain: string, original: Option<Tree>)
    requires Whole(d, key, brain, original) && At(d.trees, Dest(brain)) == At(d'.trees, Dest(brain))
    requires key in d.journal <==> key in d'.journal
    requires key in d.journal ==>
        && d'.journal[key] == d.journal[key]
        && At(d.trees, d.journal[key].Backup()) == At(d'.trees, d.journal[key].Backup())
    ensures Whole(d', key, brain, original)
  {
  }

  lemma {:induction false} OtherKeyKeepsWhole(dg: Digests, d: Disk, origins: Origins, e: Event, key: string,
      brain: string, original: Option<Tree>)
    requires World(d, origins) && Disciplined(d, e) && KeyOf(e) != key
    requires LeavesAlone(d, e, key, brain) && Whole(d, key, brain, original)
    ensures Whole(Do(dg, d, e), key, brain, original)
  {
    match e
    case ApplyCall(req, plan) =>
      ApplyPlaces(dg, d, origins, req, plan);
      ApplyTouchesKey(dg, d, origins, req, plan);
      WholeStays(d, Do(dg, d, e), origins, req.brain, req.Id(), key, brain, original);
    case RollbackCall(req, plan) =>
      if req.key in d.journal {
        assert Journaled(d, req.key, origins);
        RollbackPlaces(dg, d, origins, req, plan);
        RollbackTouchesKey(dg, d, origins, req, plan);
        var receipt := d.journal[req.key].receipt;
        WholeStays(d, Do(dg, d, e), origins, receipt.brain, receipt.id, key, brain, original);
      }
  }

  // ----- Calls on the key itself

  lemma {:induction false} AttemptKeepsWhole(dg: Digests, d: Disk, req: Request, plan: seq<Fault>, brain: string,
      original: Option<Tree>)
    requires req.key !in d.idempotency && Whole(d, req.key, brain, original)
    requires req.key in d.journal ==> d.journal[req.key].status == ApplyRolledBack && WellFormed(d.journal[req.key])
                                      && d.journal[req.key].receipt.id == req.Id()
    ensures Whole(Attempt(dg, d, req, plan).disk, req.key, brain, original)
  {
    var tx, d' := Opened(req, d), Attempt(dg, d, req, plan).disk;
    AttemptStops(dg, d, req, plan);
    if Objection(dg, d, req).None? {
      AttemptDiskKeepsWhole(d, d', tx, req, brain, original);
    }
  }

  lemma {:induction false} AttemptDiskKeepsWhole(d: Disk, d': Disk, tx: Transaction, req: Request, brain: string,
      original: Option<Tree>)
    requires WellFormed(tx) && tx.key == req.key && tx.receipt.id == req.Id() && (!tx.existed ==> tx.Dest() !in d.trees)
    requires AttemptDisk(d, d', tx, req.tree) && Whole(d, req.key, brain, original)
    requires req.key in d.journal ==> d.journal[req.key].status == ApplyRolledBack && WellFormed(d.journal[req.key])
                                      && d.journal[req.key].receipt.id == req.Id()
    ensures Whole(d', req.key, brain, original)
  {
    if req.brain == brain {
      assert At(d.trees, tx.Dest()) == original;
      if d'.journal == d.journal { assert At(d.trees, tx.Backup()) == At(d'.trees, tx.Backup()); }
    } else {
      assert At(d.trees, Dest(brain)) == At(d'.trees, Dest(brain));
    }
  }

  /** A destination that is not there, of a restore that was new to the disk, stays away. */
  lemma {:induction false} UndoAddsNothing(m: Machine, plan: seq<Fault>)
    requires WellFormed(m.tx) && !m.tx.existed && m.tx.Dest() !in m.disk.trees
    ensures m.tx.Dest() !in Undo(m, plan).m.disk.trees
  {
    var r0 := UndoDestination(m, plan);
    assert r0 == Res(m, plan, Done);
    RemoveStops(r0, m.tx.stage in m.disk.trees, m.tx.stage);
    var r1 := ThenIf(r0, m.tx.stage in m.disk.trees, Remove(m.tx.stage));
    assert At(r1.m.disk.trees, m.tx.Dest()) == At(m.disk.trees, m.tx.Dest());
    UndoFilesStop(r1, m.tx);
  }

  lemma {:induction false} RecoveryKeepsWhole(d: Disk, origins: Origins, key: string, plan: seq<Fault>, brain: string,
      original: Option<Tree>)
    requires World(d, origins) && key in d.journal && key !in d.idempotency && Whole(d, key, brain, original)
    requires InFlight(d.journal[key].status) || d.journal[key].status == ApplyRolledBack
    ensures var tx := d.journal[key];
            var u := Undo(Machine(d, tx), plan);
            && Whole(u.m.disk, key, brain, original)
            && u.m.disk.idempotency == d.idempotency
            && (u.end.Done? ==> key in u.m.disk.journal && u.m.disk.journal[key] == tx.(status := ApplyRolledBack))
  {
    hide Undo;
    var tx := d.journal[key];
    assert Journaled(d, key, origins);
    var found := if tx.receipt.brain == brain then original
                 else if tx.status == ApplyRolledBack then At(d.trees, tx.Dest()) else origins[key];
    UndoStops(found, Machine(d, tx), plan);
    if !tx.existed && tx.Dest() !in d.trees { UndoAddsNothing(Machine(d, tx), plan); }
    UndoKeepsWhole(d, Undo(Machine(d, tx), plan), key, brain, original, found);
  }

  lemma {:induction false} UndoKeepsWhole(d: Disk, u: Res, key: string, brain: string, original: Option<Tree>,
      found: Option<Tree>)
    requires key in d.journal && WellFormed(d.journal[key]) && d.journal[key].key == key
        && Whole(d, key, brain, original)
    requires InFlight(d.journal[key].status) || d.journal[key].status == ApplyRolledBack
    requires var tx := d.journal[key];
             && Kept(found, u.m.disk.trees, tx) && OnlyOwnPlaces(d.trees, u.m.disk.trees, tx)
             && (tx.receipt.brain == brain ==> found == original)
             && (tx.Backup() !in d.trees ==> tx.Backup() !in u.m.disk.trees)
             && (!tx.existed && tx.Dest() !in d.trees ==> tx.Dest() !in u.m.disk.trees)
             && u.m.disk.journal
                 == (if u.end.Done? then d.journal[key := tx.(status := ApplyRolledBack)] else d.journal)
             && (u.end.Done? ==> Restored(found, u.m.disk.trees, tx))
    ensures Whole(u.m.disk, key, brain, original)
  {
    if d.journal[key].receipt.brain != brain { assert At(d.trees, Dest(brain)) == At(u.m.disk.trees, Dest(brain)); }
  }

  lemma {:induction false} ApplyKeepsWhole(dg: Digests, d: Disk, origins: Origins, req: Request, plan: seq<Fault>,
      brain: string, original: Option<Tree>)
    requires World(d, origins) && Whole(d, req.key, brain, original)
    ensures Whole(Apply(dg, d, req, plan).disk, req.key, brain, original)
  {
    hide Apply, Attempt, Undo, Whole, ReplayOf;
    ReplayInWorld(d, origins, req);
    ApplyCases(dg, d, origins, req, plan);
    match ReplayOf(d, req)
    case Reject(_) =>
    case Answer(_) =>
    case RepairReceipt(_) => assert false;
    case RepairBoth(_) => assert false;
    case Fresh => AttemptKeepsWhole(dg, d, req, plan, brain, original);
    case Recover => RecoverThenAttempt(dg, d, origins, req, plan, brain, original);
  }

  lemma {:induction false} RecoverThenAttempt(dg: Digests, d: Disk, origins: Origins, req: Request, plan: seq<Fault>,
      brain: string, original: Option<Tree>)
    requires World(d, origins) && Whole(d, req.key, brain, original) && ReplayOf(d, req).Recover?
    ensures Whole(Apply(dg, d, req, plan).disk, req.key, brain, original)
  {
    hide Apply, Attempt, Undo, ReplayOf, Whole;
    ReplayInWorld(d, origins, req);
    ApplyCases(dg, d, origins, req, plan);
    var u := Undo(Machine(d, d.journal[req.key]), plan);
    RecoveryKeepsWhole(d, origins, req.key, plan, brain, original);
    if u.end.Done? { AttemptKeepsWhole(dg, u.m.disk, req, u.plan, brain, original); }
  }

  lemma {:induction false} RollbackKeepsWhole(dg: Digests, d: Disk, origins: Origins, req: RollbackRequest,
      plan: seq<Fault>, brain: string, original: Option<Tree>)
    requires World(d, origins) && Whole(d, req.key, brain, original)
    ensures Whole(Rollback(dg, d, req, plan).disk, req.key, brain, original)
  {
    hide RollbackAccepted, RollbackReplay, RollbackOutcome, Whole;
    if req.key in d.journal {
      var tx := d.journal[req.key];
      assert Journaled(d, req.key, origins);
      if req.rollbackKey in d.rollbackIdempotency {
        ReplayTouchesNothing(d, tx, req, plan);
        SlotsKeepWhole(d, Rollback(dg, d, req, plan).disk, req.key, brain, original);
      } else if RollbackObjection(dg, d, tx, req).None? {
        RollbackStops(dg, d, req, plan);
        hide RollbackObjection, Journaled;
        RollbackDiskKeepsWhole(d, RollbackAccepted(dg, d, tx, req, plan).disk, req, brain, original);
      }
    }
  }

  lemma {:induction false} SlotsKeepWhole(d: Disk, d': Disk, key: string, brain: string, original: Option<Tree>)
    requires Whole(d, key, brain, original) && d'.trees == d.trees && d'.journal == d.journal
    ensures Whole(d', key, brain, original)
  {
  }

  lemma {:induction false} RollbackDiskKeepsWhole(d: Disk, d': Disk, req: RollbackRequest, brain: string,
      original: Option<Tree>)
    requires req.key in d.journal && d.journal[req.key].status == Applied && d.journal[req.key].existed
    requires Whole(d, req.key, brain, original) && RollbackOutcome(d, d', req)
    ensures Whole(d', req.key, brain, original)
  {
    var tx := d.journal[req.key];
    if tx.receipt.brain != brain {
      assert At(d.trees, Dest(brain)) == At(d'.trees, Dest(brain));
    } else if d'.journal[req.key].status == Applied {
      assert At(d.trees, tx.Backup()) == At(d'.trees, tx.Backup());
    }
  }

  // ----- Runs

  lemma {:induction false} EventKeepsWhole(dg: Digests, d: Disk, origins: Origins, e: Event, key: string, brain: string,
      original: Option<Tree>)
    requires World(d, origins) && Disciplined(d, e) && LeavesAlone(d, e, key, brain) && Whole(d, key, brain, original)
    ensures Whole(Do(dg, d, e), key, brain, original)
  {
    if KeyOf(e) != key {
      OtherKeyKeepsWhole(dg, d, origins, e, key, brain, original);
    } else {
      match e
      case ApplyCall(req, plan) => ApplyKeepsWhole(dg, d, origins, req, plan, brain, original);
      case RollbackCall(req, plan) => RollbackKeepsWhole(dg, d, origins, req, plan, brain, original);
    }
  }

  lemma {:induction false} RunKeepsWhole(dg: Digests, d: Disk, origins: Origins, events: seq<Event>, key: string,
      brain: string, original: Option<Tree>)
    requires World(d, origins) && DisciplinedRun(dg, d, events) && LeftAlone(dg, d, events, key, brain)
    requires Whole(d, key, brain, original)
    ensures Whole(DoAll(dg, d, events), key, brain, original)
    decreases |events|
  {
    hide Whole, Do;
    if events != [] {
      EventKeepsWorld(dg, d, origins, events[0]);
      EventKeepsWhole(dg, d, origins, events[0], key, brain, original);
      RunKeepsWhole(dg, Do(dg, d, events[0]), OriginsAfter(dg, d, origins, events[0]), events[1..], key, brain,
          original);
    }
  }

  /** Crash safety. Fix a brain, the tree `t` at its destination, and a key that was not used
      yet. Then after any disciplined run of apply and rollback calls, each cut short anywhere or
      nowhere, in which other keys touch the brain only while this key's restore stands: `t` is
      in the backup if the restore stands, and at the destination if it was not begun, was
      undone or was rolled back, however often it was tried; and while it is underway, `t` is in
      the backup or, with the backup slot empty, at the destination. */
  lemma {:induction false} RunIsCrashSafe(dg: Digests, d: Disk, origins: Origins, events: seq<Event>, key: string,
      brain: string, t: Tree)
    requires World(d, origins) && DisciplinedRun(dg, d, events) && LeftAlone(dg, d, events, key, brain)
    requires key !in d.journal && At(d.trees, Dest(brain)) == Some(t)
    ensures var d' := DoAll(dg, d, events);
            if !On(d', key, brain) || d'.journal[key].status in {ApplyRolledBack, RolledBack}
            then At(d'.trees, Dest(brain)) == Some(t)
            else
              var tx := d'.journal[key];
              if tx.status == Applied || tx.Backup() in d'.trees
              then At(d'.trees, tx.Backup()) == Some(t)
              else At(d'.trees, Dest(brain)) == Some(t)
  {
    RunKeepsWhole(dg, d, origins, events, key, brain, Some(t));
  }

  /** A restore of a brain new to the disk that is undone leaves nothing behind. */
  lemma {:induction false} UndoneNewBrainIsGone(dg: Digests, d: Disk, origins: Origins, events: seq<Event>, key: string,
      brain: string)
    requires World(d, origins) && DisciplinedRun(dg, d, events) && LeftAlone(dg, d, events, key, brain)
    requires key !in d.journal && Dest(brain) !in d.trees
    ensures var d' := DoAll(dg, d, events);
            !On(d', key, brain) || d'.journal[key].status == ApplyRolledBack ==> Dest(brain) !in d'.trees
  {
    RunKeepsWhole(dg, d, origins, events, key, brain, None);
  }
}
