/** How a fault plan and the apply block meet: when a block without faults commits, and which
    step a plan cuts short. */
module RestorePlan {
  import opened Wrappers
  import opened BrainRegistry
  import opened RestoreDisk
  import opened RestoreApply
  import opened RestoreAdmission
  import opened RestoreSafety
  import opened RestoreCalls

  // ----- Without faults

  lemma {:induction false} SmoothThen(r: Res, s: Step)
    requires r.plan == []
    ensures var r' := Then(r, s);
            && r'.plan == []
            && (r'.end.Done? <==> r.end.Done? && Enabled(r.m.disk, s))
            && (r'.end.Done? ==> r'.m == Completed(r.m, s))
            && (r'.end.Crashed? ==> r.end.Crashed?)
  {
  }

  lemma {:induction false} SmoothThenIf(r: Res, condition: bool, s: Step)
    requires r.plan == []
    ensures var r' := ThenIf(r, condition, s);
            && r'.plan == []
            && (r'.end.Done? <==> r.end.Done? && (condition ==> Enabled(r.m.disk, s)))
            && (r'.end.Crashed? ==> r.end.Crashed?)
  {
  }

  /** What a caller can check beforehand: the tree to be backed up is there, the registry
      accepts the selection, and the brain ends up usable and selected as the receipt says. */
  predicate Commits(d: Disk, tx: Transaction, req: Request) {
    var u := UpdateOf(d.registry, req, tx.existed, tx.receipt.selected);
    && (tx.existed ==> tx.Dest() in d.trees)
    && (tx.receipt.selected ==> u.selection.Ok?)
    && Selectable(u.after, req.brain) && SelectionIs(u.after, req.brain, tx.receipt.selected)
  }

  lemma {:induction false} SmoothStage(m0: Machine, req: Request)
    ensures var r := StagePhase(Res(m0, [], Done), req);
            r.plan == [] && !r.end.Crashed? && (Ready(m0) ==> r.end.Done?)
  {
    var r0 := Res(m0, [], Done);
    SmoothThen(r0, Build(m0.tx.stage, req.tree));
    SmoothThen(Then(r0, Build(m0.tx.stage, req.tree)), Commit(m0.tx.(status := Staged)));
  }

  lemma {:induction false} SmoothBackup(dg: Digests, r0: Res)
    requires r0.plan == []
    ensures var r := BackupPhase(dg, r0);
            && r.plan == []
            && (r.end.Done? <==> r0.end.Done? && Enabled(r0.m.disk, Move(r0.m.tx.Dest(), r0.m.tx.Backup())))
            && (r.end.Crashed? ==> r0.end.Crashed?)
  {
    var tx := r0.m.tx;
    var s1, s2 := Move(tx.Dest(), tx.Backup()), Hash(tx.Backup());
    SmoothThen(r0, s1);
    var r1 := Then(r0, s1);
    SmoothThen(r1, s2);
    var r2 := Then(r1, s2);
    SmoothThen(r2, Commit(tx.(backupDigest := DigestAt(dg, r2.m.disk.trees, tx.Backup()), status := BackupCreated)));
  }

  lemma {:induction false} SmoothInstall(dg: Digests, r0: Res)
    requires r0.plan == []
    ensures var r := InstallPhase(dg, r0);
            && r.plan == []
            && (r.end.Done? <==> r0.end.Done? && Enabled(r0.m.disk, Move(r0.m.tx.stage, r0.m.tx.Dest())))
            && (r.end.Crashed? ==> r0.end.Crashed?)
  {
    var tx := r0.m.tx;
    var s1, s2 := Move(tx.stage, tx.Dest()), Hash(tx.Dest());
    SmoothThen(r0, s1);
    var r1 := Then(r0, s1);
    SmoothThen(r1, s2);
    var r2 := Then(r1, s2);
    SmoothThen(r2,
        Commit(tx.(appliedDigest := DigestAt(dg, r2.m.disk.trees, tx.Dest()), status := DestinationInstalled)));
  }

  lemma {:induction false} SmoothChain(r0: Res, u: RegistryUpdate, existed: bool, selected: bool, selectable: bool,
      matches: bool)
    requires r0.plan == []
    ensures var r := RegistryChain(r0, u, existed, selected, selectable, matches);
            && r.plan == []
            && (r.end.Done? <==> r0.end.Done? && (selected ==> u.selection.Ok?) && selectable && matches)
            && (r.end.Crashed? ==> r0.end.Crashed?)
  {
    SmoothThenIf(r0, !existed, WriteRegistry(u.created));
    var r1 := ThenIf(r0, !existed, WriteRegistry(u.created));
    SmoothThenIf(r1, true, WriteRegistry(u.refreshed));
    var r2 := ThenIf(r1, true, WriteRegistry(u.refreshed));
    SmoothThenIf(r2, selected, Check(u.selection.Ok?, true));
    var r3 := ThenIf(r2, selected, Check(u.selection.Ok?, true));
    SmoothThenIf(r3, selected, WriteRegistry(u.after));
    var r4 := ThenIf(r3, selected, WriteRegistry(u.after));
    SmoothThenIf(r4, true, Check(selectable, true));
    SmoothThenIf(ThenIf(r4, true, Check(selectable, true)), true, Check(matches, false));
  }

  lemma {:induction false} SmoothRegistry(dg: Digests, r0: Res, req: Request)
    requires r0.plan == []
    ensures var r, tx := RegistryPhase(dg, r0, req), r0.m.tx;
            var u := UpdateOf(r0.m.disk.registry, req, tx.existed, tx.receipt.selected);
            && r.plan == []
            && (r.end.Crashed? ==> r0.end.Crashed?)
            && (r.end.Done?
                <==> r0.end.Done? && (tx.receipt.selected ==> u.selection.Ok?) && Selectable(u.after, req.brain)
                                 && SelectionIs(u.after, req.brain, tx.receipt.selected))
  {
    var tx := r0.m.tx;
    var u := UpdateOf(r0.m.disk.registry, req, tx.existed, tx.receipt.selected);
    hide UpdateOf, RegistryChain, Selectable, SelectionIs;
    SmoothChain(r0, u, tx.existed, tx.receipt.selected, Selectable(u.after, req.brain),
        SelectionIs(u.after, req.brain, tx.receipt.selected));
    var r := RegistrySteps(r0, req);
    var reg := r.m.disk.registry;
    SmoothThen(r,
        Commit(r.m.tx.(appliedRegistry := Some(reg), appliedRegistryDigest := Some(dg.registry(reg)),
        status := RegistryCommitted)));
  }

  lemma {:induction false} SmoothFinish(r0: Res)
    requires r0.plan == []
    ensures FinishPhase(r0).plan == [] && (FinishPhase(r0).end.Done? <==> r0.end.Done?)
    ensures FinishPhase(r0).end.Crashed? ==> r0.end.Crashed?
  {
    var tx := r0.m.tx;
    SmoothThen(r0, WriteReceipt(tx.receipt));
    var r1 := Then(r0, WriteReceipt(tx.receipt));
    SmoothThen(r1, WriteIdempotency(tx.fingerprint));
    SmoothThen(Then(r1, WriteIdempotency(tx.fingerprint)), Commit(tx.(status := Applied)));
  }

  /** Without faults the block commits exactly when its conditions held at the start. */
  lemma {:induction false} BlockCommitsIff(dg: Digests, m0: Machine, req: Request)
    requires Ready(m0)
    ensures ApplyBlock(dg, m0, req, []).end.Done? <==> Commits(m0.disk, m0.tx, req)
  {
    hide StagePhase, BackupPhase, InstallPhase, RegistryPhase, FinishPhase, UpdateOf, Selectable, SelectionIs, Undoable;
    var r0 := Res(m0, [], Done);
    StageStops(m0, req, []);
    SmoothStage(m0, req);
    var r1 := StagePhase(r0, req);
    assert SameTransaction(r1.m.tx, m0.tx) by { UndoableSame(m0, r1.m); }
    if m0.tx.existed {
      BackupStops(dg, m0, r1, req.tree);
      SmoothBackup(dg, r1);
      assert At(r1.m.disk.trees, m0.tx.Dest()) == At(m0.disk.trees, m0.tx.Dest());
    }
    var r2 := if m0.tx.existed then BackupPhase(dg, r1) else r1;
    UndoableSame(m0, r2.m);
    InstallStops(dg, m0, r2, req.tree);
    SmoothInstall(dg, r2);
    var r3 := InstallPhase(dg, r2);
    UndoableSame(m0, r3.m);
    SmoothRegistry(dg, r3, req);
    SmoothFinish(RegistryPhase(dg, r3, req));
  }

  /** Without faults the block does not die, and uses up no plan. */
  lemma {:induction false} SmoothEnds(dg: Digests, m0: Machine, req: Request)
    ensures ApplyBlock(dg, m0, req, []).plan == [] && !ApplyBlock(dg, m0, req, []).end.Crashed?
  {
    hide StagePhase, BackupPhase, InstallPhase, RegistryPhase, FinishPhase;
    var r := StagePhase(Res(m0, [], Done), req);
    SmoothStage(m0, req);
    SmoothBackup(dg, r);
    r := if m0.tx.existed then BackupPhase(dg, r) else r;
    SmoothInstall(dg, r);
    r := InstallPhase(dg, r);
    SmoothRegistry(dg, r, req);
    SmoothFinish(RegistryPhase(dg, r, req));
  }

  lemma {:induction false} UndoableSame(m0: Machine, m: Machine)
    requires Undoable(m0, m)
    ensures SameTransaction(m.tx, m0.tx)
  {
  }

  // ----- With faults

  /** No fault among the first `n` steps. */
  predicate Clear(plan: seq<Fault>, n: nat) {
    forall i :: 0 <= i < n && i < |plan| ==> plan[i].NoFault?
  }

  function Rest(plan: seq<Fault>, n: nat): seq<Fault> {
    if n <= |plan| then plan[n..] else []
  }

  /** `r` is where `n` steps under the plan lead, `r0` where they lead without faults. */
  predicate InStep(r: Res, r0: Res, plan: seq<Fault>, n: nat) {
    && r0.plan == []
    && (r.end.Done? <==> r0.end.Done? && Clear(plan, n))
    && (r.end.Done? ==> r.m == r0.m && r.plan == Rest(plan, n))
  }

  lemma {:induction false} ThenInStep(r: Res, r0: Res, plan: seq<Fault>, n: nat, s: Step, s0: Step)
    requires InStep(r, r0, plan, n) && (r.end.Done? ==> s == s0)
    ensures InStep(Then(r, s), Then(r0, s0), plan, n + 1)
  {
    SmoothThen(r0, s0);
    assert Clear(plan, n + 1) <==> Clear(plan, n) && (n < |plan| ==> plan[n].NoFault?);
    if r.end.Done? && n < |plan| { assert r.plan[0] == plan[n] && r.plan[1..] == Rest(plan, n + 1); }
  }

  lemma {:induction false} ThenIfInStep(r: Res, r0: Res, plan: seq<Fault>, n: nat, condition: bool, s: Step)
    requires InStep(r, r0, plan, n)
    ensures InStep(ThenIf(r, condition, s), ThenIf(r0, condition, s), plan, n + if condition then 1 else 0)
  {
    if condition { ThenInStep(r, r0, plan, n, s, s); }
  }

  /** Once stopped, a run stays behind the one without faults. */
  lemma {:induction false} StoppedInStep(r: Res, r0: Res, r0': Res, plan: seq<Fault>, n: nat, k: nat)
    requires InStep(r, r0, plan, n) && !r.end.Done? && r0'.plan == [] && (r0'.end.Done? ==> r0.end.Done?)
    ensures InStep(r, r0', plan, n + k)
  {
    if r0'.end.Done? {
      var i :| 0 <= i < n && i < |plan| && !plan[i].NoFault?;
      assert !Clear(plan, n + k);
    }
  }

  lemma {:induction false} StageInStep(m0: Machine, req: Request, plan: seq<Fault>)
    ensures InStep(StagePhase(Res(m0, plan, Done), req), StagePhase(Res(m0, [], Done), req), plan, 2)
  {
    var r, r0, s := Res(m0, plan, Done), Res(m0, [], Done), Build(m0.tx.stage, req.tree);
    ThenInStep(r, r0, plan, 0, s, s);
    ThenInStep(Then(r, s), Then(r0, s), plan, 1, Commit(m0.tx.(status := Staged)), Commit(m0.tx.(status := Staged)));
  }

  lemma {:induction false} BackupInStep(dg: Digests, r: Res, r0: Res, plan: seq<Fault>, n: nat)
    requires InStep(r, r0, plan, n)
    ensures InStep(BackupPhase(dg, r), BackupPhase(dg, r0), plan, n + 3)
  {
    SmoothBackup(dg, r0);
    if r.end.Done? {
      var tx := r.m.tx;
      var s1, s2 := Move(tx.Dest(), tx.Backup()), Hash(tx.Backup());
      ThenInStep(r, r0, plan, n, s1, s1);
      ThenInStep(Then(r, s1), Then(r0, s1), plan, n + 1, s2, s2);
      var r2, r02 := Then(Then(r, s1), s2), Then(Then(r0, s1), s2);
      ThenInStep(r2, r02, plan, n + 2,
        Commit(tx.(backupDigest := DigestAt(dg, r2.m.disk.trees, tx.Backup()), status := BackupCreated)),
        Commit(tx.(backupDigest := DigestAt(dg, r02.m.disk.trees, tx.Backup()), status := BackupCreated)));
    } else {
      StoppedInStep(r, r0, BackupPhase(dg, r0), plan, n, 3);
    }
  }

  lemma {:induction false} InstallInStep(dg: Digests, r: Res, r0: Res, plan: seq<Fault>, n: nat)
    requires InStep(r, r0, plan, n)
    ensures InStep(InstallPhase(dg, r), InstallPhase(dg, r0), plan, n + 3)
  {
    SmoothInstall(dg, r0);
    if r.end.Done? {
      var tx := r.m.tx;
      var s1, s2 := Move(tx.stage, tx.Dest()), Hash(tx.Dest());
      ThenInStep(r, r0, plan, n, s1, s1);
      ThenInStep(Then(r, s1), Then(r0, s1), plan, n + 1, s2, s2);
      var r2, r02 := Then(Then(r, s1), s2), Then(Then(r0, s1), s2);
      ThenInStep(r2, r02, plan, n + 2,
        Commit(tx.(appliedDigest := DigestAt(dg, r2.m.disk.trees, tx.Dest()), status := DestinationInstalled)),
        Commit(tx.(appliedDigest := DigestAt(dg, r02.m.disk.trees, tx.Dest()), status := DestinationInstalled)));
    } else {
      StoppedInStep(r, r0, InstallPhase(dg, r0), plan, n, 3);
    }
  }

  /** How many steps the registry update takes, its journal write included. */
  function RegistryCount(existed: bool, selected: bool): nat {
    (if existed then 0 else 1) + 1 + (if selected then 2 else 0) + 2 + 1
  }

  lemma {:induction false} ChainInStep(r: Res, r0: Res, u: RegistryUpdate, existed: bool, selected: bool,
      selectable: bool, matches: bool, plan: seq<Fault>, n: nat)
    requires InStep(r, r0, plan, n)
    ensures InStep(RegistryChain(r, u, existed, selected, selectable, matches),
                   RegistryChain(r0, u, existed, selected, selectable, matches), plan,
                       n + RegistryCount(existed, selected) - 1)
  {
    hide InStep;
    var a, a0, k := r, r0, n;
    ThenIfInStep(a, a0, plan, k, !existed, WriteRegistry(u.created));
    a, a0, k := ThenIf(a, !existed, WriteRegistry(u.created)), ThenIf(a0, !existed, WriteRegistry(u.created)),
        k + if existed then 0 else 1;
    ThenIfInStep(a, a0, plan, k, true, WriteRegistry(u.refreshed));
    a, a0 := ThenIf(a, true, WriteRegistry(u.refreshed)), ThenIf(a0, true, WriteRegistry(u.refreshed));
    ThenIfInStep(a, a0, plan, k + 1, selected, Check(u.selection.Ok?, true));
    a, a0 := ThenIf(a, selected, Check(u.selection.Ok?, true)), ThenIf(a0, selected, Check(u.selection.Ok?, true));
    k := k + 1 + if selected then 1 else 0;
    ThenIfInStep(a, a0, plan, k, selected, WriteRegistry(u.after));
    a, a0, k := ThenIf(a, selected, WriteRegistry(u.after)), ThenIf(a0, selected, WriteRegistry(u.after)),
        k + if selected then 1 else 0;
    ThenIfInStep(a, a0, plan, k, true, Check(selectable, true));
    a, a0 := ThenIf(a, true, Check(selectable, true)), ThenIf(a0, true, Check(selectable, true));
    ThenIfInStep(a, a0, plan, k + 1, true, Check(matches, false));
  }

  lemma {:induction false} RegistryInStep(dg: Digests, r: Res, r0: Res, req: Request, existed: bool, selected: bool,
      plan: seq<Fault>, n: nat)
    requires InStep(r, r0, plan, n)
    requires r.end.Done? ==> r.m.tx.existed == existed && r.m.tx.receipt.selected == selected
    ensures InStep(RegistryPhase(dg, r, req), RegistryPhase(dg, r0, req), plan, n + RegistryCount(existed, selected))
  {
    SmoothRegistry(dg, r0, req);
    if r.end.Done? {
      var u := UpdateOf(r.m.disk.registry, req, existed, selected);
      hide RegistryChain, UpdateOf, Selectable, SelectionIs;
      ChainInStep(r, r0, u, existed, selected, Selectable(u.after, req.brain),
          SelectionIs(u.after, req.brain, selected), plan, n);
      var a, a0 := RegistrySteps(r, req), RegistrySteps(r0, req);
      var reg, reg0 := a.m.disk.registry, a0.m.disk.registry;
      ThenInStep(a, a0, plan, n + RegistryCount(existed, selected) - 1,
        Commit(a.m.tx.(appliedRegistry := Some(reg), appliedRegistryDigest := Some(dg.registry(reg)),
            status := RegistryCommitted)),
        Commit(a0.m.tx.(appliedRegistry := Some(reg0), appliedRegistryDigest := Some(dg.registry(reg0)),
            status := RegistryCommitted)));
    } else {
      StoppedInStep(r, r0, RegistryPhase(dg, r0, req), plan, n, RegistryCount(existed, selected));
    }
  }

  // ----- The last journal write

  /** The block up to the registry's journal write, and on to the idempotency record. */
  function UpToRegistry(dg: Digests, m: Machine, req: Request, plan: seq<Fault>): Res {
    var r := StagePhase(Res(m, plan, Done), req);
    var r := if m.tx.existed then BackupPhase(dg, r) else r;
    RegistryPhase(dg, InstallPhase(dg, r), req)
  }

  function UpToRecord(dg: Digests, m: Machine, req: Request, plan: seq<Fault>): Res {
    var r := UpToRegistry(dg, m, req, plan);
    Then(Then(r, WriteReceipt(r.m.tx.receipt)), WriteIdempotency(r.m.tx.fingerprint))
  }

  /** The number of steps of the block. */
  function BlockCount(existed: bool, selected: bool): nat {
    2 + (if existed then 3 else 0) + 3 + RegistryCount(existed, selected) + 3
  }

  lemma {:induction false} RecordInStep(dg: Digests, m0: Machine, req: Request, plan: seq<Fault>)
    ensures InStep(UpToRecord(dg, m0, req, plan), UpToRecord(dg, m0, req, []), plan,
        BlockCount(m0.tx.existed, m0.tx.receipt.selected) - 1)
  {
    hide StagePhase, BackupPhase, InstallPhase, RegistryPhase, InStep, Then;
    var tx := m0.tx;
    var r, r0, n := StagePhase(Res(m0, plan, Done), req), StagePhase(Res(m0, [], Done), req), 2;
    StageInStep(m0, req, plan);
    StageSame(m0, req, plan);
    if tx.existed {
      BackupInStep(dg, r, r0, plan, n);
      BackupSame(dg, r);
      r, r0, n := BackupPhase(dg, r), BackupPhase(dg, r0), n + 3;
    }
    InstallInStep(dg, r, r0, plan, n);
    InstallSame(dg, r);
    r, r0, n := InstallPhase(dg, r), InstallPhase(dg, r0), n + 3;
    RegistryInStep(dg, r, r0, req, tx.existed, tx.receipt.selected, plan, n);
    r, r0, n := RegistryPhase(dg, r, req), RegistryPhase(dg, r0, req),
        n + RegistryCount(tx.existed, tx.receipt.selected);
    WritesInStep(r, r0, plan, n);
  }

  lemma {:induction false} WritesInStep(r: Res, r0: Res, plan: seq<Fault>, n: nat)
    requires InStep(r, r0, plan, n)
    ensures InStep(Then(Then(r, WriteReceipt(r.m.tx.receipt)), WriteIdempotency(r.m.tx.fingerprint)),
                   Then(Then(r0, WriteReceipt(r0.m.tx.receipt)), WriteIdempotency(r0.m.tx.fingerprint)), plan, n + 2)
  {
    var s, s0 := WriteReceipt(r.m.tx.receipt), WriteReceipt(r0.m.tx.receipt);
    ThenInStep(r, r0, plan, n, s, s0);
    ThenDone(r, s);
    ThenInStep(Then(r, s), Then(r0, s0), plan, n + 1, WriteIdempotency(r.m.tx.fingerprint),
        WriteIdempotency(r0.m.tx.fingerprint));
  }

  lemma {:induction false} StageSame(m0: Machine, req: Request, plan: seq<Fault>)
    ensures var r := StagePhase(Res(m0, plan, Done), req);
            r.end.Done? ==> SameTransaction(r.m.tx, m0.tx)
  {
  }

  lemma {:induction false} BackupSame(dg: Digests, r: Res)
    ensures BackupPhase(dg, r).end.Done? ==> r.end.Done? && SameTransaction(BackupPhase(dg, r).m.tx, r.m.tx)
  {
  }

  lemma {:induction false} InstallSame(dg: Digests, r: Res)
    ensures InstallPhase(dg, r).end.Done? ==> r.end.Done? && SameTransaction(InstallPhase(dg, r).m.tx, r.m.tx)
  {
  }

  lemma {:induction false} ThenNotYet(r: Res, s: Step)
    requires r.m.tx.status != Applied && (s.Commit? ==> s.transaction.status != Applied)
    ensures Then(r, s).m.tx.status != Applied
  {
  }

  lemma {:induction false} UpToRecordNotYet(dg: Digests, m: Machine, req: Request, plan: seq<Fault>)
    requires m.tx.status == Staging
    ensures UpToRecord(dg, m, req, plan).m.tx.status != Applied
  {
    hide RegistrySteps;
    var r := Res(m, plan, Done);
    ThenNotYet(r, Build(m.tx.stage, req.tree));
    ThenNotYet(Then(r, Build(m.tx.stage, req.tree)), Commit(m.tx.(status := Staged)));
    r := StagePhase(r, req);
    if m.tx.existed {
      BackupNotYet(dg, r);
      r := BackupPhase(dg, r);
    }
    InstallNotYet(dg, r);
    r := InstallPhase(dg, r);
    RegistryNotYet(dg, r, req);
    r := RegistryPhase(dg, r, req);
    ThenNotYet(r, WriteReceipt(r.m.tx.receipt));
    ThenNotYet(Then(r, WriteReceipt(r.m.tx.receipt)), WriteIdempotency(r.m.tx.fingerprint));
  }

  lemma {:induction false} BackupNotYet(dg: Digests, r: Res)
    requires r.m.tx.status != Applied
    ensures BackupPhase(dg, r).m.tx.status != Applied
  {
    var tx := r.m.tx;
    ThenNotYet(r, Move(tx.Dest(), tx.Backup()));
    var r1 := Then(r, Move(tx.Dest(), tx.Backup()));
    ThenNotYet(r1, Hash(tx.Backup()));
    var r2 := Then(r1, Hash(tx.Backup()));
    ThenNotYet(r2, Commit(tx.(backupDigest := DigestAt(dg, r2.m.disk.trees, tx.Backup()), status := BackupCreated)));
  }

  lemma {:induction false} InstallNotYet(dg: Digests, r: Res)
    requires r.m.tx.status != Applied
    ensures InstallPhase(dg, r).m.tx.status != Applied
  {
    var tx := r.m.tx;
    ThenNotYet(r, Move(tx.stage, tx.Dest()));
    var r1 := Then(r, Move(tx.stage, tx.Dest()));
    ThenNotYet(r1, Hash(tx.Dest()));
    var r2 := Then(r1, Hash(tx.Dest()));
    ThenNotYet(r2,
        Commit(tx.(appliedDigest := DigestAt(dg, r2.m.disk.trees, tx.Dest()), status := DestinationInstalled)));
  }

  lemma {:induction false} ChainNotYet(r0: Res, u: RegistryUpdate, existed: bool, selected: bool, selectable: bool,
      matches: bool)
    requires r0.m.tx.status != Applied
    ensures RegistryChain(r0, u, existed, selected, selectable, matches).m.tx.status != Applied
  {
    hide Then;
    var r := r0;
    ThenNotYet(r, WriteRegistry(u.created));
    r := ThenIf(r, !existed, WriteRegistry(u.created));
    ThenNotYet(r, WriteRegistry(u.refreshed));
    r := ThenIf(r, true, WriteRegistry(u.refreshed));
    ThenNotYet(r, Check(u.selection.Ok?, true));
    r := ThenIf(r, selected, Check(u.selection.Ok?, true));
    ThenNotYet(r, WriteRegistry(u.after));
    r := ThenIf(r, selected, WriteRegistry(u.after));
    ThenNotYet(r, Check(selectable, true));
    r := ThenIf(r, true, Check(selectable, true));
    ThenNotYet(r, Check(matches, false));
  }

  lemma {:induction false} RegistryNotYet(dg: Digests, r: Res, req: Request)
    requires r.m.tx.status != Applied
    ensures RegistryPhase(dg, r, req).m.tx.status != Applied
  {
    hide UpdateOf, RegistryChain, Selectable, SelectionIs;
    if r.end.Done? {
      var tx := r.m.tx;
      var u := UpdateOf(r.m.disk.registry, req, tx.existed, tx.receipt.selected);
      ChainNotYet(r, u, tx.existed, tx.receipt.selected, Selectable(u.after, req.brain),
          SelectionIs(u.after, req.brain, tx.receipt.selected));
    }
    var a := RegistrySteps(r, req);
    var reg := a.m.disk.registry;
    ThenNotYet(a,
        Commit(a.m.tx.(appliedRegistry := Some(reg), appliedRegistryDigest := Some(dg.registry(reg)),
        status := RegistryCommitted)));
  }

  /** The plan lets every step of a block that commits pass but raises at the last one, the
      journal write that follows the idempotency record. */
  predicate LastWriteFails(m0: Machine, req: Request, plan: seq<Fault>) {
    var n := BlockCount(m0.tx.existed, m0.tx.receipt.selected);
    Commits(m0.disk, m0.tx, req) && n <= |plan| && plan[n - 1].Raise? && Clear(plan, n - 1)
  }

  lemma {:induction false} BlockIsRecordThenCommit(dg: Digests, m0: Machine, req: Request, plan: seq<Fault>)
    ensures var r := UpToRecord(dg, m0, req, plan);
            var block := ApplyBlock(dg, m0, req, plan);
            if r.end.Done? then block == Then(r, Commit(r.m.tx.(status := Applied))) else block == r
  {
    hide StagePhase, BackupPhase, InstallPhase, RegistryPhase;
    var r := UpToRegistry(dg, m0, req, plan);
    ThenDone(r, WriteReceipt(r.m.tx.receipt));
    ThenDone(Then(r, WriteReceipt(r.m.tx.receipt)), WriteIdempotency(r.m.tx.fingerprint));
  }

  /** The block raises with the record in memory already at `applied` exactly for such a plan. */
  lemma {:induction false} LastWriteFailsIff(dg: Digests, m0: Machine, req: Request, plan: seq<Fault>)
    requires Ready(m0)
    ensures var r := ApplyBlock(dg, m0, req, plan);
            r.end.Raised? && r.m.tx.status == Applied <==> LastWriteFails(m0, req, plan)
  {
    hide UpToRecord, ApplyBlock, Commits, Ready;
    var r, r0 := UpToRecord(dg, m0, req, plan), UpToRecord(dg, m0, req, []);
    RecordInStep(dg, m0, req, plan);
    BlockCommitsIff(dg, m0, req);
    BlockIsRecordThenCommit(dg, m0, req, plan);
    BlockIsRecordThenCommit(dg, m0, req, []);
    SmoothThen(r0, Commit(r0.m.tx.(status := Applied)));
    NotYetReady(dg, m0, req, plan);
  }

  /** Nothing of the plan is left once its last fault was met. */
  lemma {:induction false} RaisedPlan(dg: Digests, m0: Machine, req: Request, plan: seq<Fault>)
    requires Ready(m0) && LastWriteFails(m0, req, plan) && |plan| == BlockCount(m0.tx.existed, m0.tx.receipt.selected)
    ensures ApplyBlock(dg, m0, req, plan).plan == []
    ensures ApplyBlock(dg, m0, req, plan).end == Raised(plan[|plan| - 1].http)
  {
    hide UpToRecord, ApplyBlock, Commits, Ready;
    RecordInStep(dg, m0, req, plan);
    BlockCommitsIff(dg, m0, req);
    BlockIsRecordThenCommit(dg, m0, req, plan);
    BlockIsRecordThenCommit(dg, m0, req, []);
  }

  lemma {:induction false} NotYetReady(dg: Digests, m0: Machine, req: Request, plan: seq<Fault>)
    requires Ready(m0)
    ensures UpToRecord(dg, m0, req, plan).m.tx.status != Applied
  {
    UpToRecordNotYet(dg, m0, req, plan);
  }

  // ----- Whole calls

  /** What a caller can check before a first request with this key. */
  predicate WouldCommit(dg: Digests, d: Disk, req: Request) {
    && Admits(dg, d, req)
    && Backup(req.Id()) !in d.trees
    && Commits(d, Opened(req, d), req)
  }

  lemma {:induction false} SmoothOpen(req: Request, d: Disk, tx: Transaction)
    ensures var o := Open(req, d, tx, []);
            o.plan == [] && !o.end.Crashed? && (o.end.Done? <==> tx.Backup() !in d.trees)
  {
    var r := Res(Machine(d, tx), [], Done);
    SmoothThenIf(r, tx.stage in d.trees, Remove(tx.stage));
    r := ThenIf(r, tx.stage in d.trees, Remove(tx.stage));
    SmoothThen(r, Check(tx.Backup() !in d.trees, true));
    SmoothThen(Then(r, Check(tx.Backup() !in d.trees, true)), Commit(tx));
  }

  lemma {:induction false} CommitsAfterOpen(d: Disk, m0: Machine, req: Request)
    requires StartsFrom(d, m0) && WellFormed(m0.tx) && m0.disk.registry == d.registry
    ensures Commits(m0.disk, m0.tx, req) <==> Commits(d, m0.tx, req)
  {
  }

  /** A first request without faults is answered with a receipt exactly when these hold. */
  lemma {:induction false} FirstApplyCommitsIff(dg: Digests, d: Disk, req: Request)
    requires req.key !in d.journal && req.key !in d.idempotency
    ensures Apply(dg, d, req, []).reply.Replied? <==> WouldCommit(dg, d, req)
  {
    hide ApplyBlock, Commits, Undo, Open, Objection, Admits;
    AdmitsIff(dg, d, req);
    if Objection(dg, d, req).None? {
      var tx := Opened(req, d);
      OpenedOpensOn(dg, d, req);
      OpenEnds(d, req, tx, []);
      SmoothOpen(req, d, tx);
      var o := Open(req, d, tx, []);
      if o.end.Done? {
        BlockCommitsIff(dg, o.m, req);
        CommitsAfterOpen(d, o.m, req);
      }
    }
  }

  // ----- In a consistent registry

  lemma {:induction false} FindSamePlace(brains: seq<Record>, out: seq<Record>, id: string)
    requires |out| == |brains| && HasId(brains, id)
    requires forall i :: 0 <= i < |brains| ==> out[i].id == brains[i].id
    ensures HasId(out, id) && Find(out, id) == out[IndexOf(brains, id)]
  {
    var k := IndexOf(brains, id);
    assert out[k].id == id;
    var m := IndexOf(out, id);
    assert brains[m].id == id;
  }

  lemma {:induction false} CreatedFound(r: Registry, brain: string, name: string)
    requires Consistent(r) && brain != "" && !HasId(r.brains, brain)
    ensures var created := CreateOf(r, brain, name, "restored", false, false).brains;
            HasId(created, brain) && !Find(created, brain).isActive
  {
    var s, added := CreateOf(r, brain, name, "restored", false, false),
        CreatedRecord(r, brain, name, "restored", false, false);
    CreateAddsOne(r, brain, name, "restored", false, false);
    CreateKeeps(r, brain, name, "restored", false, false);
    ActiveIsThere(r);
    HasIdIff(r.brains, brain);
    var n := |r.brains|;
    assert s.brains[n].id == brain && s.brains[n] == added;
    SameIdSameRecord(s.brains, Find(s.brains, brain), added);
  }

  /** The registry update never fails in a consistent registry: the brain ends up registered,
      active exactly as the receipt says, and usable exactly when its storage passes the scan. */
  lemma {:induction false} UpdateInConsistent(r: Registry, req: Request, selected: bool)
    requires Consistent(r) && req.brain != ""
    requires HasId(r.brains, req.brain) && Find(r.brains, req.brain).isActive ==> selected
    ensures var u := UpdateOf(r, req, HasId(r.brains, req.brain), selected);
            && u.selection.Ok? && HasId(u.after.brains, req.brain)
            && (Find(u.after.brains, req.brain).safe <==> req.brain in req.safe)
            && Find(u.after.brains, req.brain).isActive == selected
  {
    var id := req.brain;
    var existed := HasId(r.brains, id);
    var u := UpdateOf(r, req, existed, selected);
    if !existed { CreatedFound(r, id, req.displayName); }
    RefreshedFound(u.created, req.safe, id);
    SelectedFound(u.refreshed, id, HasId(r.brains, id) && Find(r.brains, id).isDefault);
    hide CreateOf, RefreshOf, SelectOf, Consistent;
  }

  lemma {:induction false} RefreshedFound(r: Registry, safe: set<string>, id: string)
    requires HasId(r.brains, id)
    ensures var brains := RefreshOf(r, safe).brains;
            HasId(brains, id) && Find(brains, id) == Find(r.brains, id).(safe := id in safe)
  {
    FindSamePlace(r.brains, RefreshOf(r, safe).brains, id);
  }

  lemma {:induction false} SelectedFound(r: Registry, id: string, makeDefault: bool)
    requires HasId(r.brains, id)
    ensures SelectOf(r, id, makeDefault).Ok?
    ensures var brains := SelectOf(r, id, makeDefault).value.brains;
            HasId(brains, id) && Find(brains, id) == Selected(Find(r.brains, id), id, makeDefault)
  {
    FindSamePlace(r.brains, SelectOf(r, id, makeDefault).value.brains, id);
  }

  lemma {:induction false} OpenedFacts(d: Disk, req: Request)
    ensures var tx := Opened(req, d);
            && (tx.existed <==> HasId(d.registry.brains, req.brain)) && tx.Dest() == Dest(req.brain)
            && tx.receipt.selected == ShouldSelect(d, req)
            && (HasId(d.registry.brains, req.brain) && Find(d.registry.brains, req.brain).isActive ==>
                ShouldSelect(d, req))
  {
  }

  lemma {:induction false} CommitsInConsistent(d: Disk, req: Request)
    requires Consistent(d.registry) && req.brain != ""
    ensures Commits(d, Opened(req, d), req)
            <==> (HasId(d.registry.brains, req.brain) ==> Dest(req.brain) in d.trees) && req.brain in req.safe
  {
    hide UpdateOf, Opened, Consistent, ShouldSelect;
    OpenedFacts(d, req);
    UpdateInConsistent(d.registry, req, ShouldSelect(d, req));
  }

  /** In a consistent registry the first fault-free request for a new key is answered exactly
      when it is admitted, its backup slot is free, a registered brain has its tree, and the
      installed storage passes the scan. */
  lemma {:induction false} FirstApplyInConsistent(dg: Digests, d: Disk, req: Request)
    requires Consistent(d.registry) && req.brain != "" && req.key !in d.journal && req.key !in d.idempotency
    ensures Apply(dg, d, req, []).reply.Replied?
            <==> && Admits(dg, d, req) && Backup(req.Id()) !in d.trees && req.brain in req.safe
                 && (HasId(d.registry.brains, req.brain) ==> Dest(req.brain) in d.trees)
  {
    FirstApplyCommitsIff(dg, d, req);
    CommitsInConsistent(d, req);
  }
}
