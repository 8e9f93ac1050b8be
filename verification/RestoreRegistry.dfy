/** What an answered restore makes of the registry, and that its receipt tells the truth. */
module RestoreRegistry {
  import opened Wrappers
  import opened FreshId
  import opened BrainRegistry
  import opened RestoreDisk
  import opened RestoreApply
  import opened RestoreAdmission
  import opened RestoreSafety
  import opened RestoreCalls
  import opened RestorePlan
  import opened RestoreStack
  import opened RestoreLastWrite

  /** The registry with one brain restored: every other brain keeps all but what the storage scan
      says of it; a new brain comes last; the default brain never changes, and the active one only
      if the restored brain is selected. */
  ghost predicate RestoredInto(before: Registry, after: Registry, req: Request, selected: bool) {
    var n := |before.brains|;
    && Consistent(after)
    && after.defaultId == before.defaultId
    && after.activeId == (if selected then req.brain else before.activeId)
    && |after.brains| == n + (if HasId(before.brains, req.brain) then 0 else 1)
    && (forall i :: 0 <= i < n ==>
          after.brains[i] == before.brains[i].(safe := before.brains[i].id in req.safe,
                                               isActive := before.brains[i].id == after.activeId))
    && (!HasId(before.brains, req.brain) ==>
          after.brains[n] == Record(req.brain, req.displayName, "restored", req.brain + "/storage", req.brain,
              RegistryManaged, false, selected, req.brain in req.safe))
  }

  /** The registry after the creation, if there is one. */
  lemma {:induction false} CreatedForRestore(r: Registry, req: Request, existed: bool, selected: bool)
    requires Consistent(r) && req.brain != "" && (existed <==> HasId(r.brains, req.brain))
    ensures var created := UpdateOf(r, req, existed, selected).created;
            && Consistent(created) && created.activeId == r.activeId && created.defaultId == r.defaultId
            && HasId(created.brains, req.brain)
            && created.brains == r.brains + if existed then [] else [Record(req.brain, req.displayName, "restored",
                 req.brain + "/storage", req.brain, RegistryManaged, false, false, false)]
  {
    hide Consistent;
    if !existed {
      CreateAddsOne(r, req.brain, req.displayName, "restored", false, false);
      CreateKeeps(r, req.brain, req.displayName, "restored", false, false);
      ActiveIsThere(r);
      UnflaggedAppends(r, req.brain, req.displayName, "restored");
      HasIdIff(r.brains, req.brain);
      assert CreatedRecord(r, req.brain, req.displayName, "restored", false, false).id == req.brain;
      CreatedFound(r, req.brain, req.displayName);
    }
  }

  lemma {:induction false} RefreshedForRestore(r: Registry, safe: set<string>)
    requires Consistent(r)
    ensures var s := RefreshOf(r, safe);
            && Consistent(s) && s.activeId == r.activeId && s.defaultId == r.defaultId && |s.brains| == |r.brains|
            && forall i :: 0 <= i < |r.brains| ==> s.brains[i] == r.brains[i].(safe := r.brains[i].id in safe)
  {
    var s := RefreshOf(r, safe);
    RefreshKeeps(r, safe);
    HeaderOf(r);
    HeaderOf(s);
    var a, d := Holder(r.brains, Active, r.activeId), Holder(r.brains, Default, r.defaultId);
    assert s.brains[a] in s.brains && s.brains[d] in s.brains;
  }

  /** Selecting it keeps the default brain: it is only made the default if it was. */
  lemma {:induction false} SelectedForRestore(r: Registry, id: string, wasDefault: bool)
    requires Consistent(r) && HasId(r.brains, id) && (wasDefault ==> r.defaultId == id)
    ensures SelectOf(r, id, wasDefault).Ok?
    ensures var s := SelectOf(r, id, wasDefault).value;
            && Consistent(s) && s.activeId == id && s.defaultId == r.defaultId && |s.brains| == |r.brains|
            && forall i :: 0 <= i < |r.brains| ==> s.brains[i] == r.brains[i].(isActive := r.brains[i].id == id)
  {
    SelectKeeps(r, id, wasDefault);
    HeaderOf(r);
    forall i | 0 <= i < |r.brains| ensures r.brains[i].isDefault <==> r.brains[i].id == r.defaultId {
      assert r.brains[i] in r.brains;
    }
  }

  lemma {:induction false} UpdateRestores(r: Registry, req: Request, existed: bool, selected: bool)
    requires Consistent(r) && req.brain != "" && (existed <==> HasId(r.brains, req.brain))
    requires r.activeId == req.brain ==> selected
    ensures RestoredInto(r, UpdateOf(r, req, existed, selected).after, req, selected)
  {
    hide Consistent, CreateOf, RefreshOf, SelectOf, RestoredInto;
    var u := UpdateOf(r, req, existed, selected);
    CreatedForRestore(r, req, existed, selected);
    RefreshedForRestore(u.created, req.safe);
    RefreshedFound(u.created, req.safe, req.brain);
    HeaderOf(r);
    SelectedForRestore(u.refreshed, req.brain, HasId(r.brains, req.brain) && Find(r.brains, req.brain).isDefault);
    ChainRestores(r, u, req, selected);
  }

  /** The three steps together. */
  lemma {:induction false} ChainRestores(r: Registry, u: RegistryUpdate, req: Request, selected: bool)
    requires Consistent(r) && Consistent(u.after)
    requires u.after.defaultId == r.defaultId && u.after.activeId == (if selected then req.brain else r.activeId)
    requires u.created.brains == r.brains + if HasId(r.brains, req.brain) then [] else [Record(req.brain,
                 req.displayName, "restored", req.brain + "/storage", req.brain, RegistryManaged, false, false, false)]
    requires |u.refreshed.brains| == |u.created.brains| == |u.after.brains|
    requires forall i :: 0 <= i < |u.created.brains| ==>
        u.refreshed.brains[i] == u.created.brains[i].(safe := u.created.brains[i].id in req.safe)
    requires forall i :: 0 <= i < |u.created.brains| ==>
        u.after.brains[i] == if selected then u.refreshed.brains[i].(isActive := u.refreshed.brains[i].id == req.brain)
                             else u.refreshed.brains[i]
    ensures RestoredInto(r, u.after, req, selected)
  {
    HeaderOf(r);
    hide Consistent;
    forall i | 0 <= i < |r.brains|
      ensures u.after.brains[i] == r.brains[i].(safe := r.brains[i].id in req.safe,
                                                isActive := r.brains[i].id == u.after.activeId)
    {
      assert r.brains[i] in r.brains && u.created.brains[i] == r.brains[i];
    }
  }

  /** An answered first restore in a consistent registry: the receipt says whether the brain was
      created or overwritten and whether it is now the selected one, the tree of the request is at
      its destination, and the registry has the brain and no other change. The brain is selected if
      it was asked for or was the active one before. */
  lemma {:induction false} FirstReceiptTells(dg: Digests, d: Disk, req: Request, plan: seq<Fault>)
    requires New(d, req) && Consistent(d.registry) && req.brain != "" && Apply(dg, d, req, plan).reply.Replied?
    ensures var d', receipt, existed := Apply(dg, d, req, plan).disk, Apply(dg, d, req, plan).reply.value,
                HasId(d.registry.brains, req.brain);
            && receipt == Receipt(ReceiptId(req.key, req.bundle, req.brain), req.brain, !existed, existed,
                 req.select || d.registry.activeId == req.brain)
            && RestoredInto(d.registry, d'.registry, req, receipt.selected)
            && At(d'.trees, Dest(req.brain)) == Some(req.tree) && req.brain in req.safe
  {
    hide Apply, Attempt, Consistent, RestoredInto, UpdateOf, Opened, OpensOn, Commits, CallCount, Admits, Objection;
    FirstIsAttempt(dg, d, req, plan);
    OpenedFacts(d, req);
    OpenedReceipt(d, req);
    SelectedIff(d, req);
    var m0, m := AttemptCommitted(dg, d, req, plan);
    AttemptStops(dg, d, req, plan);
    UpdateRestores(d.registry, req, m0.tx.existed, m0.tx.receipt.selected);
    FirstCallIff(dg, d, req, plan);
    CommitsInConsistent(d, req);
  }

  lemma {:induction false} OpenedReceipt(d: Disk, req: Request)
    ensures var existed := HasId(d.registry.brains, req.brain);
            Opened(req, d).receipt == Receipt(ReceiptId(req.key, req.bundle, req.brain), req.brain, !existed, existed,
                ShouldSelect(d, req))
  {
  }

  lemma {:induction false} SelectedIff(d: Disk, req: Request)
    requires Consistent(d.registry)
    ensures ShouldSelect(d, req) <==> req.select || d.registry.activeId == req.brain
  {
    HeaderOf(d.registry);
    if d.registry.activeId == req.brain { ActiveIsThere(d.registry); HasIdIff(d.registry.brains, req.brain); }
  }
}
