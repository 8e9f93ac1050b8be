/** Which requests may change a destination: what a fresh apply refuses, said of whole calls. */
module RestoreAdmission {
  import opened Wrappers
  import opened BrainRegistry
  import opened RestoreDisk
  import opened RestoreApply

  /** The digest by which a client names the destination it saw: whether the brain is registered
      and under which record, and whether there is a tree and with which digest. */
  function SeenState(dg: Digests, d: Disk, brain: string): string {
    var registered, present := HasId(d.registry.brains, brain), Dest(brain) in d.trees;
    dg.binding(Binding(brain, registered, present,
        if registered then Some(Find(d.registry.brains, brain)) else None,
        if present then Some(dg.tree(d.trees[Dest(brain)])) else None))
  }

  /** A registered brain may only be replaced with authority and confirmation, and in the directory
      the registry manages for it; a new one needs a free destination. Either way the destination
      is the one the client saw. */
  predicate Admits(dg: Digests, d: Disk, req: Request) {
    && (if HasId(d.registry.brains, req.brain) then
          var record := Find(d.registry.brains, req.brain);
          req.authorized && req.overwrite && record.layout == RegistryManaged && record.folder == req.brain
        else Dest(req.brain) !in d.trees)
    && req.expectedState == SeenState(dg, d, req.brain)
  }

  predicate New(d: Disk, req: Request) {
    req.key !in d.journal && req.key !in d.idempotency
  }

  /** A call with a new key that changes anything or is answered had to be admitted. */
  lemma {:induction false} ChangesOnlyIfAdmitted(dg: Digests, d: Disk, req: Request, plan: seq<Fault>)
    requires New(d, req)
    ensures Apply(dg, d, req, plan).disk != d || Apply(dg, d, req, plan).reply.Replied? ==> Admits(dg, d, req)
    ensures Apply(dg, d, req, plan).reply.Refused? <==> !Admits(dg, d, req)
  {
    hide Admits, Apply;
    FirstCallIs(dg, d, req, plan);
    AttemptIsNotRefused(dg, d, req, Opened(req, d), plan);
  }

  lemma {:induction false} AdmitsIff(dg: Digests, d: Disk, req: Request)
    ensures Objection(dg, d, req).None? <==> Admits(dg, d, req)
  {
  }

  /** An admitted first request is an attempt; any other is refused and changes nothing. */
  lemma {:induction false} FirstCallIs(dg: Digests, d: Disk, req: Request, plan: seq<Fault>)
    requires New(d, req)
    ensures Admits(dg, d, req) ==> Apply(dg, d, req, plan) == AttemptFrom(dg, d, req, Opened(req, d), plan)
    ensures !Admits(dg, d, req) ==> Apply(dg, d, req, plan).disk == d && Apply(dg, d, req, plan).reply.Refused?
  {
    hide Objection, Admits, AttemptFrom, Opened;
    AdmitsIff(dg, d, req);
  }

  lemma {:induction false} AttemptIsNotRefused(dg: Digests, d: Disk, req: Request, tx: Transaction, plan: seq<Fault>)
    ensures !AttemptFrom(dg, d, req, tx, plan).reply.Refused?
  {
    hide Open, ApplyBlock, Undo;
  }

  function Refusal(d: Disk, plan: seq<Fault>, code: string): Call<Receipt> {
    Call(d, plan, Refused(code))
  }

  /** Each missing condition has its own refusal; the first missing one decides, and nothing on
      disk changes, whatever the faults. */
  lemma {:induction false} FreshRefusals(dg: Digests, d: Disk, req: Request, plan: seq<Fault>)
    requires New(d, req)
    ensures var call, brains := Apply(dg, d, req, plan), d.registry.brains;
            if HasId(brains, req.brain) then
              var record := Find(brains, req.brain);
              && (!req.authorized ==> call == Refusal(d, plan, "existing_destination_not_authorized"))
              && (req.authorized && !req.overwrite ==> call == Refusal(d, plan, "overwrite_confirmation_required"))
              && (req.authorized && req.overwrite ==>
                    && (record.layout != RegistryManaged ==>
                          call == Refusal(d, plan, "registry_managed_destination_required"))
                    && (record.layout == RegistryManaged && record.folder != req.brain ==>
                          call == Refusal(d, plan, "destination_path_mismatch"))
                    && (record.layout == RegistryManaged && record.folder == req.brain
                        && req.expectedState != SeenState(dg, d, req.brain) ==>
                          call == Refusal(d, plan, "destination_changed_since_preflight")))
            else
              && (Dest(req.brain) in d.trees ==> call == Refusal(d, plan, "unregistered_destination_exists"))
              && (Dest(req.brain) !in d.trees && req.expectedState != SeenState(dg, d, req.brain) ==>
                    call == Refusal(d, plan, "destination_changed_since_preflight"))
  {
    hide AttemptFrom, Opened;
  }
}
