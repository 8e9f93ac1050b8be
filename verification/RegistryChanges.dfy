/** What each registry operation changes, field by field, and what it refuses. */
module RegistryChanges {
  import opened FreshId
  import opened Wrappers
  import opened BrainRegistry

  /** The records of the two registries correspond place by place. */
  predicate SamePlaces(r: Registry, s: Registry) {
    |r.brains| == |s.brains| && forall i :: 0 <= i < |r.brains| ==> r.brains[i].id == s.brains[i].id
  }

  /** Renaming is refused exactly for an unknown id. It changes the name and the description of that
      brain, and nothing else in the registry. */
  lemma {:induction false} RenameChangesOne(r: Registry, id: string, name: string, description: string)
    requires Consistent(r)
    ensures RenameOf(r, id, name, description).Ok? <==> HasId(r.brains, id)
    ensures !HasId(r.brains, id) ==> RenameOf(r, id, name, description) == Err("unknown_brain_id")
    ensures HasId(r.brains, id) ==>
              var s := RenameOf(r, id, name, description).value;
              && s == r.(brains := s.brains) && SamePlaces(r, s)
              && forall i :: 0 <= i < |r.brains| ==>
                   s.brains[i] == if r.brains[i].id == id then
                       r.brains[i].(displayName := name, description := description)
                                  else r.brains[i]
  {
    if HasId(r.brains, id) {
      RenameKeeps(r, id, name, description);
      KeepsHeader(r, RenameOf(r, id, name, description).value);
    }
  }

  /** Where the flags of the records stay, so does the header. */
  lemma {:induction false} KeepsHeader(r: Registry, s: Registry)
    requires Consistent(r) && Consistent(s) && SamePlaces(r, s)
    requires forall i :: 0 <= i < |r.brains| ==>
        s.brains[i].isActive == r.brains[i].isActive && s.brains[i].isDefault == r.brains[i].isDefault
    ensures s == r.(brains := s.brains)
  {
    HeaderOf(s);
    var a, d := Holder(r.brains, Active, r.activeId), Holder(r.brains, Default, r.defaultId);
    assert s.brains[a] in s.brains && s.brains[d] in s.brains;
  }

  /** A refresh changes only whether each brain is safe: those that pass the scan are. */
  lemma {:induction false} RefreshRescans(r: Registry, safe: set<string>)
    requires Consistent(r)
    ensures var s := RefreshOf(r, safe);
            && s == r.(brains := s.brains) && SamePlaces(r, s)
            && forall i :: 0 <= i < |r.brains| ==> s.brains[i] == r.brains[i].(safe := r.brains[i].id in safe)
  {
    RefreshKeeps(r, safe);
    KeepsHeader(r, RefreshOf(r, safe));
  }

  /** Selecting is refused exactly for an unknown id. Otherwise that brain alone is active, and alone
      the default if asked; nothing else changes. */
  lemma {:induction false} SelectChangesFlags(r: Registry, id: string, makeDefault: bool)
    requires Consistent(r)
    ensures !HasId(r.brains, id) ==> SelectOf(r, id, makeDefault) == Err("unknown_brain_id")
    ensures HasId(r.brains, id) ==>
              && SelectOf(r, id, makeDefault).Ok?
              && var s := SelectOf(r, id, makeDefault).value;
                 && s.activeId == id && s.defaultId == (if makeDefault then id else r.defaultId) && SamePlaces(r, s)
                 && forall i :: 0 <= i < |r.brains| ==>
                      s.brains[i] == r.brains[i].(isActive := r.brains[i].id == s.activeId,
                                                  isDefault := r.brains[i].id == s.defaultId)
  {
    HeaderOf(r);
    forall i | 0 <= i < |r.brains| ensures r.brains[i].isDefault <==> r.brains[i].id == r.defaultId {
      assert r.brains[i] in r.brains;
    }
  }

  /** The id is the base with the least suffix from 2 up that no brain has. */
  ghost predicate NextFree(r: Registry, base: string, id: string) {
    exists k :: k >= 2 && id == base + "_" + Decimal(k)
        && forall m :: 2 <= m < k ==> HasId(r.brains, base + "_" + Decimal(m))
  }

  /** A created brain comes last, managed and in a directory of its own, not yet safe, and under the
      id asked for or, if that is taken, under it with the least free suffix from 2 up. The others
      lose the flags it was given. */
  lemma {:induction false} CreateAppends(r: Registry, base: string, name: string, description: string,
      makeDefault: bool, makeActive: bool)
    requires Consistent(r) && base != ""
    ensures var s, n := CreateOf(r, base, name, description, makeDefault, makeActive), |r.brains|;
            && |s.brains| == n + 1
            && var id := s.brains[n].id;
               && !HasId(r.brains, id) && (if HasId(r.brains, base) then NextFree(r, base, id) else id == base)
               && s.brains[n] == Record(id, name, description, id + "/storage", id, RegistryManaged, makeDefault,
                    makeActive, false)
               && s.activeId == (if makeActive then id else r.activeId)
               && s.defaultId == (if makeDefault then id else r.defaultId)
               && forall i :: 0 <= i < n ==>
                    s.brains[i] == r.brains[i].(isActive := r.brains[i].id == s.activeId,
                                                isDefault := r.brains[i].id == s.defaultId)
  {
    var s, n := CreateOf(r, base, name, description, makeDefault, makeActive), |r.brains|;
    CreateAddsOne(r, base, name, description, makeDefault, makeActive);
    CreateKeeps(r, base, name, description, makeDefault, makeActive);
    HeaderOf(s);
    ActiveIsThere(r);
    hide Consistent, CreateOf;
    HasIdIff(r.brains, s.brains[n].id);
    HasIdIff(r.brains, base);
    LeastSuffix(r, base);
    forall i | 0 <= i < n
      ensures s.brains[i] == r.brains[i].(isActive := r.brains[i].id == s.activeId,
                                          isDefault := r.brains[i].id == s.defaultId)
    {
      assert s.brains[i] in s.brains && SameBrain(r.brains[i], s.brains[i]);
    }
  }

  lemma {:induction false} LeastSuffix(r: Registry, base: string)
    ensures base in Ids(r.brains) ==> NextFree(r, base, UniqueId(base, Ids(r.brains)))
  {
    if base in Ids(r.brains) {
      var k := FirstFree(base, Ids(r.brains), 2);
      forall m | 2 <= m < k ensures HasId(r.brains, base + "_" + Decimal(m)) {
        assert Suffixed(base, m) in Ids(r.brains);
        HasIdIff(r.brains, Suffixed(base, m));
      }
      assert UniqueId(base, Ids(r.brains)) == base + "_" + Decimal(k);
    }
  }

  /** The refusals of a deletion, in order. */
  lemma {:induction false} DeleteRefusals(r: Registry, id: string, confirmation: string)
    requires Consistent(r)
    ensures var res := DeleteOf(r, id, confirmation);
            if id != confirmation then res == Err("delete_confirmation_mismatch")
            else if !HasId(r.brains, id) then res == Err("unknown_brain_id")
            else if |r.brains| == 1 then res == Err("cannot_delete_last_brain")
            else if id == r.activeId || id == r.defaultId then res == Err("cannot_delete_active_or_default_brain")
            else res.Ok?
  {
    HeaderOf(r);
    if HasId(r.brains, id) { assert Find(r.brains, id) in r.brains; }
  }

  /** An import is refused exactly over a brain it may not overwrite: one that is there without
      leave to overwrite, or one the registry does not manage. */
  lemma {:induction false} ImportRefusals(r: Registry, id: string, name: string, description: string,
      makeDefault: bool, makeActive: bool, overwrite: bool, safe: bool)
    ensures var res := ImportOf(r, id, name, description, makeDefault, makeActive, overwrite, safe);
            if !HasId(r.brains, id) then res.Ok?
            else if !overwrite then res == Err("brain_id_already_exists")
            else if Find(r.brains, id).layout != RegistryManaged then
              res == Err("overwrite_requires_registry_managed_brain")
            else res.Ok?
  {
  }

  /** One that drops no flag puts a managed brain with the imported name and description last, in a
      directory of its own, and keeps the others in their order but for the flags it claims. */
  lemma {:induction false} ImportAppends(r: Registry, id: string, name: string, description: string,
      makeDefault: bool, makeActive: bool, overwrite: bool, safe: bool)
    requires Consistent(r) && id != "" && !DropsFlag(r, id, makeDefault, makeActive)
    requires ImportOf(r, id, name, description, makeDefault, makeActive, overwrite, safe).Ok?
    ensures var s, others := ImportOf(r, id, name, description, makeDefault, makeActive, overwrite, safe).value,
                Without(r.brains, id);
            && s.activeId == (if makeActive then id else r.activeId)
            && s.defaultId == (if makeDefault then id else r.defaultId)
            && |s.brains| == |others| + 1
            && s.brains[|others|] == Record(id, name, description, id + "/storage", id, RegistryManaged,
                 s.defaultId == id, s.activeId == id, safe)
            && forall i :: 0 <= i < |others| ==>
                 s.brains[i] == others[i].(isActive := others[i].id == s.activeId,
                                           isDefault := others[i].id == s.defaultId)
  {
    hide Consistent, DropsFlag, ImportOf, Without, HasId;
    ImportReplacesOne(r, id, name, description, makeDefault, makeActive, overwrite, safe);
    ImportKeepsIff(r, id, name, description, makeDefault, makeActive, overwrite, safe);
    ImportShape(r, id, name, description, makeDefault, makeActive, overwrite, safe);
    WithoutAbsent(r.brains, id);
    var s, others := ImportOf(r, id, name, description, makeDefault, makeActive, overwrite, safe).value,
        Without(r.brains, id);
    HeaderOf(s);
    forall i | 0 <= i < |s.brains|
      ensures (s.brains[i].isActive <==> s.brains[i].id == s.activeId)
           && (s.brains[i].isDefault <==> s.brains[i].id == s.defaultId)
    {
      assert s.brains[i] in s.brains;
    }
  }

  lemma {:induction false} WithoutAbsent(brains: seq<Record>, id: string)
    ensures !HasId(brains, id) ==> Without(brains, id) == brains
  {
    if brains != [] && !HasId(brains, id) {
      assert brains[0].id != id;
      assert forall i :: 0 <= i < |brains[1..]| ==> brains[1..][i].id == brains[i + 1].id;
      WithoutAbsent(brains[1..], id);
    }
  }

  lemma {:induction false} ImportShape(r: Registry, id: string, name: string, description: string,
      makeDefault: bool, makeActive: bool, overwrite: bool, safe: bool)
    requires ImportOf(r, id, name, description, makeDefault, makeActive, overwrite, safe).Ok?
    ensures var s, others := ImportOf(r, id, name, description, makeDefault, makeActive, overwrite, safe).value,
                Others(r.brains, id);
            && |s.brains| == |others| + 1
            && s.brains[|others|] == Record(id, name, description, id + "/storage", id, RegistryManaged,
                 makeDefault || others == [], makeActive || others == [], safe)
            && forall i :: 0 <= i < |others| ==> SameBrain(others[i], s.brains[i])
  {
  }

  /** A caller that must name a brain and does not is refused. One that need not gets the brain the
      header names as active, or as the default if it names none active; it is refused unless there
      is such a brain and exactly one record is flagged as the default. */
  lemma {:induction false} ResolveUnscoped(r: Registry)
    ensures Resolve(r, "", true) == Err("brain_id_required")
    ensures var res, id := Resolve(r, "", false), if r.activeId != "" then r.activeId else r.defaultId;
            && (res.Ok? <==> id != "" && HasId(r.brains, id) && exists i :: OnlyAt(r.brains, Default, i))
            && (res.Ok? ==> res.value.id == id && res.value in r.brains)
            && (res.Err? ==> res.error == "ambiguous_brain_scope_without_safe_default")
  {
    var id := if r.activeId != "" then r.activeId else r.defaultId;
    CountIsUnique(r.brains, Default);
    if id in ById(r.brains) { HasIdMember(r.brains, ById(r.brains)[id]); }
  }
}
