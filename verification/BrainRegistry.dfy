/** The local brain registry: a list of records with one active and one default brain,
    mirrored in header fields, and the operations that rewrite it.

    Each operation is a function on registry values (`...Of`), and the class below is the
    persisted registry that the operations update in place. */
module BrainRegistry {
  import opened FreshId
  import opened Wrappers

  datatype Layout = RegistryManaged | LegacyInPlace

  datatype Record = Record(
    id: string,
    displayName: string,
    description: string,
    storagePath: string,
    folder: string,
    layout: Layout,
    isDefault: bool,
    isActive: bool,
    safe: bool)

  datatype Registry = Registry(brains: seq<Record>, activeId: string, defaultId: string, count: nat)

  // ----- Reading the list of records

  function Active(r: Record): bool { r.isActive }
  function Default(r: Record): bool { r.isDefault }

  function Ids(brains: seq<Record>): (ids: set<string>) {
    set r | r in brains :: r.id
  }

  /** The id of the first record with the flag, or "" when there is none. */
  function FirstWith(brains: seq<Record>, flag: Record -> bool): string {
    if brains == [] then ""
    else if flag(brains[0]) then brains[0].id
    else FirstWith(brains[1..], flag)
  }

  function CountWith(brains: seq<Record>, flag: Record -> bool): nat {
    if brains == [] then 0
    else (if flag(brains[0]) then 1 else 0) + CountWith(brains[1..], flag)
  }

  predicate HasId(brains: seq<Record>, id: string) {
    exists i :: 0 <= i < |brains| && brains[i].id == id
  }

  function IndexOf(brains: seq<Record>, id: string): (i: nat)
    requires HasId(brains, id)
    ensures i < |brains| && brains[i].id == id
    ensures forall j :: 0 <= j < i ==> brains[j].id != id
  {
    if brains[0].id == id then 0
    else
      assert HasId(brains[1..], id) by {
        var k :| 0 <= k < |brains| && brains[k].id == id;
        assert brains[1..][k - 1].id == id;
      }
      1 + IndexOf(brains[1..], id)
  }

  function Find(brains: seq<Record>, id: string): (r: Record)
    requires HasId(brains, id)
    ensures r in brains && r.id == id
  {
    brains[IndexOf(brains, id)]
  }

  // ----- The invariant

  predicate DistinctIds(brains: seq<Record>) {
    forall i, j :: 0 <= i < j < |brains| ==> brains[i].id != brains[j].id
  }

  predicate OnlyAt(brains: seq<Record>, flag: Record -> bool, i: int) {
    0 <= i < |brains| && forall j :: 0 <= j < |brains| ==> (flag(brains[j]) <==> j == i)
  }

  /** Exactly one record carries the flag, and `header` is its id. */
  ghost predicate Unique(brains: seq<Record>, flag: Record -> bool, header: string) {
    exists i :: OnlyAt(brains, flag, i) && brains[i].id == header
  }

  ghost predicate Consistent(r: Registry) {
    && DistinctIds(r.brains)
    && (forall i :: 0 <= i < |r.brains| ==> r.brains[i].id != "")
    && Unique(r.brains, Active, r.activeId)
    && Unique(r.brains, Default, r.defaultId)
    && r.count == |r.brains|
  }

  lemma {:induction false} OnlyIsFirst(brains: seq<Record>, flag: Record -> bool, i: int)
    requires OnlyAt(brains, flag, i)
    ensures FirstWith(brains, flag) == brains[i].id
  {
    if i > 0 {
      assert !flag(brains[0]);
      OnlyIsFirst(brains[1..], flag, i - 1);
    }
  }

  // ----- Operations

  /** Recomputes the header from the records. */
  function Finalized(brains: seq<Record>): Registry {
    Registry(brains, FirstWith(brains, Active), FirstWith(brains, Default), |brains|)
  }

  function Mapped(brains: seq<Record>, f: Record -> Record): (out: seq<Record>)
    ensures |out| == |brains|
    ensures forall i :: 0 <= i < |brains| ==> out[i] == f(brains[i])
  {
    seq(|brains|, i requires 0 <= i < |brains| => f(brains[i]))
  }

  /** What `create_local_brain` does to the flags of the records already there. */
  function Demoted(r: Record, only: bool, makeDefault: bool, makeActive: bool): Record {
    r.(isActive := if makeActive || only then false else r.isActive,
       isDefault := if makeDefault || only then false else r.isDefault)
  }

  function CreatedRecord(r: Registry, base: string, name: string, description: string, makeDefault: bool,
      makeActive: bool): Record {
    var id := UniqueId(base, Ids(r.brains));
    var empty := r.brains == [];
    Record(id, name, description, id + "/storage", id, RegistryManaged,
           makeDefault || empty, makeActive || empty, false)
  }

  function CreateOf(r: Registry, base: string, name: string, description: string, makeDefault: bool, makeActive: bool)
      : Registry {
    var kept := Mapped(r.brains, (b: Record) => Demoted(b, r.brains == [], makeDefault, makeActive));
    Finalized(kept + [CreatedRecord(r, base, name, description, makeDefault, makeActive)])
  }

  function Renamed(b: Record, id: string, name: string, description: string): Record {
    if b.id == id then b.(displayName := name, description := description) else b
  }

  function RenameOf(r: Registry, id: string, name: string, description: string): Result<Registry, string> {
    if HasId(r.brains, id) then Ok(Finalized(Mapped(r.brains, (b: Record) => Renamed(b, id, name, description))))
    else Err("unknown_brain_id")
  }

  function Selected(b: Record, id: string, makeDefault: bool): Record {
    b.(isActive := b.id == id, isDefault := if makeDefault then b.id == id else b.isDefault)
  }

  /** Selecting writes the header directly and leaves the default header alone unless asked. */
  function SelectOf(r: Registry, id: string, makeDefault: bool): Result<Registry, string> {
    if HasId(r.brains, id) then
      Ok(Registry(Mapped(r.brains, (b: Record) => Selected(b, id, makeDefault)), id,
                  if makeDefault then id else r.defaultId, |r.brains|))
    else Err("unknown_brain_id")
  }

  function Without(brains: seq<Record>, id: string): (out: seq<Record>)
    ensures forall b :: b in out <==> b in brains && b.id != id
  {
    if brains == [] then []
    else if brains[0].id == id then Without(brains[1..], id)
    else [brains[0]] + Without(brains[1..], id)
  }

  function DeleteOf(r: Registry, id: string, confirmation: string): Result<Registry, string> {
    if id != confirmation then Err("delete_confirmation_mismatch")
    else if !HasId(r.brains, id) then Err("unknown_brain_id")
    else if |r.brains| <= 1 then Err("cannot_delete_last_brain")
    else if Find(r.brains, id).isActive || Find(r.brains, id).isDefault then
        Err("cannot_delete_active_or_default_brain")
    else Ok(Finalized(Without(r.brains, id)))
  }

  function Displaced(b: Record, makeDefault: bool, makeActive: bool): Record {
    b.(isActive := if makeActive then false else b.isActive,
       isDefault := if makeDefault then false else b.isDefault)
  }

  function ImportedRecord(id: string, name: string, description: string, makeDefault: bool, makeActive: bool,
      alone: bool, safe: bool): Record {
    Record(id, name, description, id + "/storage", id, RegistryManaged, makeDefault || alone, makeActive || alone, safe)
  }

  function Others(brains: seq<Record>, id: string): seq<Record> {
    if HasId(brains, id) then Without(brains, id) else brains
  }

  function ImportBrains(brains: seq<Record>, added: Record, makeDefault: bool, makeActive: bool): seq<Record> {
    Mapped(Others(brains, added.id), (b: Record) => Displaced(b, makeDefault, makeActive)) + [added]
  }

  function ImportOf(r: Registry, id: string, name: string, description: string, makeDefault: bool, makeActive: bool,
      overwrite: bool, safe: bool): Result<Registry, string>
  {
    if HasId(r.brains, id) && !overwrite then Err("brain_id_already_exists")
    else if HasId(r.brains, id) && Find(r.brains, id).layout != RegistryManaged then
        Err("overwrite_requires_registry_managed_brain")
    else
      var added := ImportedRecord(id, name, description, makeDefault, makeActive, Others(r.brains, id) == [], safe);
      Ok(Finalized(ImportBrains(r.brains, added, makeDefault, makeActive)))
  }

  /** Re-reads every record from its storage: only the storage-derived field changes.
      `safe` names the brains whose storage scan passes. */
  function RefreshOf(r: Registry, safe: set<string>): Registry {
    Finalized(Mapped(r.brains, (b: Record) => b.(safe := b.id in safe)))
  }

  // ----- Bootstrap

  /** Discovered legacy ids are made distinct in discovery order. */
  function LegacyIds(legacy: seq<string>, seen: set<string>): (ids: seq<string>)
    ensures |ids| == |legacy|
    ensures forall i :: 0 <= i < |ids| ==> ids[i] !in seen
    ensures forall i, j :: 0 <= i < j < |ids| ==> ids[i] != ids[j]
    ensures "" !in legacy ==> "" !in ids
  {
    if legacy == [] then []
    else
      var id := UniqueId(legacy[0], seen);
      [id] + LegacyIds(legacy[1..], seen + {id})
  }

  /** The dictionary of previous records: the last record of an id wins. */
  function ById(brains: seq<Record>): (m: map<string, Record>)
    ensures forall id :: id in m ==> id != "" && m[id].id == id && m[id] in brains
    ensures forall b :: b in brains && b.id != "" ==> b.id in m
  {
    if brains == [] then map[]
    else
      var last := brains[|brains| - 1];
      var m := ById(brains[..|brains| - 1]);
      if last.id != "" then m[last.id := last] else m
  }

  /** The keys of that dictionary in the order a dictionary keeps them: first insertion. */
  function KeyOrder(brains: seq<Record>): (ids: seq<string>)
    ensures forall i, j :: 0 <= i < j < |ids| ==> ids[i] != ids[j]
    ensures forall id :: id in ids <==> id in ById(brains)
  {
    if brains == [] then []
    else
      var ids := KeyOrder(brains[..|brains| - 1]);
      var last := brains[|brains| - 1];
      if last.id != "" && last.id !in ids then ids + [last.id] else ids
  }

  function LegacyRecord(id: string, prev: map<string, Record>): (r: Record)
    ensures r.id == id
  {
    if id in prev then prev[id].(id := id)
    else Record(id, id, "", "legacy/" + id, id, LegacyInPlace, false, false, false)
  }

  function FoundRecords(ids: seq<string>, prev: map<string, Record>): (out: seq<Record>)
    ensures |out| == |ids| && forall i :: 0 <= i < |ids| ==> out[i].id == ids[i]
  {
    seq(|ids|, i requires 0 <= i < |ids| => LegacyRecord(ids[i], prev))
  }

  /** A carried-over record is rebuilt without its flags and with the default layout. */
  function Carried(r: Record): Record {
    r.(isDefault := false, isActive := false, layout := LegacyInPlace)
  }

  /** Registered brains that no legacy directory accounts for, in dictionary order. */
  function CarriedOver(keys: seq<string>, prev: map<string, Record>, seen: set<string>): (out: seq<Record>)
    requires forall id :: id in keys ==> id in prev && prev[id].id == id
    requires forall i, j :: 0 <= i < j < |keys| ==> keys[i] != keys[j]
    ensures forall r :: r in out <==> (r.id in keys && r.id !in seen && prev[r.id].storagePath != ""
                                       && r == Carried(prev[r.id]))
    ensures DistinctIds(out)
  {
    if keys == [] then []
    else
      var head, rest := prev[keys[0]], CarriedOver(keys[1..], prev, seen);
      if keys[0] !in seen && head.storagePath != "" then [Carried(head)] + rest
      else rest
  }

  /** Which brain a bootstrap makes active and default, given the preferred id. */
  function Target(brains: seq<Record>, preferred: string): (id: string)
    requires brains != []
    ensures HasId(brains, id)
    ensures HasId(brains, preferred) ==> id == preferred
  {
    if HasId(brains, preferred) then preferred
    else if HasId(brains, FirstWith(brains, Active)) then FirstWith(brains, Active)
    else if HasId(brains, FirstWith(brains, Default)) then FirstWith(brains, Default)
    else
      assert brains[0].id == brains[0].id;
      brains[0].id
  }

  /** The preferred id: the request if it is known, else the active then the default brain
      of the previous registry, else the id of the current data directory. */
  function Preferred(previous: Registry, legacy: seq<string>, requested: string, current: string): string {
    var prev := ById(previous.brains);
    if requested != "" && (requested in prev || requested in legacy) then requested
    else if previous.activeId != "" && previous.activeId in prev then previous.activeId
    else if previous.defaultId != "" && previous.defaultId in prev then previous.defaultId
    else current
  }

  function BootstrapRecords(previous: Registry, legacy: seq<string>, fallback: string): (out: seq<Record>)
    ensures out != []
    ensures DistinctIds(out)
    ensures "" !in legacy && fallback != "" ==> forall r :: r in out ==> r.id != ""
  {
    var prev := ById(previous.brains);
    var ids := LegacyIds(legacy, {});
    var all := FoundRecords(ids, prev) + CarriedOver(KeyOrder(previous.brains), prev, set id | id in ids);
    if all == [] then
        [Record(fallback, fallback, "", fallback + "/storage", fallback, RegistryManaged, false, false, false)]
    else all
  }

  function BootstrapOf(previous: Registry, legacy: seq<string>, requested: string, current: string, fallback: string)
      : Registry {
    var records := BootstrapRecords(previous, legacy, fallback);
    var target := Target(records, Preferred(previous, legacy, requested, current));
    Finalized(Mapped(records, (b: Record) => Selected(b, target, true)))
  }

  lemma {:induction false} Associative<T>(a: seq<T>, b: seq<T>, c: seq<T>)
    ensures (a + b) + c == a + (b + c)
  {
  }

  lemma {:induction false} FoundStep(ids: seq<string>, id: string, prev: map<string, Record>)
    ensures FoundRecords(ids + [id], prev) == FoundRecords(ids, prev) + [LegacyRecord(id, prev)]
  {
  }

  lemma {:induction false} LegacyStep(legacy: seq<string>, seen: set<string>, i: nat)
    requires i < |legacy|
    ensures var id := UniqueId(legacy[i], seen);
            LegacyIds(legacy[i..], seen) == [id] + LegacyIds(legacy[i + 1..], seen + {id})
  {
    var tail := legacy[i..];
    assert tail[0] == legacy[i] && tail[1..] == legacy[i + 1..];
  }

  lemma {:induction false} WithoutStep(rows: seq<Record>, id: string, i: nat)
    requires i < |rows|
    ensures Without(rows[i..], id) == (if rows[i].id != id then [rows[i]] else []) + Without(rows[i + 1..], id)
  {
    var tail := rows[i..];
    assert tail[0] == rows[i] && tail[1..] == rows[i + 1..];
  }

  lemma {:induction false} CarriedStep(keys: seq<string>, prev: map<string, Record>, seen: set<string>, i: nat)
    requires i < |keys|
    requires forall id :: id in keys ==> id in prev && prev[id].id == id
    requires forall j, k :: 0 <= j < k < |keys| ==> keys[j] != keys[k]
    ensures CarriedOver(keys[i..], prev, seen)
         == (if keys[i] !in seen && prev[keys[i]].storagePath != "" then [Carried(prev[keys[i]])] else [])
            + CarriedOver(keys[i + 1..], prev, seen)
  {
    var tail := keys[i..];
    assert tail[0] == keys[i] && tail[1..] == keys[i + 1..];
  }

  // ----- Every operation keeps the registry consistent

  lemma {:induction false} FinalizedConsistent(brains: seq<Record>, a: int, d: int)
    requires DistinctIds(brains) && forall i :: 0 <= i < |brains| ==> brains[i].id != ""
    requires OnlyAt(brains, Active, a) && OnlyAt(brains, Default, d)
    ensures Consistent(Finalized(brains))
  {
    OnlyIsFirst(brains, Active, a);
    OnlyIsFirst(brains, Default, d);
  }

  /** The one place a flag sits, in a consistent registry. */
  ghost function Holder(brains: seq<Record>, flag: Record -> bool, header: string): (i: int)
    requires Unique(brains, flag, header)
    ensures OnlyAt(brains, flag, i) && brains[i].id == header
  {
    var i :| OnlyAt(brains, flag, i) && brains[i].id == header;
    i
  }

  lemma {:induction false} AppendDistinct(brains: seq<Record>, r: Record)
    requires DistinctIds(brains) && r.id !in Ids(brains)
    ensures DistinctIds(brains + [r])
  {
    forall i, j | 0 <= i < j < |brains| + 1
      ensures (brains + [r])[i].id != (brains + [r])[j].id
    {
      assert brains[i] in brains;
    }
  }

  lemma {:induction false} AppendOnly(kept: seq<Record>, added: Record, flag: Record -> bool, i: int)
    requires flag(added) ==> i == |kept| && forall j :: 0 <= j < |kept| ==> !flag(kept[j])
    requires !flag(added) ==> OnlyAt(kept, flag, i)
    ensures OnlyAt(kept + [added], flag, i)
  {
  }

  lemma {:induction false} SameIds(a: seq<Record>, b: seq<Record>)
    requires |a| == |b| && forall i :: 0 <= i < |a| ==> a[i].id == b[i].id
    ensures Ids(a) == Ids(b)
  {
    forall id ensures id in Ids(a) <==> id in Ids(b) {
      if r :| r in a && r.id == id { var i :| 0 <= i < |a| && a[i] == r; assert b[i] in b; }
      if r :| r in b && r.id == id { var i :| 0 <= i < |b| && b[i] == r; assert a[i] in a; }
    }
  }

  lemma {:induction false} CreateKeeps(r: Registry, base: string, name: string, description: string, makeDefault: bool,
      makeActive: bool)
    requires Consistent(r) && base != ""
    ensures Consistent(CreateOf(r, base, name, description, makeDefault, makeActive))
  {
    var kept := Mapped(r.brains, (b: Record) => Demoted(b, r.brains == [], makeDefault, makeActive));
    var added := CreatedRecord(r, base, name, description, makeDefault, makeActive);
    var a, d := Holder(r.brains, Active, r.activeId), Holder(r.brains, Default, r.defaultId);
    SameIds(r.brains, kept);
    AppendDistinct(kept, added);
    AppendOnly(kept, added, Active, if makeActive then |kept| else a);
    AppendOnly(kept, added, Default, if makeDefault then |kept| else d);
    FinalizedConsistent(kept + [added], if makeActive then |kept| else a, if makeDefault then |kept| else d);
  }

  lemma {:induction false} RenameKeeps(r: Registry, id: string, name: string, description: string)
    requires Consistent(r) && RenameOf(r, id, name, description).Ok?
    ensures Consistent(RenameOf(r, id, name, description).value)
  {
    var out := RenameOf(r, id, name, description).value.brains;
    FinalizedConsistent(out, Holder(r.brains, Active, r.activeId), Holder(r.brains, Default, r.defaultId));
  }

  lemma {:induction false} RefreshKeeps(r: Registry, safe: set<string>)
    requires Consistent(r)
    ensures Consistent(RefreshOf(r, safe))
    ensures RefreshOf(r, safe).activeId == r.activeId && RefreshOf(r, safe).defaultId == r.defaultId
  {
    var a, d := Holder(r.brains, Active, r.activeId), Holder(r.brains, Default, r.defaultId);
    var out := RefreshOf(r, safe).brains;
    FinalizedConsistent(out, a, d);
    OnlyIsFirst(out, Active, a);
    OnlyIsFirst(out, Default, d);
  }

  lemma {:induction false} SelectKeeps(r: Registry, id: string, makeDefault: bool)
    requires Consistent(r) && SelectOf(r, id, makeDefault).Ok?
    ensures Consistent(SelectOf(r, id, makeDefault).value)
  {
    var out, i := SelectOf(r, id, makeDefault).value.brains, IndexOf(r.brains, id);
    var d := Holder(r.brains, Default, r.defaultId);
    assert OnlyAt(out, Active, i);
    assert OnlyAt(out, Default, if makeDefault then i else d);
  }

  lemma {:induction false} HasIdTail(brains: seq<Record>, id: string)
    requires brains != []
    ensures HasId(brains, id) <==> brains[0].id == id || HasId(brains[1..], id)
  {
    if k :| 0 <= k < |brains| && brains[k].id == id {
      if k > 0 { assert brains[1..][k - 1].id == id; }
    }
    if k :| 0 <= k < |brains[1..]| && brains[1..][k].id == id { assert brains[k + 1].id == id; }
  }

  lemma {:induction false} WithoutSize(brains: seq<Record>, id: string)
    requires DistinctIds(brains)
    ensures |Without(brains, id)| == |brains| - (if HasId(brains, id) then 1 else 0)
  {
    if brains != [] {
      WithoutSize(brains[1..], id);
      HasIdTail(brains, id);
    }
  }

  lemma {:induction false} WithoutDistinct(brains: seq<Record>, id: string)
    requires DistinctIds(brains)
    ensures DistinctIds(Without(brains, id))
  {
    if brains != [] {
      var rest, out := Without(brains[1..], id), Without(brains, id);
      WithoutDistinct(brains[1..], id);
      if brains[0].id != id {
        forall j | 1 <= j < |out| ensures out[0].id != out[j].id {
          assert out[j] == rest[j - 1] && rest[j - 1] in rest;
        }
      }
    }
  }

  lemma {:induction false} WithoutOnly(brains: seq<Record>, id: string, flag: Record -> bool, i: int) returns (j: int)
    requires OnlyAt(brains, flag, i) && brains[i].id != id
    ensures OnlyAt(Without(brains, id), flag, j) && Without(brains, id)[j] == brains[i]
  {
    var tail, rest := brains[1..], Without(brains[1..], id);
    if i > 0 {
      j := WithoutOnly(tail, id, flag, i - 1);
      j := if brains[0].id == id then j else j + 1;
    } else {
      forall b | b in rest ensures !flag(b) {
        var k :| 0 <= k < |tail| && tail[k] == b;
        assert brains[k + 1] == b;
      }
      j := 0;
    }
  }

  lemma {:induction false} DeleteKeeps(r: Registry, id: string, confirmation: string)
    requires Consistent(r) && DeleteOf(r, id, confirmation).Ok?
    ensures Consistent(DeleteOf(r, id, confirmation).value)
  {
    var a, d, i := Holder(r.brains, Active, r.activeId), Holder(r.brains, Default, r.defaultId), IndexOf(r.brains, id);
    var out := Without(r.brains, id);
    assert Active(r.brains[a]) && Default(r.brains[d]) && r.brains[i] == Find(r.brains, id);
    WithoutDistinct(r.brains, id);
    var a' := WithoutOnly(r.brains, id, Active, a);
    var d' := WithoutOnly(r.brains, id, Default, d);
    FinalizedConsistent(out, a', d');
  }

  /** The import overwrites a brain that carries a flag, does not claim that flag for the
      imported brain, and leaves other brains behind that do not carry it. */
  predicate DropsFlag(r: Registry, id: string, makeDefault: bool, makeActive: bool) {
    && |r.brains| > 1
    && HasId(r.brains, id)
    && ((Find(r.brains, id).isActive && !makeActive) || (Find(r.brains, id).isDefault && !makeDefault))
  }

  lemma {:induction false} OthersDistinct(brains: seq<Record>, id: string)
    requires DistinctIds(brains)
    ensures DistinctIds(Others(brains, id))
    ensures |Others(brains, id)| == |brains| - (if HasId(brains, id) then 1 else 0)
    ensures forall b :: b in Others(brains, id) ==> b in brains && b.id != id
  {
    WithoutDistinct(brains, id);
    WithoutSize(brains, id);
  }

  /** Where one flag ends up after an import: on exactly one record, or lost. */
  lemma {:induction false} ImportFlag(brains: seq<Record>, added: Record, makeDefault: bool, makeActive: bool,
      flag: Record -> bool, make: bool, h: int) returns (lost: bool, i: int)
    requires DistinctIds(brains) && OnlyAt(brains, flag, h)
    requires forall b :: flag(Displaced(b, makeDefault, makeActive)) <==> flag(b) && !make
    requires flag(added) <==> make || Others(brains, added.id) == []
    ensures lost <==> |brains| > 1 && brains[h].id == added.id && !make
    ensures var out := ImportBrains(brains, added, makeDefault, makeActive);
            if lost then forall j :: 0 <= j < |out| ==> !flag(out[j]) else OnlyAt(out, flag, i)
  {
    var others, out := Others(brains, added.id), ImportBrains(brains, added, makeDefault, makeActive);
    OthersDistinct(brains, added.id);
    lost, i := false, |others|;
    if !make && others != [] {
      if brains[h].id != added.id {
        i := h;
        if HasId(brains, added.id) { i := WithoutOnly(brains, added.id, flag, h); }
        assert OnlyAt(others, flag, i);
      } else {
        assert HasId(brains, added.id);
        lost := true;
        forall b | b in others ensures !flag(b) {
          var k :| 0 <= k < |brains| && brains[k] == b;
        }
      }
    } else if others == [] {
      assert |brains| == 1;
    }
  }

  lemma {:induction false} ImportBrainsDistinct(brains: seq<Record>, added: Record, makeDefault: bool, makeActive: bool)
    requires DistinctIds(brains) && forall i :: 0 <= i < |brains| ==> brains[i].id != ""
    requires added.id != ""
    ensures DistinctIds(ImportBrains(brains, added, makeDefault, makeActive))
    ensures forall b :: b in ImportBrains(brains, added, makeDefault, makeActive) ==> b.id != ""
  {
    var others := Others(brains, added.id);
    OthersDistinct(brains, added.id);
    var kept := Mapped(others, (b: Record) => Displaced(b, makeDefault, makeActive));
    forall b | b in kept ensures b.id != added.id && b.id != "" {
      var i :| 0 <= i < |kept| && kept[i] == b;
      assert others[i] in others;
    }
    AppendDistinct(kept, added);
  }

  /** An accepted import keeps the registry consistent exactly when it does not drop a flag. */
  lemma {:induction false} ImportKeepsIff(r: Registry, id: string, name: string, description: string, makeDefault: bool,
      makeActive: bool, overwrite: bool, safe: bool)
    requires Consistent(r) && id != ""
    requires ImportOf(r, id, name, description, makeDefault, makeActive, overwrite, safe).Ok?
    ensures Consistent(ImportOf(r, id, name, description, makeDefault, makeActive, overwrite, safe).value)
            <==> !DropsFlag(r, id, makeDefault, makeActive)
  {
    var added := ImportedRecord(id, name, description, makeDefault, makeActive, Others(r.brains, id) == [], safe);
    var out := ImportBrains(r.brains, added, makeDefault, makeActive);
    var h, k := Holder(r.brains, Active, r.activeId), Holder(r.brains, Default, r.defaultId);
    var lostA, a := ImportFlag(r.brains, added, makeDefault, makeActive, Active, makeActive, h);
    var lostD, d := ImportFlag(r.brains, added, makeDefault, makeActive, Default, makeDefault, k);
    assert DropsFlag(r, id, makeDefault, makeActive) <==> lostA || lostD by {
      FlaggedIsFound(r.brains, id, Active, h);
      FlaggedIsFound(r.brains, id, Default, k);
    }
    if !lostA && !lostD {
      ImportBrainsDistinct(r.brains, added, makeDefault, makeActive);
      FinalizedConsistent(out, a, d);
    } else if lostA {
      assert !Unique(out, Active, FirstWith(out, Active));
    } else {
      assert !Unique(out, Default, FirstWith(out, Default));
    }
  }

  lemma {:induction false} FlaggedIsFound(brains: seq<Record>, id: string, flag: Record -> bool, h: int)
    requires DistinctIds(brains) && OnlyAt(brains, flag, h)
    ensures brains[h].id == id <==> HasId(brains, id) && flag(Find(brains, id))
  {
  }

  /** Importing over the active brain of a two-brain registry without `make_active`
      leaves no brain active. */
  lemma {:induction false} ImportCanDropActive()
    ensures var b := Record("b", "b", "", "b/storage", "b", RegistryManaged, false, true, true);
            var c := Record("c", "c", "", "c/storage", "c", RegistryManaged, true, false, true);
            var r := Registry([b, c], "b", "c", 2);
            && Consistent(r)
            && ImportOf(r, "b", "b", "", false, false, true, true).Ok?
            && ImportOf(r, "b", "b", "", false, false, true, true).value.activeId == ""
  {
    var b := Record("b", "b", "", "b/storage", "b", RegistryManaged, false, true, true);
    var c := Record("c", "c", "", "c/storage", "c", RegistryManaged, true, false, true);
    var r := Registry([b, c], "b", "c", 2);
    assert OnlyAt(r.brains, Active, 0) && OnlyAt(r.brains, Default, 1);
    assert r.brains[0].id == "b" && Find(r.brains, "b") == b;
    var added := ImportedRecord("b", "b", "", false, false, Others([b, c], "b") == [], true);
    OthersDistinct([b, c], "b");
    var lost, i := ImportFlag([b, c], added, false, false, Active, false, 0);
    NoneFirst(ImportBrains([b, c], added, false, false), Active);
  }

  lemma {:induction false} NoneFirst(brains: seq<Record>, flag: Record -> bool)
    requires forall j :: 0 <= j < |brains| ==> !flag(brains[j])
    ensures FirstWith(brains, flag) == ""
  {
    if brains != [] { NoneFirst(brains[1..], flag); }
  }

  /** Whatever the previous registry file holds, bootstrap yields a consistent registry. */
  lemma {:induction false} BootstrapConsistent(previous: Registry, legacy: seq<string>, requested: string,
      current: string, fallback: string)
    requires "" !in legacy && fallback != ""
    ensures Consistent(BootstrapOf(previous, legacy, requested, current, fallback))
  {
    var records := BootstrapRecords(previous, legacy, fallback);
    var target := Target(records, Preferred(previous, legacy, requested, current));
    var i := IndexOf(records, target);
    var out := Mapped(records, (b: Record) => Selected(b, target, true));
    assert OnlyAt(out, Active, i) && OnlyAt(out, Default, i);
    FinalizedConsistent(out, i, i);
  }

  lemma {:induction false} HasIdAppend(a: seq<Record>, b: seq<Record>, r: Record)
    requires r in a || r in b
    ensures HasId(a + b, r.id)
  {
    if r in a {
      var i :| 0 <= i < |a| && a[i] == r;
      assert (a + b)[i].id == r.id;
    } else {
      var i :| 0 <= i < |b| && b[i] == r;
      assert (a + b)[|a| + i].id == r.id;
    }
  }

  /** A registered brain with a storage path survives a bootstrap. */
  lemma {:induction false} BootstrapRetains(previous: Registry, legacy: seq<string>, fallback: string, id: string)
    requires id in ById(previous.brains) && ById(previous.brains)[id].storagePath != ""
    ensures HasId(BootstrapRecords(previous, legacy, fallback), id)
  {
    var prev, ids := ById(previous.brains), LegacyIds(legacy, {});
    var found, carried := FoundRecords(ids, prev), CarriedOver(KeyOrder(previous.brains), prev, set id | id in ids);
    if id in ids {
      var i :| 0 <= i < |ids| && ids[i] == id;
      HasIdAppend(found, carried, found[i]);
    } else {
      HasIdAppend(found, carried, Carried(prev[id]));
    }
    assert found + carried != [];
  }

  /** A bootstrap forgets that a brain's directory is managed by the registry unless that
      brain is among the discovered directories; restores over it are refused from then on. */
  lemma {:induction false} BootstrapKeepsLayoutIff(previous: Registry, legacy: seq<string>, requested: string,
      current: string, fallback: string, id: string)
    requires Consistent(previous) && HasId(previous.brains, id) && Find(previous.brains, id).storagePath != ""
    ensures var brains, before := BootstrapOf(previous, legacy, requested, current, fallback).brains,
        Find(previous.brains, id);
            && HasId(brains, id)
            && (Find(brains, id).layout == before.layout
                <==> id in LegacyIds(legacy, {}) || before.layout == LegacyInPlace)
  {
    var prev, ids, before := ById(previous.brains), LegacyIds(legacy, {}), Find(previous.brains, id);
    SameIdSameRecord(previous.brains, prev[id], before);
    BootstrapRetains(previous, legacy, fallback, id);
    var records := BootstrapRecords(previous, legacy, fallback);
    var k := IndexOf(records, id);
    BootstrapLayout(previous, legacy, fallback, id, records[k]);
    BootstrapShape(previous, legacy, requested, current, fallback);
    hide BootstrapRecords, BootstrapOf, Consistent;
    var brains := BootstrapOf(previous, legacy, requested, current, fallback).brains;
    assert brains[k].id == id && brains[k].layout == records[k].layout;
    SameIdSameRecord(brains, Find(brains, id), brains[k]);
  }

  /** So it is for every managed brain when no directory is discovered. */
  lemma {:induction false} BootstrapForgetsManaged(previous: Registry, requested: string, current: string,
      fallback: string, id: string)
    requires Consistent(previous) && HasId(previous.brains, id) && Find(previous.brains, id).storagePath != ""
    requires Find(previous.brains, id).layout == RegistryManaged
    ensures var brains := BootstrapOf(previous, [], requested, current, fallback).brains;
            HasId(brains, id) && Find(brains, id).layout == LegacyInPlace
  {
    BootstrapKeepsLayoutIff(previous, [], requested, current, fallback, id);
  }

  /** It happens to the registry that loading makes of a missing file: with no directory discovered
      the first bootstrap registers one managed brain, and the second makes it a legacy one. */
  lemma {:induction false} SecondBootstrapForgets(requested: string, current: string, later: string, fallback: string)
    requires fallback != ""
    ensures var first := BootstrapOf(Registry([], "", "", 0), [], requested, current, fallback);
            var second := BootstrapOf(first, [], later, current, fallback);
            && Consistent(first) && HasId(first.brains, fallback)
            && Find(first.brains, fallback).layout == RegistryManaged
            && HasId(second.brains, fallback) && Find(second.brains, fallback).layout == LegacyInPlace
  {
    var empty := Registry([], "", "", 0);
    var first := BootstrapOf(empty, [], requested, current, fallback);
    var records := BootstrapRecords(empty, [], fallback);
    BootstrapConsistent(empty, [], requested, current, fallback);
    BootstrapShape(empty, [], requested, current, fallback);
    assert |records| == 1 && records[0].id == fallback && records[0].layout == RegistryManaged;
    assert |first.brains| == 1 && first.brains[0].id == fallback;
    assert first.brains[0].storagePath == fallback + "/storage";
    SameIdSameRecord(first.brains, Find(first.brains, fallback), first.brains[0]);
    assert |first.brains[0].storagePath| > 0;
    BootstrapForgetsManaged(first, later, current, fallback, fallback);
  }

  lemma {:induction false} BootstrapShape(previous: Registry, legacy: seq<string>, requested: string, current: string,
      fallback: string)
    ensures var brains, records := BootstrapOf(previous, legacy, requested, current, fallback).brains,
        BootstrapRecords(previous, legacy, fallback);
            && |brains| == |records| && DistinctIds(brains)
            && forall i :: 0 <= i < |records| ==> brains[i].id == records[i].id && brains[i].layout == records[i].layout
  {
  }

  lemma {:induction false} BootstrapLayout(previous: Registry, legacy: seq<string>, fallback: string, id: string,
      r: Record)
    requires id in ById(previous.brains) && ById(previous.brains)[id].storagePath != ""
    requires r in BootstrapRecords(previous, legacy, fallback) && r.id == id
    ensures r.layout == if id in LegacyIds(legacy, {}) then ById(previous.brains)[id].layout else LegacyInPlace
  {
    var prev, ids := ById(previous.brains), LegacyIds(legacy, {});
    var found, carried := FoundRecords(ids, prev), CarriedOver(KeyOrder(previous.brains), prev, set id | id in ids);
    BootstrapRetains(previous, legacy, fallback, id);
    if id in ids { assert forall c :: c in carried ==> c.id != id; }
    if found + carried != [] { assert r in found || r in carried; }
  }

  lemma {:induction false} SelectedIsActive(records: seq<Record>, id: string)
    requires DistinctIds(records) && HasId(records, id)
    ensures Finalized(Mapped(records, (b: Record) => Selected(b, id, true))).activeId == id
  {
    var out := Mapped(records, (b: Record) => Selected(b, id, true));
    assert OnlyAt(out, Active, IndexOf(records, id));
    OnlyIsFirst(out, Active, IndexOf(records, id));
  }

  /** Bootstrapping over a consistent registry with no explicit request keeps its active brain. */
  lemma {:induction false} BootstrapKeepsActive(previous: Registry, legacy: seq<string>, current: string,
      fallback: string)
    requires Consistent(previous)
    requires forall b :: b in previous.brains ==> b.storagePath != ""
    ensures BootstrapOf(previous, legacy, "", current, fallback).activeId == previous.activeId
  {
    var a, id := Holder(previous.brains, Active, previous.activeId), previous.activeId;
    assert previous.brains[a] in previous.brains && id in ById(previous.brains);
    BootstrapRetains(previous, legacy, fallback, id);
    var records := BootstrapRecords(previous, legacy, fallback);
    assert Preferred(previous, legacy, "", current) == id;
    SelectedIsActive(records, id);
  }

  // ----- Runs

  datatype Op =
    | Create(base: string, name: string, description: string, makeDefault: bool, makeActive: bool)
    | Rename(id: string, name: string, description: string)
    | Select(id: string, makeDefault: bool)
    | Delete(id: string, confirmation: string)
    | Import(id: string, name: string, description: string, makeDefault: bool, makeActive: bool, overwrite: bool,
        safe: bool)
    | Refresh(scan: set<string>)
    | Bootstrap(legacy: seq<string>, requested: string, current: string, fallback: string)

  /** One call. A refused call leaves the registry as it was. */
  function Stepped(r: Registry, op: Op): Registry {
    var res := match op
      case Create(base, name, description, makeDefault, makeActive) =>
          Ok(CreateOf(r, base, name, description, makeDefault, makeActive))
      case Rename(id, name, description) => RenameOf(r, id, name, description)
      case Select(id, makeDefault) => SelectOf(r, id, makeDefault)
      case Delete(id, confirmation) => DeleteOf(r, id, confirmation)
      case Import(id, name, description, makeDefault, makeActive, overwrite, safe) =>
        ImportOf(r, id, name, description, makeDefault, makeActive, overwrite, safe)
      case Refresh(scan) => Ok(RefreshOf(r, scan))
      case Bootstrap(legacy, requested, current, fallback) => Ok(BootstrapOf(r, legacy, requested, current, fallback));
    if res.Ok? then res.value else r
  }

  /** Normalized ids are never empty, and an import does not drop a flag. */
  predicate Admissible(r: Registry, op: Op) {
    match op
    case Create(base, _, _, _, _) => base != ""
    case Import(id, _, _, makeDefault, makeActive, overwrite, _) =>
        id != "" && !(overwrite && DropsFlag(r, id, makeDefault, makeActive))
    case Bootstrap(legacy, _, _, fallback) => "" !in legacy && fallback != ""
    case _ => true
  }

  function Run(r: Registry, ops: seq<Op>): Registry
    decreases |ops|
  {
    if ops == [] then r else Run(Stepped(r, ops[0]), ops[1..])
  }

  predicate AdmissibleRun(r: Registry, ops: seq<Op>)
    decreases |ops|
  {
    ops != [] ==> Admissible(r, ops[0]) && AdmissibleRun(Stepped(r, ops[0]), ops[1..])
  }

  lemma {:induction false} StepKeeps(r: Registry, op: Op)
    requires Consistent(r) && Admissible(r, op)
    ensures Consistent(Stepped(r, op))
  {
    match op
    case Create(base, name, description, makeDefault, makeActive) =>
        CreateKeeps(r, base, name, description, makeDefault, makeActive);
    case Rename(id, name, description) =>
        if RenameOf(r, id, name, description).Ok? { RenameKeeps(r, id, name, description); }
    case Select(id, makeDefault) => if SelectOf(r, id, makeDefault).Ok? { SelectKeeps(r, id, makeDefault); }
    case Delete(id, confirmation) => if DeleteOf(r, id, confirmation).Ok? { DeleteKeeps(r, id, confirmation); }
    case Import(id, name, description, makeDefault, makeActive, overwrite, safe) =>
      if ImportOf(r, id, name, description, makeDefault, makeActive, overwrite, safe).Ok? {
        ImportKeepsIff(r, id, name, description, makeDefault, makeActive, overwrite, safe);
      }
    case Refresh(scan) => RefreshKeeps(r, scan);
    case Bootstrap(legacy, requested, current, fallback) =>
        BootstrapConsistent(r, legacy, requested, current, fallback);
  }

  /** From any file at all, a bootstrap followed by any admissible run is consistent. */
  lemma {:induction false} RunConsistent(r: Registry, ops: seq<Op>)
    requires AdmissibleRun(r, ops)
    requires Consistent(r) || (ops != [] && ops[0].Bootstrap?)
    ensures Consistent(Run(r, ops))
    decreases |ops|
  {
    if ops != [] {
      var next := Stepped(r, ops[0]);
      if Consistent(r) {
        StepKeeps(r, ops[0]);
      } else {
        BootstrapConsistent(r, ops[0].legacy, ops[0].requested, ops[0].current, ops[0].fallback);
      }
      RunConsistent(next, ops[1..]);
    }
  }

  // ----- Validation and scope resolution

  /** The structural checks of `validate_local_brain_registry`: ids and flags. */
  predicate PassesValidation(r: Registry) {
    && r.brains != []
    && DistinctIds(r.brains)
    && CountWith(r.brains, Default) == 1
    && CountWith(r.brains, Active) == 1
  }

  lemma {:induction false} CountIsUnique(brains: seq<Record>, flag: Record -> bool)
    ensures CountWith(brains, flag) == 0 <==> forall j :: 0 <= j < |brains| ==> !flag(brains[j])
    ensures CountWith(brains, flag) == 1 <==> exists i :: OnlyAt(brains, flag, i)
  {
    if brains != [] {
      var rest := brains[1..];
      CountIsUnique(rest, flag);
      assert forall j :: 0 <= j < |rest| ==> rest[j] == brains[j + 1];
      if i :| OnlyAt(rest, flag, i) {
        if !flag(brains[0]) { assert OnlyAt(brains, flag, i + 1); }
      }
      if flag(brains[0]) && CountWith(rest, flag) == 0 { assert OnlyAt(brains, flag, 0); }
      if i :| OnlyAt(brains, flag, i) {
        if i > 0 { assert OnlyAt(rest, flag, i - 1); }
        if i == 0 {
          forall j | 0 <= j < |rest| ensures !flag(rest[j]) { assert rest[j] == brains[j + 1]; }
        }
      }
      if CountWith(brains, flag) == 0 {
        forall j | 0 <= j < |brains| ensures !flag(brains[j]) { if j > 0 { assert rest[j - 1] == brains[j]; } }
      }
    }
  }

  /** The invariant is what validation checks, plus a header that agrees with the records. */
  lemma {:induction false} ConsistentIffValidated(r: Registry)
    requires forall i :: 0 <= i < |r.brains| ==> r.brains[i].id != ""
    ensures Consistent(r) <==> PassesValidation(r) && r == Finalized(r.brains)
  {
    CountIsUnique(r.brains, Active);
    CountIsUnique(r.brains, Default);
    if Consistent(r) {
      OnlyIsFirst(r.brains, Active, Holder(r.brains, Active, r.activeId));
      OnlyIsFirst(r.brains, Default, Holder(r.brains, Default, r.defaultId));
    } else if PassesValidation(r) && r == Finalized(r.brains) {
      var a :| OnlyAt(r.brains, Active, a);
      var d :| OnlyAt(r.brains, Default, d);
      FinalizedConsistent(r.brains, a, d);
    }
  }

  function Resolve(r: Registry, requested: string, requireExplicit: bool): Result<Record, string> {
    var byId := ById(r.brains);
    if requested != "" then (if requested in byId then Ok(byId[requested]) else Err("unknown_brain_id"))
    else if requireExplicit then Err("brain_id_required")
    else
      var resolved := if r.activeId != "" then r.activeId else r.defaultId;
      if CountWith(r.brains, Default) != 1 || resolved !in byId then Err("ambiguous_brain_scope_without_safe_default")
      else Ok(byId[resolved])
  }

  /** In a consistent registry the unscoped caller gets the one active brain. */
  lemma {:induction false} ResolveFindsActive(r: Registry)
    requires Consistent(r)
    ensures var res := Resolve(r, "", false);
            res.Ok? && res.value in r.brains && forall b :: b in r.brains ==> (b.isActive <==> b == res.value)
  {
    CountIsUnique(r.brains, Default);
    var a := Holder(r.brains, Active, r.activeId);
    var active := r.brains[a];
    assert active in r.brains && active.id != "";
    SameIdSameRecord(r.brains, ById(r.brains)[r.activeId], active);
    forall b | b in r.brains ensures b.isActive <==> b == active {
      var k :| 0 <= k < |r.brains| && r.brains[k] == b;
      assert Active(b) <==> k == a;
    }
  }

  lemma {:induction false} SameIdSameRecord(brains: seq<Record>, b: Record, c: Record)
    requires DistinctIds(brains) && b in brains && c in brains && b.id == c.id
    ensures b == c
  {
  }

  /** A scoped caller gets the one brain of that id, or an error when there is none. */
  lemma {:induction false} ResolveFindsRequested(r: Registry, requested: string)
    requires Consistent(r) && requested != ""
    ensures Resolve(r, requested, false).Ok? <==> HasId(r.brains, requested)
    ensures HasId(r.brains, requested) ==> Resolve(r, requested, false) == Ok(Find(r.brains, requested))
  {
    var byId := ById(r.brains);
    if HasId(r.brains, requested) {
      var found := Find(r.brains, requested);
      SameIdSameRecord(r.brains, byId[requested], found);
    }
    if requested in byId {
      var k :| 0 <= k < |r.brains| && r.brains[k] == byId[requested];
      assert r.brains[k].id == requested;
    }
  }

  // ----- What each operation changes

  /** The same brain, up to its flags. */
  predicate SameBrain(a: Record, b: Record) {
    a.(isActive := b.isActive, isDefault := b.isDefault) == b
  }

  lemma {:induction false} HeaderOf(r: Registry)
    requires Consistent(r)
    ensures r == Finalized(r.brains)
    ensures forall b :: b in r.brains ==> (b.isActive <==> b.id == r.activeId) && (b.isDefault <==> b.id == r.defaultId)
  {
    var a, d := Holder(r.brains, Active, r.activeId), Holder(r.brains, Default, r.defaultId);
    OnlyIsFirst(r.brains, Active, a);
    OnlyIsFirst(r.brains, Default, d);
    forall b | b in r.brains ensures (b.isActive <==> b.id == r.activeId) && (b.isDefault <==> b.id == r.defaultId) {
      var k :| 0 <= k < |r.brains| && r.brains[k] == b;
      assert Active(b) <==> k == a;
      assert Default(b) <==> k == d;
    }
  }

  /** Selecting a registered brain makes it the one the unscoped caller gets, and the default
      one exactly if asked. */
  lemma {:induction false} SelectTakesEffect(r: Registry, id: string, makeDefault: bool)
    requires Consistent(r) && HasId(r.brains, id)
    ensures SelectOf(r, id, makeDefault).Ok?
    ensures var s := SelectOf(r, id, makeDefault).value;
            && Resolve(s, "", false).Ok? && Resolve(s, "", false).value.id == id
            && s.defaultId == (if makeDefault then id else r.defaultId)
            && |s.brains| == |r.brains| && forall i :: 0 <= i < |r.brains| ==> SameBrain(r.brains[i], s.brains[i])
  {
    var s := SelectOf(r, id, makeDefault).value;
    SelectKeeps(r, id, makeDefault);
    ResolveFindsActive(s);
  }

  /** Selecting another brain and then the old one again gives back the registry. */
  lemma {:induction false} SelectAndBack(r: Registry, id: string)
    requires Consistent(r) && HasId(r.brains, id)
    ensures SelectOf(SelectOf(r, id, false).value, r.activeId, false) == Ok(r)
  {
    var s := SelectOf(r, id, false).value;
    var a := Holder(r.brains, Active, r.activeId);
    HeaderOf(r);
    assert s.brains[a].id == r.activeId;
    var t := SelectOf(s, r.activeId, false).value;
    forall i | 0 <= i < |r.brains| ensures t.brains[i] == r.brains[i] { assert r.brains[i] in r.brains; }
    assert t.brains == r.brains;
  }

  /** A creation adds one brain of a new id; the header moves to it exactly as asked. */
  lemma {:induction false} CreateAddsOne(r: Registry, base: string, name: string, description: string,
      makeDefault: bool, makeActive: bool)
    requires Consistent(r) && base != ""
    ensures var s, added := CreateOf(r, base, name, description, makeDefault, makeActive),
        CreatedRecord(r, base, name, description, makeDefault, makeActive);
            && added.id !in Ids(r.brains) && added.displayName == name && added.layout == RegistryManaged
            && |s.brains| == |r.brains| + 1 && s.brains[|r.brains|] == added
            && (forall i :: 0 <= i < |r.brains| ==> SameBrain(r.brains[i], s.brains[i]))
            && s.activeId == (if makeActive then added.id else r.activeId)
            && s.defaultId == (if makeDefault then added.id else r.defaultId)
  {
    var s, added := CreateOf(r, base, name, description, makeDefault, makeActive),
        CreatedRecord(r, base, name, description, makeDefault, makeActive);
    CreateKeeps(r, base, name, description, makeDefault, makeActive);
    HeaderOf(s);
    HeaderOf(r);
    var a, d := Holder(r.brains, Active, r.activeId), Holder(r.brains, Default, r.defaultId);
    assert s.brains[|r.brains|] in s.brains && s.brains[a] in s.brains && s.brains[d] in s.brains;
  }

  /** In a consistent registry a deletion is accepted exactly when it is confirmed and names a
      brain that is neither active nor default; it removes that brain and nothing else. */
  lemma {:induction false} DeleteRemovesOne(r: Registry, id: string, confirmation: string)
    requires Consistent(r)
    ensures DeleteOf(r, id, confirmation).Ok?
        <==> id == confirmation && HasId(r.brains, id) && id != r.activeId && id != r.defaultId
    ensures DeleteOf(r, id, confirmation).Ok? ==>
              var s := DeleteOf(r, id, confirmation).value;
              && s.activeId == r.activeId && s.defaultId == r.defaultId
              && forall b :: b in s.brains <==> b in r.brains && b.id != id
  {
    HeaderOf(r);
    var a := Holder(r.brains, Active, r.activeId);
    if HasId(r.brains, id) {
      var i := IndexOf(r.brains, id);
      assert r.brains[i] in r.brains && r.brains[i] == Find(r.brains, id);
      assert i != a ==> |r.brains| > 1;
    }
    if DeleteOf(r, id, confirmation).Ok? {
      var s := DeleteOf(r, id, confirmation).value;
      DeleteKeeps(r, id, confirmation);
      HeaderOf(s);
      var d := Holder(r.brains, Default, r.defaultId);
      assert r.brains[a] in s.brains && r.brains[d] in s.brains;
    }
  }

  lemma {:induction false} WithoutNew(brains: seq<Record>, added: Record)
    requires forall i :: 0 <= i < |brains| ==> brains[i].id != added.id
    ensures Without(brains + [added], added.id) == brains
  {
    if brains != [] {
      assert (brains + [added])[1..] == brains[1..] + [added];
      WithoutNew(brains[1..], added);
    }
  }

  /** Creating a brain without a flag and deleting it again gives back the registry. */
  lemma {:induction false} CreateAndDelete(r: Registry, base: string, name: string, description: string)
    requires Consistent(r) && base != ""
    ensures var s, id := CreateOf(r, base, name, description, false, false),
        CreatedRecord(r, base, name, description, false, false).id;
            DeleteOf(s, id, id) == Ok(r)
  {
    hide CreatedRecord, Consistent, Without;
    var s, added := CreateOf(r, base, name, description, false, false),
        CreatedRecord(r, base, name, description, false, false);
    CreateAddsOne(r, base, name, description, false, false);
    CreateKeeps(r, base, name, description, false, false);
    ActiveIsThere(r);
    UnflaggedAppends(r, base, name, description);
    HeaderOf(r);
    assert s.brains[|r.brains|].id == added.id;
    DeleteRemovesOne(s, added.id, added.id);
    forall i | 0 <= i < |r.brains| ensures r.brains[i].id != added.id { assert r.brains[i].id in Ids(r.brains); }
    WithoutNew(r.brains, added);
  }

  lemma {:induction false} UnflaggedAppends(r: Registry, base: string, name: string, description: string)
    requires r.brains != []
    ensures CreateOf(r, base, name, description, false, false).brains
        == r.brains + [CreatedRecord(r, base, name, description, false, false)]
  {
    assert Mapped(r.brains, (b: Record) => Demoted(b, false, false, false)) == r.brains;
  }

  lemma {:induction false} ActiveIsThere(r: Registry)
    requires Consistent(r)
    ensures r.brains != [] && r.activeId in Ids(r.brains) && r.defaultId in Ids(r.brains)
  {
    var a, d := Holder(r.brains, Active, r.activeId), Holder(r.brains, Default, r.defaultId);
    assert r.brains[a].id in Ids(r.brains) && r.brains[d].id in Ids(r.brains);
  }

  lemma {:induction false} ImportedBrains(r: Registry, added: Record, makeDefault: bool, makeActive: bool)
    requires DistinctIds(r.brains)
    ensures var out := ImportBrains(r.brains, added, makeDefault, makeActive);
            && added in out
            && (forall b :: b in r.brains && b.id != added.id ==> Displaced(b, makeDefault, makeActive) in out)
  {
    var others, out := Others(r.brains, added.id), ImportBrains(r.brains, added, makeDefault, makeActive);
    assert out[|others|] == added;
    forall b | b in r.brains && b.id != added.id ensures Displaced(b, makeDefault, makeActive) in out {
      var i :| 0 <= i < |others| && others[i] == b;
      assert out[i] == Displaced(b, makeDefault, makeActive);
    }
  }

  lemma {:induction false} HasIdMember(brains: seq<Record>, b: Record)
    requires b in brains
    ensures HasId(brains, b.id)
  {
    var k :| 0 <= k < |brains| && brains[k] == b;
    assert brains[k].id == b.id;
  }

  lemma {:induction false} HasIdIff(brains: seq<Record>, id: string)
    ensures HasId(brains, id) <==> id in Ids(brains)
  {
    if k :| 0 <= k < |brains| && brains[k].id == id { assert brains[k] in brains; }
    if b :| b in brains && b.id == id { HasIdMember(brains, b); }
  }

  lemma {:induction false} ImportedIds(r: Registry, added: Record, makeDefault: bool, makeActive: bool, x: string)
    requires DistinctIds(r.brains)
    ensures HasId(ImportBrains(r.brains, added, makeDefault, makeActive), x) <==> x == added.id || HasId(r.brains, x)
  {
    var others, out := Others(r.brains, added.id), ImportBrains(r.brains, added, makeDefault, makeActive);
    ImportedBrains(r, added, makeDefault, makeActive);
    HasIdMember(out, added);
    OthersDistinct(r.brains, added.id);
    hide Others, Without, ImportBrains;
    if x != added.id && HasId(r.brains, x) {
      var k :| 0 <= k < |r.brains| && r.brains[k].id == x;
      HasIdMember(out, Displaced(r.brains[k], makeDefault, makeActive));
    }
    if x != added.id && HasId(out, x) {
      var k :| 0 <= k < |out| && out[k].id == x;
      ImportedFrom(r, added, makeDefault, makeActive, k);
      HasIdMember(r.brains, others[k]);
    }
  }

  lemma {:induction false} ImportedFrom(r: Registry, added: Record, makeDefault: bool, makeActive: bool, k: nat)
    requires k < |ImportBrains(r.brains, added, makeDefault, makeActive)|
    ensures var others, out := Others(r.brains, added.id), ImportBrains(r.brains, added, makeDefault, makeActive);
            |out| == |others| + 1 && if k < |others| then out[k].id == others[k].id && others[k] in others
                else out[k] == added
  {
  }

  /** An import adds or replaces exactly the brain of its id and leaves every other brain as it
      was but for the flags it claims. A flag it does not claim stays where it was. */
  lemma {:induction false} ImportReplacesOne(r: Registry, id: string, name: string, description: string,
      makeDefault: bool, makeActive: bool, overwrite: bool, safe: bool)
    requires Consistent(r) && id != "" && !DropsFlag(r, id, makeDefault, makeActive)
    requires ImportOf(r, id, name, description, makeDefault, makeActive, overwrite, safe).Ok?
    ensures var s := ImportOf(r, id, name, description, makeDefault, makeActive, overwrite, safe).value;
            var alone := Others(r.brains, id) == [];
            && (HasId(r.brains, id) ==> overwrite)
            && (forall x :: HasId(s.brains, x) <==> x == id || HasId(r.brains, x))
            && (forall b :: b in r.brains && b.id != id ==> Displaced(b, makeDefault, makeActive) in s.brains)
            && ImportedRecord(id, name, description, makeDefault, makeActive, alone, safe) in s.brains
            && s.activeId == (if makeActive then id else r.activeId)
            && s.defaultId == (if makeDefault then id else r.defaultId)
  {
    var s := ImportOf(r, id, name, description, makeDefault, makeActive, overwrite, safe).value;
    ImportKeepsIff(r, id, name, description, makeDefault, makeActive, overwrite, safe);
    var added := ImportedRecord(id, name, description, makeDefault, makeActive, Others(r.brains, id) == [], safe);
    ImportedBrains(r, added, makeDefault, makeActive);
    forall x ensures HasId(s.brains, x) <==> x == id || HasId(r.brains, x) {
      ImportedIds(r, added, makeDefault, makeActive, x);
    }
    HeaderOf(s);
    HeaderOf(r);
    OthersDistinct(r.brains, id);
    var a, d := Holder(r.brains, Active, r.activeId), Holder(r.brains, Default, r.defaultId);
    assert r.brains[a] in r.brains && r.brains[d] in r.brains;
    FlaggedIsFound(r.brains, id, Active, a);
    FlaggedIsFound(r.brains, id, Default, d);
  }

  // ----- The registry file, updated in place

  class LocalBrainRegistry {
    var brains: seq<Record>
    var activeId: string
    var defaultId: string
    var brainCount: nat

    function View(): Registry
      reads this
    {
      Registry(brains, activeId, defaultId, brainCount)
    }

    constructor (r: Registry)
      ensures View() == r
    {
      brains, activeId, defaultId, brainCount := r.brains, r.activeId, r.defaultId, r.count;
    }

    method Finalize(rows: seq<Record>)
      modifies this
      ensures View() == Finalized(rows)
    {
      brains, brainCount := rows, |rows|;
      activeId := NextWith(rows, Active);
      defaultId := NextWith(rows, Default);
    }

    static method NextWith(rows: seq<Record>, flag: Record -> bool) returns (id: string)
      ensures id == FirstWith(rows, flag)
    {
      for i := 0 to |rows|
        invariant FirstWith(rows, flag) == FirstWith(rows[i..], flag)
      {
        if flag(rows[i]) {
          return rows[i].id;
        }
      }
      id := "";
    }

    method Create(base: string, name: string, description: string, makeDefault: bool, makeActive: bool)
      modifies this
      ensures View() == CreateOf(old(View()), base, name, description, makeDefault, makeActive)
      ensures old(Consistent(View())) && base != "" ==> Consistent(View())
    {
      ghost var before := View();
      var existing := set r | r in brains :: r.id;
      var id := UniqueBrainId(base, existing);
      var added := Record(id, name, description, id + "/storage", id, RegistryManaged, false, false, false);
      var rows := brains;
      if makeActive || makeDefault || brains == [] {
        for i := 0 to |brains|
          invariant |rows| == |brains|
          invariant forall j :: 0 <= j < i ==> rows[j] == Demoted(brains[j], brains == [], makeDefault, makeActive)
          invariant forall j :: i <= j < |brains| ==> rows[j] == brains[j]
        {
          rows := rows[i := rows[i].(isActive := if makeActive || brains == [] then false else rows[i].isActive)];
          if makeDefault || brains == [] {
            rows := rows[i := rows[i].(isDefault := false)];
          }
        }
        added := added.(isActive := makeActive || brains == [], isDefault := makeDefault || brains == []);
      }
      ghost var only := brains == [];
      assert rows == Mapped(brains, (b: Record) => Demoted(b, only, makeDefault, makeActive));
      Finalize(rows + [added]);
      if Consistent(before) && base != "" { CreateKeeps(before, base, name, description, makeDefault, makeActive); }
    }

    method Rename(id: string, name: string, description: string) returns (res: Result<(), string>)
      modifies this
      ensures match RenameOf(old(View()), id, name, description)
              case Ok(r) => res == Ok(()) && View() == r
              case Err(e) => res == Err(e) && View() == old(View())
    {
      var found, rows := false, [];
      for i := 0 to |brains|
        invariant |rows| == i
        invariant forall j :: 0 <= j < i ==> rows[j] == Renamed(brains[j], id, name, description)
        invariant found <==> exists j :: 0 <= j < i && brains[j].id == id
      {
        var row := brains[i];
        if row.id == id {
          found := true;
          row := row.(displayName := name, description := description);
        }
        rows := rows + [row];
      }
      if !found {
        return Err("unknown_brain_id");
      }
      assert rows == Mapped(brains, (b: Record) => Renamed(b, id, name, description));
      Finalize(rows);
      res := Ok(());
    }

    method Select(id: string, makeDefault: bool) returns (res: Result<(), string>)
      modifies this
      ensures match SelectOf(old(View()), id, makeDefault)
              case Ok(r) => res == Ok(()) && View() == r
              case Err(e) => res == Err(e) && View() == old(View())
    {
      if !HasId(brains, id) {
        return Err("unknown_brain_id");
      }
      var rows := brains;
      for i := 0 to |brains|
        invariant |rows| == |brains|
        invariant forall j :: 0 <= j < i ==> rows[j] == Selected(brains[j], id, makeDefault)
        invariant forall j :: i <= j < |brains| ==> rows[j] == brains[j]
      {
        var isTarget := rows[i].id == id;
        rows := rows[i := rows[i].(isActive := isTarget)];
        if makeDefault {
          rows := rows[i := rows[i].(isDefault := isTarget)];
        }
      }
      assert rows == Mapped(brains, (b: Record) => Selected(b, id, makeDefault));
      brains, brainCount, activeId := rows, |rows|, id;
      if makeDefault {
        defaultId := id;
      }
      res := Ok(());
    }

    static method Keep(rows: seq<Record>, id: string) returns (out: seq<Record>)
      ensures out == Without(rows, id)
    {
      out := [];
      for i := 0 to |rows|
        invariant Without(rows, id) == out + Without(rows[i..], id)
      {
        WithoutStep(rows, id, i);
        if rows[i].id != id {
          Associative(out, [rows[i]], Without(rows[i + 1..], id));
          out := out + [rows[i]];
        }
      }
    }

    method Delete(id: string, confirmation: string) returns (res: Result<(), string>)
      modifies this
      ensures match DeleteOf(old(View()), id, confirmation)
              case Ok(r) => res == Ok(()) && View() == r
              case Err(e) => res == Err(e) && View() == old(View())
    {
      if id != confirmation {
        return Err("delete_confirmation_mismatch");
      }
      if !HasId(brains, id) {
        return Err("unknown_brain_id");
      }
      if |brains| <= 1 {
        return Err("cannot_delete_last_brain");
      }
      var record := Find(brains, id);
      if record.isActive || record.isDefault {
        return Err("cannot_delete_active_or_default_brain");
      }
      var rows := Keep(brains, id);
      Finalize(rows);
      res := Ok(());
    }

    method Import(id: string, name: string, description: string, makeDefault: bool, makeActive: bool, overwrite: bool,
        safe: bool)
      returns (res: Result<(), string>)
      modifies this
      ensures match ImportOf(old(View()), id, name, description, makeDefault, makeActive, overwrite, safe)
              case Ok(r) => res == Ok(()) && View() == r
              case Err(e) => res == Err(e) && View() == old(View())
    {
      var rows := brains;
      if HasId(brains, id) {
        if !overwrite {
          return Err("brain_id_already_exists");
        }
        if Find(brains, id).layout != RegistryManaged {
          return Err("overwrite_requires_registry_managed_brain");
        }
        rows := Keep(brains, id);
      }
      ghost var others := rows;
      for i := 0 to |rows|
        invariant |rows| == |others|
        invariant forall j :: 0 <= j < i ==> rows[j] == Displaced(others[j], makeDefault, makeActive)
        invariant forall j :: i <= j < |others| ==> rows[j] == others[j]
      {
        if makeActive {
          rows := rows[i := rows[i].(isActive := false)];
        }
        if makeDefault {
          rows := rows[i := rows[i].(isDefault := false)];
        }
      }
      assert rows == Mapped(others, (b: Record) => Displaced(b, makeDefault, makeActive));
      Finalize(rows + [ImportedRecord(id, name, description, makeDefault, makeActive, rows == [], safe)]);
      res := Ok(());
    }

    /** The previous records as a dictionary, with the order of its keys. */
    static method Index(rows: seq<Record>) returns (byId: map<string, Record>, keys: seq<string>)
      ensures byId == ById(rows) && keys == KeyOrder(rows)
    {
      byId, keys := map[], [];
      for i := 0 to |rows|
        invariant byId == ById(rows[..i]) && keys == KeyOrder(rows[..i])
      {
        assert rows[..i + 1][..i] == rows[..i];
        if rows[i].id != "" {
          if rows[i].id !in keys {
            keys := keys + [rows[i].id];
          }
          byId := byId[rows[i].id := rows[i]];
        }
      }
      assert rows[..|rows|] == rows;
    }

    static method Discover(legacy: seq<string>, prev: map<string, Record>)
        returns (rows: seq<Record>, seen: set<string>)
      ensures rows == FoundRecords(LegacyIds(legacy, {}), prev)
      ensures forall id :: id in seen <==> id in LegacyIds(legacy, {})
    {
      hide LegacyRecord, FoundRecords, LegacyIds, UniqueId;
      assert FoundRecords([], prev) == [];
      assert legacy[0..] == legacy;
      rows, seen := [], {};
      ghost var ids: seq<string> := [];
      for i := 0 to |legacy|
        invariant LegacyIds(legacy, {}) == ids + LegacyIds(legacy[i..], seen)
        invariant rows == FoundRecords(ids, prev)
        invariant forall id :: id in seen <==> id in ids
      {
        var id := UniqueBrainId(legacy[i], seen);
        LegacyStep(legacy, seen, i);
        Associative(ids, [id], LegacyIds(legacy[i + 1..], seen + {id}));
        FoundStep(ids, id, prev);
        seen := seen + {id};
        rows := rows + [LegacyRecord(id, prev)];
        ids := ids + [id];
      }
      assert LegacyIds(legacy[|legacy|..], seen) == [];
      assert ids + [] == ids;
    }

    static method CarryOver(keys: seq<string>, prev: map<string, Record>, seen: set<string>)
      returns (rows: seq<Record>)
      requires forall id :: id in keys ==> id in prev && prev[id].id == id
      requires forall i, j :: 0 <= i < j < |keys| ==> keys[i] != keys[j]
      ensures rows == CarriedOver(keys, prev, seen)
    {
      hide Carried;
      assert keys[0..] == keys;
      rows := [];
      for i := 0 to |keys|
        invariant CarriedOver(keys, prev, seen) == rows + CarriedOver(keys[i..], prev, seen)
      {
        CarriedStep(keys, prev, seen, i);
        if keys[i] !in seen && prev[keys[i]].storagePath != "" {
          Associative(rows, [Carried(prev[keys[i]])], CarriedOver(keys[i + 1..], prev, seen));
          rows := rows + [Carried(prev[keys[i]])];
        }
      }
    }

    method PreferredId(prev: map<string, Record>, legacy: seq<string>, requested: string, current: string)
        returns (preferred: string)
      requires prev == ById(brains)
      ensures preferred == Preferred(View(), legacy, requested, current)
    {
      preferred := if requested in prev || requested in legacy then requested else "";
      if preferred == "" {
        if activeId != "" && activeId in prev {
          preferred := activeId;
        } else if defaultId != "" && defaultId in prev {
          preferred := defaultId;
        }
      }
      if preferred == "" {
        preferred := current;
      }
    }

    static method NormalizeActiveDefault(records: seq<Record>, preferred: string) returns (rows: seq<Record>)
      requires records != []
      ensures rows == Mapped(records, (b: Record) => Selected(b, Target(records, preferred), true))
    {
      var target := Target(records, preferred);
      rows := [];
      for i := 0 to |records|
        invariant |rows| == i
        invariant forall j :: 0 <= j < i ==> rows[j] == Selected(records[j], target, true)
      {
        var isTarget := records[i].id == target;
        rows := rows + [records[i].(isDefault := isTarget, isActive := isTarget)];
      }
    }

    method Bootstrap(legacy: seq<string>, requested: string, current: string, fallback: string)
      modifies this
      ensures View() == BootstrapOf(old(View()), legacy, requested, current, fallback)
      ensures "" !in legacy && fallback != "" ==> Consistent(View())
    {
      ghost var before := View();
      var prev, keys := Index(brains);
      var preferred := PreferredId(prev, legacy, requested, current);
      var rows, seen := Discover(legacy, prev);
      var carried := CarryOver(keys, prev, seen);
      assert seen == set id | id in LegacyIds(legacy, {});
      rows := rows + carried;
      if rows == [] {
        rows := [Record(fallback, fallback, "", fallback + "/storage", fallback, RegistryManaged, false, false, false)];
      }
      assert rows == BootstrapRecords(before, legacy, fallback);
      rows := NormalizeActiveDefault(rows, preferred);
      Finalize(rows);
      if "" !in legacy && fallback != "" { BootstrapConsistent(before, legacy, requested, current, fallback); }
    }
  }
}
