/** Which brain a bootstrap makes active and default, and what it keeps of each brain. */
module BootstrapChoice {
  import opened FreshId
  import opened Wrappers
  import opened BrainRegistry

  /** The id is one of the previous file's or that of a discovered directory. */
  predicate Known(previous: Registry, legacy: seq<string>, id: string) {
    id != "" && (HasId(previous.brains, id) || id in legacy)
  }

  predicate Registered(previous: Registry, id: string) {
    id != "" && HasId(previous.brains, id)
  }

  lemma {:induction false} InDictionaryIff(brains: seq<Record>, id: string)
    ensures id in ById(brains) <==> id != "" && HasId(brains, id)
  {
    if id in ById(brains) { HasIdMember(brains, ById(brains)[id]); }
  }

  /** The dictionary of the previous records holds, of records that share an id, the last one. */
  lemma {:induction false} DictionaryHoldsLast(front: seq<Record>, b: Record, rest: seq<Record>)
    requires b.id != "" && forall r :: r in rest ==> r.id != b.id
    ensures b.id in ById(front + [b] + rest) && ById(front + [b] + rest)[b.id] == b
  {
    hide ById;
    var all := front + [b] + rest;
    DictionaryStep(all);
    if rest == [] {
      assert all == front + [b];
    } else {
      var last := rest[|rest| - 1];
      assert last in rest && all[..|all| - 1] == front + [b] + rest[..|rest| - 1];
      DictionaryHoldsLast(front, b, rest[..|rest| - 1]);
    }
  }

  lemma {:induction false} DictionaryStep(brains: seq<Record>)
    requires brains != []
    ensures var last, rest := brains[|brains| - 1], ById(brains[..|brains| - 1]);
            ById(brains) == if last.id != "" then rest[last.id := last] else rest
  {
  }

  /** What `BootstrapOf` comes to: the header names the target, and the ids are those found. */
  lemma {:induction false} BootstrapTargets(previous: Registry, legacy: seq<string>, requested: string,
      current: string, fallback: string)
    ensures var s, records := BootstrapOf(previous, legacy, requested, current, fallback),
                BootstrapRecords(previous, legacy, fallback);
            var target := Target(records, Preferred(previous, legacy, requested, current));
            && s.activeId == target && s.defaultId == target
            && |s.brains| == |records|
                && (forall i :: 0 <= i < |records| ==> s.brains[i] == Selected(records[i], target, true))
            && (forall id :: HasId(s.brains, id) <==> HasId(records, id))
  {
    hide Target, Preferred, BootstrapRecords;
    var records := BootstrapRecords(previous, legacy, fallback);
    var target := Target(records, Preferred(previous, legacy, requested, current));
    SelectedIsActive(records, target);
    SelectedIsDefault(records, target);
    var s := BootstrapOf(previous, legacy, requested, current, fallback);
    forall id ensures HasId(s.brains, id) <==> HasId(records, id) {
      if HasId(records, id) { assert s.brains[IndexOf(records, id)].id == id; }
      if HasId(s.brains, id) { assert records[IndexOf(s.brains, id)].id == id; }
    }
  }

  lemma {:induction false} SelectedIsDefault(records: seq<Record>, id: string)
    requires DistinctIds(records) && HasId(records, id)
    ensures Finalized(Mapped(records, (b: Record) => Selected(b, id, true))).defaultId == id
  {
    var out := Mapped(records, (b: Record) => Selected(b, id, true));
    assert OnlyAt(out, Default, IndexOf(records, id));
    OnlyIsFirst(out, Default, IndexOf(records, id));
  }

  /** A bootstrap makes one brain both active and default: the requested one if it is known and ends
      up registered. A request for an unknown brain is as good as none. Without a request the
      previous active brain stays, if it is registered before and after; with none registered before,
      the previous default; with neither, the brain of the current directory. */
  lemma {:induction false} BootstrapHonours(previous: Registry, legacy: seq<string>, requested: string,
      current: string, fallback: string)
    ensures var s := BootstrapOf(previous, legacy, requested, current, fallback);
            var active, default := previous.activeId, previous.defaultId;
            && HasId(s.brains, s.activeId) && s.defaultId == s.activeId
            && (Known(previous, legacy, requested) && HasId(s.brains, requested) ==> s.activeId == requested)
            && (!Known(previous, legacy, requested) ==>
                  && s == BootstrapOf(previous, legacy, "", current, fallback)
                  && (Registered(previous, active) && HasId(s.brains, active) ==> s.activeId == active)
                  && (!Registered(previous, active) && Registered(previous, default) && HasId(s.brains, default) ==>
                        s.activeId == default)
                  && (!Registered(previous, active) && !Registered(previous, default) && HasId(s.brains, current) ==>
                        s.activeId == current))
  {
    BootstrapTargets(previous, legacy, requested, current, fallback);
    InDictionaryIff(previous.brains, requested);
    InDictionaryIff(previous.brains, previous.activeId);
    InDictionaryIff(previous.brains, previous.defaultId);
    hide BootstrapRecords, ById;
  }

  /** The brain that these rules name did not end up registered. */
  predicate Unregistered(previous: Registry, legacy: seq<string>, requested: string, current: string, s: Registry) {
    if Known(previous, legacy, requested) then !HasId(s.brains, requested)
    else if Registered(previous, previous.activeId) then !HasId(s.brains, previous.activeId)
    else if Registered(previous, previous.defaultId) then !HasId(s.brains, previous.defaultId)
    else !HasId(s.brains, current)
  }

  /** The brain carried the flag in the previous file. */
  predicate Flagged(previous: Registry, id: string, flag: Record -> bool) {
    id in ById(previous.brains) && flag(ById(previous.brains)[id])
  }

  predicate NoneFlagged(previous: Registry, s: Registry, n: nat, flag: Record -> bool)
    requires n <= |s.brains|
  {
    forall i :: 0 <= i < n ==> !Flagged(previous, s.brains[i].id, flag)
  }

  /** Then the first discovered brain that was active before is chosen, else the first that was the
      default, else the first of all. */
  lemma {:induction false} BootstrapFallsBack(previous: Registry, legacy: seq<string>, requested: string,
      current: string, fallback: string, i: nat)
    requires "" !in legacy && fallback != ""
    requires Unregistered(previous, legacy, requested, current,
                 BootstrapOf(previous, legacy, requested, current, fallback))
    ensures var s, n := BootstrapOf(previous, legacy, requested, current, fallback), |legacy|;
            && n <= |s.brains| && s.brains != []
            && (i < n && Flagged(previous, s.brains[i].id, Active) && NoneFlagged(previous, s, i, Active) ==>
                  s.activeId == s.brains[i].id)
            && (NoneFlagged(previous, s, n, Active) ==>
                  i < n && Flagged(previous, s.brains[i].id, Default) && NoneFlagged(previous, s, i, Default) ==>
                    s.activeId == s.brains[i].id)
            && (NoneFlagged(previous, s, n, Active) && NoneFlagged(previous, s, n, Default) ==>
                  s.activeId == s.brains[0].id)
  {
    hide BootstrapRecords, BootstrapOf, ById, Flagged, NoneFlagged;
    BootstrapTargets(previous, legacy, requested, current, fallback);
    InDictionaryIff(previous.brains, requested);
    InDictionaryIff(previous.brains, previous.activeId);
    InDictionaryIff(previous.brains, previous.defaultId);
    var s, n := BootstrapOf(previous, legacy, requested, current, fallback), |legacy|;
    var records := BootstrapRecords(previous, legacy, fallback);
    RecordFlags(previous, legacy, fallback);
    FlagFirst(previous, records, s, n, Active, i);
    FlagFirst(previous, records, s, n, Default, i);
    assert !HasId(records, "");
  }

  /** Only discovered brains keep their flags. */
  lemma {:induction false} RecordFlags(previous: Registry, legacy: seq<string>, fallback: string)
    ensures var records := BootstrapRecords(previous, legacy, fallback);
            && |legacy| <= |records|
            && (forall i :: 0 <= i < |legacy| ==>
                  && (records[i].isActive <==> Flagged(previous, records[i].id, Active))
                  && (records[i].isDefault <==> Flagged(previous, records[i].id, Default)))
            && (forall i :: |legacy| <= i < |records| ==> !records[i].isActive && !records[i].isDefault)
  {
    var prev, ids := ById(previous.brains), LegacyIds(legacy, {});
    var found, carried := FoundRecords(ids, prev), CarriedOver(KeyOrder(previous.brains), prev, set id | id in ids);
    forall i | |found| <= i < |found + carried| ensures (found + carried)[i] in carried {}
  }

  lemma {:induction false} FlagFirst(previous: Registry, records: seq<Record>, s: Registry, n: nat,
      flag: Record -> bool, i: nat)
    requires n <= |records| == |s.brains| && forall k :: 0 <= k < |records| ==> s.brains[k].id == records[k].id
    requires forall k :: 0 <= k < n ==> (flag(records[k]) <==> Flagged(previous, records[k].id, flag))
    requires forall k :: n <= k < |records| ==> !flag(records[k])
    ensures i < n && Flagged(previous, s.brains[i].id, flag) && NoneFlagged(previous, s, i, flag) ==>
        HasId(records, s.brains[i].id) && FirstWith(records, flag) == s.brains[i].id
    ensures NoneFlagged(previous, s, n, flag) ==> FirstWith(records, flag) == ""
  {
    hide Flagged;
    if i < n && Flagged(previous, s.brains[i].id, flag) && NoneFlagged(previous, s, i, flag) {
      FirstAt(records, flag, i);
    }
    if NoneFlagged(previous, s, n, flag) {
      forall k | 0 <= k < |records| ensures !flag(records[k]) {
        if k < n { assert !Flagged(previous, s.brains[k].id, flag); }
      }
      NoneFirst(records, flag);
    }
  }

  lemma {:induction false} FirstAt(brains: seq<Record>, flag: Record -> bool, i: nat)
    requires i < |brains| && flag(brains[i]) && forall j :: 0 <= j < i ==> !flag(brains[j])
    ensures FirstWith(brains, flag) == brains[i].id
  {
    if i > 0 {
      assert !flag(brains[0]);
      FirstAt(brains[1..], flag, i - 1);
    }
  }

  // ----- What a bootstrap keeps

  /** Every registered brain with storage keeps its record, up to its flags and its layout. */
  lemma {:induction false} BootstrapKeepsRecord(previous: Registry, legacy: seq<string>, requested: string,
      current: string, fallback: string, id: string)
    requires id in ById(previous.brains) && ById(previous.brains)[id].storagePath != ""
    ensures var s, before := BootstrapOf(previous, legacy, requested, current, fallback), ById(previous.brains)[id];
            && HasId(s.brains, id)
            && SameBrain(before.(layout := Find(s.brains, id).layout), Find(s.brains, id))
            && (Find(s.brains, id).layout == if id in LegacyIds(legacy, {}) then before.layout else LegacyInPlace)
  {
    BootstrapTargets(previous, legacy, requested, current, fallback);
    BootstrapRetains(previous, legacy, fallback, id);
    var s, records := BootstrapOf(previous, legacy, requested, current, fallback),
        BootstrapRecords(previous, legacy, fallback);
    RecordKept(previous, legacy, fallback, id, Find(records, id));
    hide BootstrapOf, BootstrapRecords, ById, LegacyIds;
    var k := IndexOf(records, id);
    BootstrapShape(previous, legacy, requested, current, fallback);
    SameIdSameRecord(s.brains, Find(s.brains, id), s.brains[k]);
  }

  lemma {:induction false} RecordKept(previous: Registry, legacy: seq<string>, fallback: string, id: string, r: Record)
    requires id in ById(previous.brains) && ById(previous.brains)[id].storagePath != ""
    requires r in BootstrapRecords(previous, legacy, fallback) && r.id == id
    ensures SameBrain(ById(previous.brains)[id].(layout := r.layout), r)
    ensures r.layout == if id in LegacyIds(legacy, {}) then ById(previous.brains)[id].layout else LegacyInPlace
  {
    BootstrapLayout(previous, legacy, fallback, id, r);
    var prev, ids := ById(previous.brains), LegacyIds(legacy, {});
    var found, carried := FoundRecords(ids, prev), CarriedOver(KeyOrder(previous.brains), prev, set id | id in ids);
    BootstrapRetains(previous, legacy, fallback, id);
    if found + carried != [] { assert r in found || r in carried; }
  }

  /** Every discovered directory is registered, in the order of discovery, under its own id or that
      with the least free suffix. A brain that was registered before keeps its record, and a new one
      is a legacy brain in the directory where it was found. */
  lemma {:induction false} BootstrapRegistersDiscovered(previous: Registry, legacy: seq<string>, requested: string,
      current: string, fallback: string, i: nat)
    requires i < |legacy|
    ensures var s, id := BootstrapOf(previous, legacy, requested, current, fallback), LegacyIds(legacy, {})[i];
            && |legacy| <= |s.brains|
            && SameBrain(if id in ById(previous.brains) then ById(previous.brains)[id]
                         else Record(id, id, "", "legacy/" + id, id, LegacyInPlace, false, false, false), s.brains[i])
    ensures var ids := LegacyIds(legacy, {});
            (forall j :: 0 <= j < i ==> ids[j] != legacy[i]) ==> ids[i] == legacy[i]
  {
    BootstrapTargets(previous, legacy, requested, current, fallback);
    var prev, ids := ById(previous.brains), LegacyIds(legacy, {});
    var found, carried := FoundRecords(ids, prev), CarriedOver(KeyOrder(previous.brains), prev, set id | id in ids);
    assert (found + carried)[i] == LegacyRecord(ids[i], prev);
    OwnIdIfFree(legacy, {}, i);
  }

  lemma {:induction false} OwnIdIfFree(legacy: seq<string>, seen: set<string>, i: nat)
    requires i < |legacy| && legacy[i] !in seen
    ensures var ids := LegacyIds(legacy, seen);
            (forall j :: 0 <= j < i ==> ids[j] != legacy[i]) ==> ids[i] == legacy[i]
  {
    var ids := LegacyIds(legacy, seen);
    if i > 0 && forall j :: 0 <= j < i ==> ids[j] != legacy[i] {
      var rest := LegacyIds(legacy[1..], seen + {ids[0]});
      assert ids == [ids[0]] + rest && forall j :: 0 <= j < i - 1 ==> rest[j] == ids[j + 1];
      OwnIdIfFree(legacy[1..], seen + {ids[0]}, i - 1);
    }
  }

  /** The brains of a consistent registry that no directory accounts for come after the discovered
      ones, in the order they had. */
  lemma {:induction false} BootstrapKeepsOrder(previous: Registry, legacy: seq<string>, requested: string,
      current: string, fallback: string, i: nat, j: nat)
    requires Consistent(previous) && i < j < |previous.brains|
    requires previous.brains[i].storagePath != "" && previous.brains[j].storagePath != ""
    requires previous.brains[i].id !in LegacyIds(legacy, {}) && previous.brains[j].id !in LegacyIds(legacy, {})
    ensures var s := BootstrapOf(previous, legacy, requested, current, fallback);
            exists k, l :: |legacy| <= k < l < |s.brains|
                && s.brains[k].id == previous.brains[i].id && s.brains[l].id == previous.brains[j].id
  {
    hide BootstrapOf, BootstrapRecords, LegacyIds, Consistent;
    ConsistentIds(previous);
    var k, l := RecordsInOrder(previous, legacy, fallback, i, j);
    BootstrapTargets(previous, legacy, requested, current, fallback);
    var s := BootstrapOf(previous, legacy, requested, current, fallback);
    assert s.brains[k].id == previous.brains[i].id && s.brains[l].id == previous.brains[j].id;
  }

  lemma {:induction false} RecordsInOrder(previous: Registry, legacy: seq<string>, fallback: string, i: nat, j: nat)
      returns (k: nat, l: nat)
    requires DistinctIds(previous.brains) && forall n :: 0 <= n < |previous.brains| ==> previous.brains[n].id != ""
    requires i < j < |previous.brains|
    requires previous.brains[i].storagePath != "" && previous.brains[j].storagePath != ""
    requires previous.brains[i].id !in LegacyIds(legacy, {}) && previous.brains[j].id !in LegacyIds(legacy, {})
    ensures var records := BootstrapRecords(previous, legacy, fallback);
            && |legacy| <= k < l < |records|
            && records[k].id == previous.brains[i].id && records[l].id == previous.brains[j].id
  {
    hide KeyOrder, ById, LegacyIds, LegacyRecord, Carried, CarriedOver, FoundRecords, DistinctIds;
    var prev, ids, keys := ById(previous.brains), LegacyIds(legacy, {}), KeyOrder(previous.brains);
    KeysAreIds(previous.brains);
    InDictionary(previous.brains, i);
    InDictionary(previous.brains, j);
    var c, e := CarriedInOrder(keys, prev, (set id | id in ids), i, j);
    var found := FoundRecords(ids, prev);
    k, l := |found| + c, |found| + e;
  }

  lemma {:induction false} ConsistentIds(r: Registry)
    requires Consistent(r)
    ensures DistinctIds(r.brains) && forall k :: 0 <= k < |r.brains| ==> r.brains[k].id != ""
  {
  }

  lemma {:induction false} InDictionary(brains: seq<Record>, i: nat)
    requires DistinctIds(brains) && i < |brains| && brains[i].id != ""
    ensures brains[i].id in ById(brains) && ById(brains)[brains[i].id] == brains[i]
  {
    hide ById;
    assert brains[i] in brains;
    SameIdSameRecord(brains, ById(brains)[brains[i].id], brains[i]);
  }

  lemma {:induction false} KeysAreIds(brains: seq<Record>)
    requires DistinctIds(brains) && forall k :: 0 <= k < |brains| ==> brains[k].id != ""
    ensures |KeyOrder(brains)| == |brains| && forall k :: 0 <= k < |brains| ==> KeyOrder(brains)[k] == brains[k].id
  {
    hide ById, KeyOrder;
    KeyStep(brains);
    if brains != [] {
      var front, last := brains[..|brains| - 1], brains[|brains| - 1];
      DistinctFront(brains);
      KeysAreIds(front);
      assert last.id !in KeyOrder(front);
      assert forall k :: 0 <= k < |front| ==> front[k] == brains[k];
    }
  }

  lemma {:induction false} KeyStep(brains: seq<Record>)
    ensures brains == [] ==> KeyOrder(brains) == []
    ensures brains != [] ==>
              var front, id := KeyOrder(brains[..|brains| - 1]), brains[|brains| - 1].id;
              KeyOrder(brains) == if id != "" && id !in front then front + [id] else front
  {
  }

  lemma {:induction false} DistinctFront(brains: seq<Record>)
    requires brains != [] && DistinctIds(brains)
    ensures var front, last := brains[..|brains| - 1], brains[|brains| - 1];
            DistinctIds(front) && forall k :: 0 <= k < |front| ==> front[k].id != last.id
  {
  }

  /** What the first `k` keys contribute. */
  lemma {:induction false} CarriedSplit(keys: seq<string>, prev: map<string, Record>, seen: set<string>, k: nat)
      returns (front: seq<Record>)
    requires forall id :: id in keys ==> id in prev && prev[id].id == id
    requires forall i, j :: 0 <= i < j < |keys| ==> keys[i] != keys[j]
    requires k <= |keys|
    ensures CarriedOver(keys, prev, seen) == front + CarriedOver(keys[k..], prev, seen)
    ensures forall i :: 0 <= i < k && keys[i] !in seen && prev[keys[i]].storagePath != "" ==>
        Carried(prev[keys[i]]) in front
  {
    hide CarriedOver, Carried;
    if k == 0 {
      front := [];
      assert keys[0..] == keys;
    } else {
      front := CarriedSplit(keys, prev, seen, k - 1);
      CarriedStep(keys, prev, seen, k - 1);
      var own := if keys[k - 1] !in seen && prev[keys[k - 1]].storagePath != "" then [Carried(prev[keys[k - 1]])]
          else [];
      Associative(front, own, CarriedOver(keys[k..], prev, seen));
      front := front + own;
    }
  }

  lemma {:induction false} CarriedInOrder(keys: seq<string>, prev: map<string, Record>, seen: set<string>, a: nat,
      b: nat) returns (c: nat, e: nat)
    requires forall id :: id in keys ==> id in prev && prev[id].id == id
    requires forall i, j :: 0 <= i < j < |keys| ==> keys[i] != keys[j]
    requires a < b < |keys| && keys[a] !in seen && keys[b] !in seen
    requires prev[keys[a]].storagePath != "" && prev[keys[b]].storagePath != ""
    ensures var out := CarriedOver(keys, prev, seen);
            c < e < |out| && out[c].id == keys[a] && out[e].id == keys[b]
  {
    hide CarriedOver;
    var front := CarriedSplit(keys, prev, seen, b);
    CarriedStep(keys, prev, seen, b);
    c :| 0 <= c < |front| && front[c] == Carried(prev[keys[a]]);
    e := |front|;
  }
}
