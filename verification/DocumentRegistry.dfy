/** The bounded index of previewed documents: a most-recent order and a many-keyed lookup. */
module DocumentRegistry {
  import opened Wrappers
  import opened DistinctItems
  import opened RecentList

  const MAX_PREVIEW_DOCUMENTS := 128

  /** `aliases` are the other identifiers, already stripped: reference, anchor, hashes, chunks. */
  datatype Record = Record(documentId: string, aliases: seq<string>, body: string)

  function KeysOf(r: Record): seq<string> {
    [r.documentId] + r.aliases
  }

  predicate IsKey(r: Record, key: string) {
    key != "" && key in KeysOf(r)
  }

  datatype Index = Index(order: seq<string>, byKey: map<string, Record>)

  /** The lookup after a record was stored under the first `n` of its keys. */
  function PutKeys(byKey: map<string, Record>, r: Record, keys: seq<string>): (out: map<string, Record>)
    ensures forall k :: k in out <==> k in byKey || (k != "" && k in keys)
    ensures forall k :: k in out ==> out[k] == if k != "" && k in keys then r else byKey[k]
  {
    if keys == [] then byKey
    else
      var front, last := keys[..|keys| - 1], keys[|keys| - 1];
      assert keys == front + [last];
      var out := PutKeys(byKey, r, front);
      if last == "" then out else out[last := r]
  }

  function Forget(byKey: map<string, Record>, id: string): map<string, Record> {
    map k | k in byKey && byKey[k].documentId != id :: byKey[k]
  }

  function Trimmed(i: Index): Index
    decreases |i.order|
  {
    if |i.order| <= MAX_PREVIEW_DOCUMENTS then i
    else Trimmed(Index(i.order[1..], Forget(i.byKey, i.order[0])))
  }

  /** `_index_preview_document_locked`. */
  function Indexed(i: Index, r: Record): Index {
    if r.documentId == "" then i
    else Trimmed(Index(Touched(i.order, r.documentId), PutKeys(i.byKey, r, KeysOf(r))))
  }

  function IndexAll(history: seq<Record>): Index {
    if history == [] then Index([], map[])
    else Indexed(IndexAll(history[..|history| - 1]), history[|history| - 1])
  }

  function Lookup(i: Index, key: string): Option<Record> {
    if key != "" && key in i.byKey then Some(i.byKey[key]) else None
  }

  function IdsOf(history: seq<Record>): (ids: seq<string>)
    ensures |ids| == |history| && forall j :: 0 <= j < |ids| ==> ids[j] == history[j].documentId
  {
    seq(|history|, j requires 0 <= j < |history| => history[j].documentId)
  }

  predicate Named(history: seq<Record>) {
    forall j :: 0 <= j < |history| ==> history[j].documentId != ""
  }

  lemma {:induction false} TouchedFacts(order: seq<string>, id: string)
    requires Distinct(order)
    ensures Distinct(Touched(order, id)) && Touched(order, id) != []
    ensures |Touched(order, id)| <= |order| + 1
    ensures forall y :: y in Touched(order, id) <==> y in order || y == id
    ensures |Touched(order, id)| > 1 ==> Touched(order, id)[0] != id
  {
    RemoveFacts(order, id);
  }

  /** Indexing one record expires at most one document, the oldest, and never the new one. */
  lemma {:induction false} TrimmedOnce(i: Index, r: Record)
    requires r.documentId != "" && Distinct(i.order) && |i.order| <= MAX_PREVIEW_DOCUMENTS
    ensures var touched, put := Touched(i.order, r.documentId), PutKeys(i.byKey, r, KeysOf(r));
            && Indexed(i, r).order == Newest(touched, MAX_PREVIEW_DOCUMENTS)
            && (|touched| <= MAX_PREVIEW_DOCUMENTS ==> Indexed(i, r) == Index(touched, put))
            && (|touched| > MAX_PREVIEW_DOCUMENTS ==> Indexed(i, r) == Index(touched[1..], Forget(put, touched[0])))
  {
    var touched, put := Touched(i.order, r.documentId), PutKeys(i.byKey, r, KeysOf(r));
    TouchedFacts(i.order, r.documentId);
    if |touched| > MAX_PREVIEW_DOCUMENTS {
      var next := Index(touched[1..], Forget(put, touched[0]));
      assert Trimmed(next) == next;
      assert Trimmed(Index(touched, put)) == Trimmed(next);
    }
  }

  /** The order is that of the 128 most recently indexed distinct documents. */
  lemma {:induction false} OrderIsNewest(history: seq<Record>)
    requires Named(history)
    ensures IndexAll(history).order == Newest(LastOccurrences(IdsOf(history)), 128)
    ensures Distinct(IndexAll(history).order)
  {
    LastOccurrencesDistinct(IdsOf(history));
    if history != [] {
      var front, last := history[..|history| - 1], history[|history| - 1];
      OrderIsNewest(front);
      LastOccurrencesDistinct(IdsOf(front));
      assert IdsOf(history)[..|history| - 1] == IdsOf(front);
      NewestTouched(LastOccurrences(IdsOf(front)), last.documentId, MAX_PREVIEW_DOCUMENTS);
      TrimmedOnce(IndexAll(front), last);
    }
  }

  /** A document is listed exactly when it was indexed and fewer than 128 other documents
      were indexed since. */
  lemma {:induction false} ListedExactly(history: seq<Record>, id: string)
    requires Named(history)
    ensures id in IndexAll(history).order <==> id in IdsOf(history) && |Since(IdsOf(history), id)| < 128
  {
    OrderIsNewest(history);
    ListedIff(IdsOf(history), id, MAX_PREVIEW_DOCUMENTS);
  }

  predicate Sound(i: Index) {
    forall k :: k in i.byKey ==> i.byKey[k].documentId in i.order && IsKey(i.byKey[k], k)
  }

  /** The document that indexing `r` expires, if any. */
  predicate Expires(i: Index, r: Record, id: string) {
    var touched := Touched(i.order, r.documentId);
    |touched| > MAX_PREVIEW_DOCUMENTS && id == touched[0]
  }

  predicate Bounded(i: Index) {
    Distinct(i.order) && |i.order| <= MAX_PREVIEW_DOCUMENTS
  }

  lemma {:induction false} IndexedListing(i: Index, r: Record, id: string)
    requires r.documentId != "" && Bounded(i)
    ensures id in Indexed(i, r).order <==> (id in i.order || id == r.documentId) && !Expires(i, r, id)
    ensures !Expires(i, r, r.documentId)
  {
    var touched := Touched(i.order, r.documentId);
    TrimmedOnce(i, r);
    TouchedFacts(i.order, r.documentId);
    TailMembers(touched, id);
  }

  lemma {:induction false} IndexedKey(i: Index, r: Record, key: string)
    requires r.documentId != "" && Bounded(i)
    ensures var put := PutKeys(i.byKey, r, KeysOf(r));
            && (key in Indexed(i, r).byKey <==> key in put && !Expires(i, r, put[key].documentId))
            && (key in Indexed(i, r).byKey ==> Indexed(i, r).byKey[key] == put[key])
  {
    TrimmedOnce(i, r);
  }

  /** One more record: entries of other documents are kept as they are unless they expire. */
  lemma {:induction false} IndexedEntries(i: Index, r: Record, key: string)
    requires r.documentId != "" && Bounded(i) && Sound(i)
    ensures IsKey(r, key) ==> Lookup(Indexed(i, r), key) == Some(r)
    ensures !IsKey(r, key) && key in i.byKey && i.byKey[key].documentId in Indexed(i, r).order ==>
        Lookup(Indexed(i, r), key) == Lookup(i, key)
    ensures !IsKey(r, key) && !(key in i.byKey && i.byKey[key].documentId in Indexed(i, r).order) ==>
        Lookup(Indexed(i, r), key) == None
  {
    hide Indexed, Expires;
    IndexedKey(i, r, key);
    IndexedListing(i, r, r.documentId);
    if key in i.byKey { IndexedListing(i, r, i.byKey[key].documentId); }
  }

  lemma {:induction false} StaysSound(i: Index, r: Record)
    requires r.documentId != "" && Bounded(i) && Sound(i)
    ensures Sound(Indexed(i, r)) && r.documentId in Indexed(i, r).order
  {
    hide Indexed, Expires;
    IndexedListing(i, r, r.documentId);
    forall k | k in Indexed(i, r).byKey
      ensures Indexed(i, r).byKey[k].documentId in Indexed(i, r).order && IsKey(Indexed(i, r).byKey[k], k)
    {
      IndexedKey(i, r, k);
      IndexedListing(i, r, Indexed(i, r).byKey[k].documentId);
    }
  }

  /** Every entry belongs to a listed document, under one of its own keys. */
  lemma {:induction false} EntriesAreListed(history: seq<Record>)
    requires Named(history)
    ensures Sound(IndexAll(history))
    ensures var i := IndexAll(history);
            forall k :: k in i.byKey ==>
              var r := i.byKey[k];
              r.documentId in i.order && k != "" && (k == r.documentId || k in r.aliases)
  {
    if history != [] {
      var front, last := history[..|history| - 1], history[|history| - 1];
      EntriesAreListed(front);
      OrderIsNewest(front);
      StaysSound(IndexAll(front), last);
    }
  }

  /** A document is found under its own id and under each of its other identifiers that is not blank:
      by all of them the newest record is. */
  lemma {:induction false} NewestIsFound(history: seq<Record>, key: string)
    requires Named(history) && history != [] && key != ""
    requires key == history[|history| - 1].documentId || key in history[|history| - 1].aliases
    ensures Lookup(IndexAll(history), key) == Some(history[|history| - 1])
  {
    var front := history[..|history| - 1];
    OrderIsNewest(front);
    EntriesAreListed(front);
    IndexedEntries(IndexAll(front), history[|history| - 1], key);
  }

  /** The newest record of a document. */
  function Latest(history: seq<Record>, id: string): Option<Record> {
    if history == [] then None
    else if history[|history| - 1].documentId == id then Some(history[|history| - 1])
    else Latest(history[..|history| - 1], id)
  }

  predicate OwnKey(history: seq<Record>, id: string) {
    forall j :: 0 <= j < |history| && IsKey(history[j], id) ==> history[j].documentId == id
  }

  lemma {:induction false} LatestIsOf(history: seq<Record>, id: string)
    ensures Latest(history, id).Some? ==> Latest(history, id).value.documentId == id
  {
    if history != [] { LatestIsOf(history[..|history| - 1], id); }
  }

  /** When no other document uses an id as a key, looking the id up gives the latest version
      of its document exactly when the document is among the newest 128, and nothing else. */
  lemma {:induction false} LookupById(history: seq<Record>, id: string)
    requires Named(history) && id != "" && OwnKey(history, id)
    ensures Lookup(IndexAll(history), id) == if id in IndexAll(history).order then Latest(history, id) else None
    ensures id in IndexAll(history).order ==> Latest(history, id).Some?
  {
    if history != [] {
      var front, last := history[..|history| - 1], history[|history| - 1];
      var before := IndexAll(front);
      LookupById(front, id);
      LatestIsOf(front, id);
      OrderIsNewest(front);
      EntriesAreListed(front);
      LookupStep(before, last, id, Latest(front, id));
    }
  }

  lemma {:induction false} LookupStep(before: Index, last: Record, id: string, latest: Option<Record>)
    requires id != "" && last.documentId != "" && Bounded(before) && Sound(before)
    requires IsKey(last, id) ==> last.documentId == id
    requires latest.Some? ==> latest.value.documentId == id
    requires Lookup(before, id) == if id in before.order then latest else None
    requires id in before.order ==> latest.Some?
    ensures last.documentId == id ==>
        Lookup(Indexed(before, last), id) == Some(last) && id in Indexed(before, last).order
    ensures last.documentId != id ==>
        Lookup(Indexed(before, last), id) == (if id in Indexed(before, last).order then latest else None)
                                      && (id in Indexed(before, last).order ==> id in before.order)
  {
    hide Indexed, Expires;
    IndexedEntries(before, last, id);
    IndexedListing(before, last, id);
  }

  // ----- The module's two globals, changed in place

  class PreviewDocuments {
    var order: seq<string>
    var byKey: map<string, Record>

    function View(): Index
      reads this
    {
      Index(order, byKey)
    }

    constructor ()
      ensures View() == IndexAll([])
    {
      order, byKey := [], map[];
    }

    method Expire(id: string)
      modifies this`byKey
      ensures byKey == Forget(old(byKey), id)
    {
      var pending := byKey.Keys;
      while pending != {}
        invariant pending <= old(byKey).Keys
        invariant byKey == map k | k in old(byKey) && (k in pending || old(byKey)[k].documentId != id) :: old(byKey)[k]
        decreases pending
      {
        var k :| k in pending;
        if byKey[k].documentId == id {
          byKey := byKey - {k};
        }
        pending := pending - {k};
      }
    }

    /** `_trim_preview_documents_locked`. */
    method Trim()
      modifies this
      ensures View() == Trimmed(old(View()))
    {
      while |order| > MAX_PREVIEW_DOCUMENTS
        invariant Trimmed(View()) == Trimmed(old(View()))
        decreases |order|
      {
        var expired := order[0];
        order := order[1..];
        Expire(expired);
      }
    }

    method Store(r: Record)
      modifies this`byKey
      ensures byKey == PutKeys(old(byKey), r, KeysOf(r))
    {
      var keys := KeysOf(r);
      for i := 0 to |keys|
        invariant byKey == PutKeys(old(byKey), r, keys[..i])
      {
        assert keys[..i + 1][..i] == keys[..i];
        if keys[i] != "" {
          byKey := byKey[keys[i] := r];
        }
      }
      assert keys[..|keys|] == keys;
    }

    /** `_index_preview_document_locked`. */
    method IndexDocument(r: Record)
      modifies this
      ensures View() == Indexed(old(View()), r)
    {
      hide Trimmed, PutKeys;
      if r.documentId == "" {
        return;
      }
      if r.documentId in order {
        order := Remove(order, r.documentId);
      }
      order := order + [r.documentId];
      Store(r);
      Trim();
    }

    /** `preview_document_record`. */
    method Find(key: string) returns (r: Option<Record>)
      ensures r == Lookup(View(), key)
    {
      r := if key != "" && key in byKey then Some(byKey[key]) else None;
    }
  }
}
