/** The persisted revision counter of a brain's sync snapshot, which follows content. */
module SourceRevision {

  /** What is persisted; a missing file reads as revision 0 with no digest. */
  datatype State = State(revision: nat, digest: string)

  const MISSING := State(0, "")

  /** One request: the digest of the content and the smallest acceptable revision. */
  datatype Request = Request(digest: string, minimum: int)

  function Max(a: int, b: int): int {
    if a >= b then a else b
  }

  /** `_brain_sync_source_revision`: the state after a request; its revision is returned. */
  function Next(st: State, req: Request): State {
    if st.revision >= req.minimum && st.digest == req.digest then st
    else State(Max(req.minimum, st.revision + 1), req.digest)
  }

  /** The state after the first `n` requests. */
  function After(st: State, reqs: seq<Request>, n: nat): State
    requires n <= |reqs|
  {
    if n == 0 then st else Next(After(st, reqs, n - 1), reqs[n - 1])
  }

  /** The revision the request at index `i` gets. */
  function Returned(st: State, reqs: seq<Request>, i: nat): nat
    requires i < |reqs|
  {
    After(st, reqs, i + 1).revision
  }

  /** Content digests are never empty, so they differ from a missing file's. */
  predicate Digested(reqs: seq<Request>) {
    forall i :: 0 <= i < |reqs| ==> reqs[i].digest != ""
  }

  /** From one request to a later one nothing changed: the same content, never asked for more. */
  predicate Undisturbed(st: State, reqs: seq<Request>, i: nat, j: nat)
    requires i <= j < |reqs|
  {
    forall k {:trigger reqs[k]} :: i < k <= j ==>
        reqs[k].digest == reqs[i].digest && reqs[k].minimum <= Returned(st, reqs, i)
  }

  /** Over a whole run: every revision meets its minimum, revisions never decrease, and two
      requests get the same revision exactly when nothing changed in between. */
  lemma {:induction false} RunTracksContent(st: State, reqs: seq<Request>, i: nat, j: nat)
    requires i <= j < |reqs| && Digested(reqs)
    ensures Returned(st, reqs, j) >= reqs[j].minimum
    ensures Returned(st, reqs, i) <= Returned(st, reqs, j)
    ensures Returned(st, reqs, i) == Returned(st, reqs, j) <==> Undisturbed(st, reqs, i, j)
    ensures After(st, reqs, j + 1).digest == reqs[j].digest
  {
    if i < j {
      RunTracksContent(st, reqs, i, j - 1);
      SameDigest(st, reqs, i, j - 1);
      UndisturbedStep(st, reqs, i, j);
      assert After(st, reqs, j + 1) == Next(After(st, reqs, j), reqs[j]);
    }
  }

  lemma {:induction false} UndisturbedStep(st: State, reqs: seq<Request>, i: nat, j: nat)
    requires i < j < |reqs|
    ensures Undisturbed(st, reqs, i, j)
        <==> (Undisturbed(st, reqs, i, j - 1) && reqs[j].digest == reqs[i].digest
              && reqs[j].minimum <= Returned(st, reqs, i))
  {
  }

  lemma {:induction false} SameDigest(st: State, reqs: seq<Request>, i: nat, j: nat)
    requires i <= j < |reqs|
    ensures Undisturbed(st, reqs, i, j) ==> reqs[j].digest == reqs[i].digest
  {
  }

  /** Equal revisions mean equal content digests, over the whole run. */
  lemma {:induction false} SameRevisionSameContent(st: State, reqs: seq<Request>, i: nat, j: nat)
    requires i <= j < |reqs| && Digested(reqs) && Returned(st, reqs, i) == Returned(st, reqs, j)
    ensures reqs[i].digest == reqs[j].digest
    ensures After(st, reqs, i + 1) == After(st, reqs, j + 1)
  {
    RunTracksContent(st, reqs, i, j);
    RunTracksContent(st, reqs, i, i);
    SameDigest(st, reqs, i, j);
  }

  /** Content that changes and changes back still gets strictly new revisions. */
  lemma {:induction false} ChangeAndBack(st: State, reqs: seq<Request>, i: nat, j: nat, k: nat)
    requires i < j < k < |reqs| && Digested(reqs)
    requires reqs[i].digest == reqs[k].digest != reqs[j].digest
    ensures Returned(st, reqs, i) < Returned(st, reqs, j) < Returned(st, reqs, k)
  {
    RunTracksContent(st, reqs, i, j);
    RunTracksContent(st, reqs, j, k);
    SameDigest(st, reqs, i, j);
    SameDigest(st, reqs, j, k);
  }

  /** How often the content of the first `n` requests differs from that of the one before; the first
      is compared with what the file holds. */
  function Changes(st: State, reqs: seq<Request>, n: nat): nat
    requires n <= |reqs|
  {
    if n == 0 then 0
    else
      var before := if n == 1 then st.digest else reqs[n - 2].digest;
      Changes(st, reqs, n - 1) + if reqs[n - 1].digest != before then 1 else 0
  }

  /** A run that asks for no more than the file already has counts the changes of content. */
  lemma {:induction false} RunCountsChanges(st: State, reqs: seq<Request>, n: nat)
    requires n <= |reqs| && forall k :: 0 <= k < n ==> reqs[k].minimum <= st.revision
    ensures After(st, reqs, n).revision == st.revision + Changes(st, reqs, n)
    ensures n > 0 ==> After(st, reqs, n).digest == reqs[n - 1].digest
  {
    if n > 0 { RunCountsChanges(st, reqs, n - 1); }
  }

  /** A request that asks for more than the next revision gets just what it asks for. */
  lemma {:induction false} ForcedRevision(st: State, reqs: seq<Request>, i: nat)
    requires i < |reqs| && reqs[i].minimum > After(st, reqs, i).revision
    ensures Returned(st, reqs, i) == reqs[i].minimum
  {
  }

  class RevisionFile {
    var revision: nat
    var digest: string

    function View(): State
      reads this
    {
      State(revision, digest)
    }

    constructor ()
      ensures View() == MISSING
    {
      revision, digest := 0, "";
    }

    method RevisionFor(contentDigest: string, minimum: int) returns (r: nat)
      modifies this
      ensures View() == Next(old(View()), Request(contentDigest, minimum))
      ensures r == revision
    {
      if revision >= minimum && digest == contentDigest {
        return revision;
      }
      r := if minimum >= revision + 1 then minimum else revision + 1;
      revision, digest := r, contentDigest;
    }
  }
}
