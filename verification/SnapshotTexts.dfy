/** What of a snapshot's texts validation and materialization read, said without their readers. */
module SnapshotTexts {
  import opened Wrappers
  import opened SnapshotGraph

  /** The white space of ASCII: tab to carriage return, the four separators, and the space. */
  predicate IsBlank(c: char) { c as int in {9, 10, 11, 12, 13, 28, 29, 30, 31, 32} }

  /** Stripping takes the blanks off both ends, all of them and nothing else. */
  lemma {:induction false} StripTells(s: string) returns (i: nat, j: nat)
    ensures i <= j <= |s| && Strip(s) == s[i..j]
    ensures forall k :: 0 <= k < i || j <= k < |s| ==> IsBlank(s[k])
    ensures i < j ==> !IsBlank(s[i]) && !IsBlank(s[j - 1])
  {
    i := StartTells(s);
    var n := EndTells(TrimStart(s));
    j := i + n;
    assert TrimStart(s)[..n] == s[i..j];
    assert forall k :: j <= k < |s| ==> s[k] == TrimStart(s)[k - i];
  }

  lemma {:induction false} StartTells(s: string) returns (i: nat)
    ensures i <= |s| && TrimStart(s) == s[i..]
    ensures forall k :: 0 <= k < i ==> IsBlank(s[k])
    ensures i < |s| ==> !IsBlank(s[i])
  {
    BlankIff();
    if s != "" && IsBlank(s[0]) {
      i := StartTells(s[1..]);
      assert forall k :: 0 < k <= i ==> s[k] == s[1..][k - 1];
      i := i + 1;
    } else {
      i := 0;
    }
  }

  lemma {:induction false} EndTells(s: string) returns (n: nat)
    ensures n <= |s| && TrimEnd(s) == s[..n]
    ensures forall k :: n <= k < |s| ==> IsBlank(s[k])
    ensures n > 0 ==> !IsBlank(s[n - 1])
  {
    BlankIff();
    if s != "" && IsBlank(s[|s| - 1]) {
      n := EndTells(s[..|s| - 1]);
    } else {
      n := |s|;
    }
  }

  lemma {:induction false} BlankIff()
    ensures forall c :: Blank(c) <==> IsBlank(c)
  {
  }

  /** The endpoint that validation reads is the plain spelling, if there is one, else the other. */
  function Validated(plain: string, other: string): string { if plain != "" then Strip(plain) else Strip(other) }

  /** In an accepted snapshot every edge joins two of its nodes, as validation reads them. */
  lemma {:induction false} AcceptedEdgesJoin(nodes: seq<Node>, edges: seq<Edge>, sources: seq<Source>, k: nat)
      returns (i: nat, j: nat)
    requires ValidSnapshot(nodes, edges, sources) && k < |edges|
    ensures i < |nodes| && j < |nodes|
    ensures Strip(nodes[i].id) == Validated(edges[k].source, edges[k].sourceNodeId) != ""
    ensures Strip(nodes[j].id) == Validated(edges[k].target, edges[k].targetNodeId) != ""
  {
    hide Strip;
    assert From(edges[k]) in NodeIds(nodes) && To(edges[k]) in NodeIds(nodes);
    i :| 0 <= i < |nodes| && Strip(nodes[i].id) == From(edges[k]);
    j :| 0 <= j < |nodes| && Strip(nodes[j].id) == To(edges[k]);
  }

  /** Sources with an id of either spelling are known under it, the plain one first. */
  lemma {:induction false} SourceKeys(sources: seq<Source>, x: string)
    ensures x in SourceIds(sources)
        <==> exists i :: 0 <= i < |sources| && x == Validated(sources[i].id, sources[i].sourceId)
  {
    hide Strip;
    if i :| 0 <= i < |sources| && x == Validated(sources[i].id, sources[i].sourceId) {
      assert Key(sources[i]) == x;
    }
    if x in SourceIds(sources) {
      var i :| 0 <= i < |sources| && Key(sources[i]) == x;
      assert x == Validated(sources[i].id, sources[i].sourceId);
    }
  }

  /** In an accepted snapshot that has sources every node names one of them, or none; without sources
      what the nodes name does not matter. */
  lemma {:induction false} AcceptedNodesName(nodes: seq<Node>, edges: seq<Edge>, sources: seq<Source>, i: nat)
    requires ValidSnapshot(nodes, edges, sources) && i < |nodes|
    ensures Strip(nodes[i].id) != ""
    ensures sources != [] && Strip(nodes[i].sourceId) != "" ==>
              exists j :: 0 <= j < |sources|
                  && Strip(nodes[i].sourceId) == Validated(sources[j].id, sources[j].sourceId)
  {
    hide Strip;
    if sources != [] && Strip(nodes[i].sourceId) != "" {
      assert Key(sources[0]) in SourceIds(sources);
      SourceKeys(sources, Strip(nodes[i].sourceId));
    }
  }

  lemma {:induction false} SourcelessNodesNameAny(nodes: seq<Node>, others: seq<Node>, edges: seq<Edge>)
    requires |nodes| == |others| && forall i :: 0 <= i < |nodes| ==> nodes[i].id == others[i].id
    ensures ValidSnapshot(nodes, edges, []) <==> ValidSnapshot(others, edges, [])
  {
    hide Strip;
    assert NodeIds(nodes) == NodeIds(others);
    hide EdgesOk;
  }

  /** A materialized edge goes the other way about: its endpoints are the node-id spellings, if there
      are any. It keeps an edge type of the two the graph has; any other becomes `derives_from`, and
      the type it had, or its kind, is noted in the reason. */
  lemma {:induction false} LinkTells(nodes: seq<Node>, edges: seq<Edge>, g: Graph, k: nat)
    requires MaterializesTo(nodes, edges, g) && k < |edges|
    ensures var e, l := edges[k], g.links[k];
            var kind := if e.edgeType != "" then e.edgeType else if e.kind != "" then e.kind else "related";
            var reason := if e.reason != "" then e.reason else "brain_sync_restore";
            && l.from == Validated(e.sourceNodeId, e.source) != "" && l.to == Validated(e.targetNodeId, e.target) != ""
            && if kind in {"derives_from", "mentions_entity"} then l.edgeType == kind && l.reason == reason
               else l.edgeType == "derives_from" && l.reason == reason + "; imported_edge_type=" + kind
  {
    hide Strip;
    assert Ok(g.links[k]) == NormalizedEdge(edges[k]);
  }
}
