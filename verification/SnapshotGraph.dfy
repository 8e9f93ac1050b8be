/** A restored snapshot: what validation accepts, and the graph that materialization makes of it. */
module SnapshotGraph {
  import opened Wrappers

  // Texts as the bundle gives them: "" stands for a missing or empty value.

  datatype Source = Source(id: string, sourceId: string)

  datatype Node = Node(id: string, sourceId: string)

  datatype Edge = Edge(
    id: string, source: string, target: string, sourceNodeId: string, targetNodeId: string,
    edgeType: string, kind: string, reason: string)

  datatype Field = SourceId | NodeId | EdgeSource | EdgeTarget

  datatype Error = Missing(field: Field)
      | DuplicateSource | DuplicateNode | NodeSourceMissing | DanglingEdge | DuplicateEdge

  // ----- Reading texts

  predicate Blank(c: char) { c == ' ' || '\t' <= c <= '\r' || '\U{1C}' <= c <= '\U{1F}' }

  function TrimStart(s: string): string {
    if s != "" && Blank(s[0]) then TrimStart(s[1..]) else s
  }

  function TrimEnd(s: string): string {
    if s != "" && Blank(s[|s| - 1]) then TrimEnd(s[..|s| - 1]) else s
  }

  function Strip(s: string): string { TrimEnd(TrimStart(s)) }

  /** The first non-empty spelling, then stripped: a blank first spelling hides the second. */
  function Text(first: string, second: string): string {
    Strip(if first != "" then first else second)
  }

  lemma {:induction false} StripIdempotent(s: string)
    ensures Strip(Strip(s)) == Strip(s)
  {
    TrimStartClean(s);
    TrimEndClean(TrimStart(s));
  }

  lemma {:induction false} TrimStartClean(s: string)
    ensures TrimStart(s) == "" || !Blank(TrimStart(s)[0])
  {
    if s != "" && Blank(s[0]) { TrimStartClean(s[1..]); }
  }

  lemma {:induction false} TrimEndClean(s: string)
    ensures TrimEnd(s) == "" || !Blank(TrimEnd(s)[|TrimEnd(s)| - 1])
    ensures TrimEnd(s) <= s
    ensures TrimEnd(TrimEnd(s)) == TrimEnd(s)
  {
    if s != "" && Blank(s[|s| - 1]) { TrimEndClean(s[..|s| - 1]); }
  }

  // ----- Validation

  function Key(s: Source): string { Text(s.id, s.sourceId) }

  function From(e: Edge): string { Text(e.source, e.sourceNodeId) }

  function To(e: Edge): string { Text(e.target, e.targetNodeId) }

  function SourceIds(sources: seq<Source>): set<string> { set i | 0 <= i < |sources| :: Key(sources[i]) }

  function NodeIds(nodes: seq<Node>): set<string> { set i | 0 <= i < |nodes| :: Strip(nodes[i].id) }

  predicate SourcesOk(sources: seq<Source>) {
    && (forall i :: 0 <= i < |sources| ==> Key(sources[i]) != "")
    && (forall i, j :: 0 <= i < j < |sources| ==> Key(sources[i]) != Key(sources[j]))
  }

  predicate NodesOk(nodes: seq<Node>, known: set<string>) {
    && (forall i :: 0 <= i < |nodes| ==> Strip(nodes[i].id) != "")
    && (forall i, j :: 0 <= i < j < |nodes| ==> Strip(nodes[i].id) != Strip(nodes[j].id))
    && (forall i :: 0 <= i < |nodes| && Strip(nodes[i].sourceId) != "" && known != {} ==>
        Strip(nodes[i].sourceId) in known)
  }

  predicate EdgesOk(edges: seq<Edge>, ids: set<string>) {
    && (forall i :: 0 <= i < |edges| ==> From(edges[i]) != "" && To(edges[i]) != "")
    && (forall i :: 0 <= i < |edges| ==> From(edges[i]) in ids && To(edges[i]) in ids)
    && (forall i, j :: 0 <= i < j < |edges| && Strip(edges[i].id) != "" ==> Strip(edges[i].id) != Strip(edges[j].id))
  }

  predicate ValidSnapshot(nodes: seq<Node>, edges: seq<Edge>, sources: seq<Source>) {
    SourcesOk(sources) && NodesOk(nodes, SourceIds(sources)) && EdgesOk(edges, NodeIds(nodes))
  }

  // What each error says: the first item that fails, and how.

  ghost predicate SourceFails(sources: seq<Source>, e: Error) {
    exists i: nat :: i < |sources| && SourcesOk(sources[..i]) && match e
      case Missing(SourceId) => Key(sources[i]) == ""
      case DuplicateSource => Key(sources[i]) != "" && Key(sources[i]) in SourceIds(sources[..i])
      case _ => false
  }

  ghost predicate NodeFails(nodes: seq<Node>, known: set<string>, e: Error) {
    exists i: nat :: i < |nodes| && NodesOk(nodes[..i], known) && match e
      case Missing(NodeId) => Strip(nodes[i].id) == ""
      case DuplicateNode => Strip(nodes[i].id) != "" && Strip(nodes[i].id) in NodeIds(nodes[..i])
      case NodeSourceMissing =>
        Strip(nodes[i].id) != "" && Strip(nodes[i].id) !in NodeIds(nodes[..i])
        && Strip(nodes[i].sourceId) != "" && known != {} && Strip(nodes[i].sourceId) !in known
      case _ => false
  }

  ghost predicate EdgeFails(edges: seq<Edge>, ids: set<string>, e: Error) {
    exists i: nat :: i < |edges| && EdgesOk(edges[..i], ids) && match e
      case Missing(EdgeSource) => From(edges[i]) == ""
      case Missing(EdgeTarget) => From(edges[i]) != "" && To(edges[i]) == ""
      case DanglingEdge => From(edges[i]) != "" && To(edges[i]) != "" && !(From(edges[i]) in ids && To(edges[i]) in ids)
      case DuplicateEdge =>
        From(edges[i]) in ids && To(edges[i]) in ids && Strip(edges[i].id) != ""
        && exists j :: 0 <= j < i && Strip(edges[j].id) == Strip(edges[i].id)
      case _ => false
  }

  /** `_validate_snapshot_references`: sources, then nodes, then edges. */
  method ValidateReferences(nodes: seq<Node>, edges: seq<Edge>, sources: seq<Source>)
      returns (r: Result<set<string>, Error>)
    ensures r.Ok? <==> ValidSnapshot(nodes, edges, sources)
    ensures r.Ok? ==> r.value == NodeIds(nodes)
    ensures r.Err? && r.error in {Missing(SourceId), DuplicateSource} <==> !SourcesOk(sources)
    ensures r.Err? && r.error in {Missing(NodeId), DuplicateNode, NodeSourceMissing}
      <==> SourcesOk(sources) && !NodesOk(nodes, SourceIds(sources))
    ensures r.Err? ==>
        if !SourcesOk(sources) then SourceFails(sources, r.error)
        else if !NodesOk(nodes, SourceIds(sources)) then NodeFails(nodes, SourceIds(sources), r.error)
        else EdgeFails(edges, NodeIds(nodes), r.error)
  {
    hide SourceFails, NodeFails, EdgeFails;
    var sourceIds := CheckSources(sources);
    if sourceIds.Err? {
      return Err(sourceIds.error);
    }
    var nodeIds := CheckNodes(nodes, sourceIds.value);
    if nodeIds.Err? {
      return Err(nodeIds.error);
    }
    var edgesChecked := CheckEdges(edges, nodeIds.value);
    if edgesChecked.Err? {
      return Err(edgesChecked.error);
    }
    r := nodeIds;
  }

  method CheckSources(sources: seq<Source>) returns (r: Result<set<string>, Error>)
    ensures r.Ok? <==> SourcesOk(sources)
    ensures r.Ok? ==> r.value == SourceIds(sources)
    ensures r.Err? ==> r.error in {Missing(SourceId), DuplicateSource} && SourceFails(sources, r.error)
  {
    hide Text;
    var ids: set<string> := {};
    for i := 0 to |sources|
      invariant forall x :: x in ids <==> exists j :: 0 <= j < i && Key(sources[j]) == x
      invariant SourcesOk(sources[..i])
    {
      var key := Key(sources[i]);
      if key == "" {
        return Err(Missing(SourceId));
      }
      if key in ids {
        return Err(DuplicateSource);
      }
      ids := ids + {key};
    }
    assert sources[..|sources|] == sources;
    r := Ok(ids);
  }

  method CheckNodes(nodes: seq<Node>, known: set<string>) returns (r: Result<set<string>, Error>)
    ensures r.Ok? <==> NodesOk(nodes, known)
    ensures r.Ok? ==> r.value == NodeIds(nodes)
    ensures r.Err? ==>
        r.error in {Missing(NodeId), DuplicateNode, NodeSourceMissing} && NodeFails(nodes, known, r.error)
  {
    hide Strip;
    var ids: set<string> := {};
    for i := 0 to |nodes|
      invariant forall x :: x in ids <==> exists j :: 0 <= j < i && Strip(nodes[j].id) == x
      invariant NodesOk(nodes[..i], known)
    {
      var id, source := Strip(nodes[i].id), Strip(nodes[i].sourceId);
      if id == "" {
        return Err(Missing(NodeId));
      }
      if id in ids {
        return Err(DuplicateNode);
      }
      ids := ids + {id};
      if source != "" && known != {} && source !in known {
        return Err(NodeSourceMissing);
      }
    }
    assert nodes[..|nodes|] == nodes;
    r := Ok(ids);
  }

  method CheckEdges(edges: seq<Edge>, nodeIds: set<string>) returns (r: Result<(), Error>)
    ensures r.Ok? <==> EdgesOk(edges, nodeIds)
    ensures r.Err? ==> r.error in {Missing(EdgeSource), Missing(EdgeTarget), DanglingEdge, DuplicateEdge}
    ensures r.Err? ==> EdgeFails(edges, nodeIds, r.error)
  {
    hide Strip, From, To;
    var ids: set<string> := {};
    for i := 0 to |edges|
      invariant forall x :: x in ids <==> exists j :: 0 <= j < i && Strip(edges[j].id) == x
      invariant EdgesOk(edges[..i], nodeIds)
    {
      var from, to, id := From(edges[i]), To(edges[i]), Strip(edges[i].id);
      if from == "" {
        return Err(Missing(EdgeSource));
      }
      if to == "" {
        return Err(Missing(EdgeTarget));
      }
      if from !in nodeIds || to !in nodeIds {
        return Err(DanglingEdge);
      }
      if id != "" && id in ids {
        return Err(DuplicateEdge);
      }
      ids := ids + {id};
    }
    assert edges[..|edges|] == edges;
    r := Ok(());
  }

  // ----- Materialization

  datatype Link = Link(from: string, to: string, edgeType: string, reason: string)

  datatype Graph = Graph(nodes: seq<string>, links: seq<Link>)

  /** The endpoints a materialized edge gets: the other spelling is preferred here. */
  function LinkFrom(e: Edge): string { Text(e.sourceNodeId, e.source) }

  function LinkTo(e: Edge): string { Text(e.targetNodeId, e.target) }

  const DERIVES := "derives_from"
  const MENTIONS := "mentions_entity"

  function OriginalKind(e: Edge): string {
    if e.edgeType != "" then e.edgeType else if e.kind != "" then e.kind else "related"
  }

  /** `_normalized_restore_edge`: only two edge types are kept; any other is noted in the reason. */
  function NormalizedEdge(e: Edge): Result<Link, Error> {
    var kind := OriginalKind(e);
    var kept := kind == DERIVES || kind == MENTIONS;
    var reason := if e.reason != "" then e.reason else "brain_sync_restore";
    if LinkFrom(e) == "" then Err(Missing(EdgeSource))
    else if LinkTo(e) == "" then Err(Missing(EdgeTarget))
    else Ok(Link(LinkFrom(e), LinkTo(e), if kept then kind else DERIVES,
      if kept then reason else reason + "; imported_edge_type=" + kind))
  }

  ghost predicate MaterializesTo(nodes: seq<Node>, edges: seq<Edge>, g: Graph) {
    && |g.nodes| == |nodes| && (forall i :: 0 <= i < |nodes| ==> g.nodes[i] == Strip(nodes[i].id))
    && |g.links| == |edges| && forall i :: 0 <= i < |edges| ==> Ok(g.links[i]) == NormalizedEdge(edges[i])
  }

  /** The graph that `_materialize_staged_brain` writes: every node, then every edge. */
  method Materialize(nodes: seq<Node>, edges: seq<Edge>) returns (r: Result<Graph, Error>)
    ensures r.Ok? <==> (forall i :: 0 <= i < |nodes| ==> Strip(nodes[i].id) != "") && forall i :: 0 <= i < |edges| ==>
        NormalizedEdge(edges[i]).Ok?
    ensures r.Ok? ==> MaterializesTo(nodes, edges, r.value)
  {
    hide Strip, NormalizedEdge;
    var ids: seq<string>, links: seq<Link> := [], [];
    for i := 0 to |nodes|
      invariant |ids| == i && forall j :: 0 <= j < i ==> ids[j] == Strip(nodes[j].id) && ids[j] != ""
    {
      var id := Strip(nodes[i].id);
      if id == "" {
        return Err(Missing(NodeId));
      }
      ids := ids + [id];
    }
    for i := 0 to |edges|
      invariant |links| == i && forall j :: 0 <= j < i ==> Ok(links[j]) == NormalizedEdge(edges[j])
    {
      var link := NormalizedEdge(edges[i]);
      if link.Err? {
        return Err(link.error);
      }
      links := links + [link.value];
    }
    r := Ok(Graph(ids, links));
  }

  predicate Closed(g: Graph) {
    && (forall i, j :: 0 <= i < j < |g.nodes| ==> g.nodes[i] != g.nodes[j])
    && (forall i :: 0 <= i < |g.links| ==> g.links[i].from in g.nodes && g.links[i].to in g.nodes)
    && (forall i :: 0 <= i < |g.links| ==> g.links[i].edgeType == DERIVES || g.links[i].edgeType == MENTIONS)
  }

  /** Where an endpoint is spelled twice, the spelling validation did not look at names a node. */
  predicate SecondSpellingsName(e: Edge, ids: set<string>) {
    && (e.source != "" && e.sourceNodeId != "" ==> Strip(e.sourceNodeId) in ids)
    && (e.target != "" && e.targetNodeId != "" ==> Strip(e.targetNodeId) in ids)
  }

  predicate SpellingsAgree(e: Edge) {
    && (e.source != "" && e.sourceNodeId != "" ==> Strip(e.source) == Strip(e.sourceNodeId))
    && (e.target != "" && e.targetNodeId != "" ==> Strip(e.target) == Strip(e.targetNodeId))
  }

  /** An accepted snapshot becomes a closed graph exactly when every endpoint spelled twice names
      a node in both spellings; otherwise an edge dangles or materialization raises. */
  lemma {:induction false} ClosedIff(nodes: seq<Node>, edges: seq<Edge>, sources: seq<Source>)
    requires ValidSnapshot(nodes, edges, sources)
    ensures (exists g: Graph :: MaterializesTo(nodes, edges, g) && Closed(g))
       <==> forall i :: 0 <= i < |edges| ==> SecondSpellingsName(edges[i], NodeIds(nodes))
  {
    var ids := NodeIds(nodes);
    if g: Graph :| MaterializesTo(nodes, edges, g) && Closed(g) {
      forall i | 0 <= i < |edges| ensures SecondSpellingsName(edges[i], ids) {
        assert Ok(g.links[i]) == NormalizedEdge(edges[i]);
        assert g.links[i].from in g.nodes && g.links[i].to in g.nodes;
      }
    }
    if forall i :: 0 <= i < |edges| ==> SecondSpellingsName(edges[i], ids) {
      var g := ClosedGraph(nodes, edges, sources);
    }
  }

  lemma {:induction false} ClosedGraph(nodes: seq<Node>, edges: seq<Edge>, sources: seq<Source>) returns (g: Graph)
    requires ValidSnapshot(nodes, edges, sources)
    requires forall i :: 0 <= i < |edges| ==> SecondSpellingsName(edges[i], NodeIds(nodes))
    ensures MaterializesTo(nodes, edges, g) && Closed(g)
  {
    forall i | 0 <= i < |edges|
      ensures LinkFrom(edges[i]) in NodeIds(nodes) && LinkTo(edges[i]) in NodeIds(nodes) && NormalizedEdge(edges[i]).Ok?
    {
      assert From(edges[i]) in NodeIds(nodes) && To(edges[i]) in NodeIds(nodes);
      assert "" !in NodeIds(nodes);
    }
    var ids := seq(|nodes|, i requires 0 <= i < |nodes| => Strip(nodes[i].id));
    var links := seq(|edges|, i requires 0 <= i < |edges| => NormalizedEdge(edges[i]).value);
    g := Graph(ids, links);
    forall x | x in NodeIds(nodes) ensures x in ids {
      var i :| 0 <= i < |nodes| && Strip(nodes[i].id) == x;
      assert ids[i] == x;
    }
    forall i | 0 <= i < |links| ensures links[i].from in ids && links[i].to in ids {
      assert links[i].from == LinkFrom(edges[i]);
    }
  }

  /** When the spellings agree, materialization succeeds, the graph is closed, and every edge
      joins the very nodes validation checked. */
  lemma {:induction false} AgreeingSpellingsClose(nodes: seq<Node>, edges: seq<Edge>, sources: seq<Source>)
      returns (g: Graph)
    requires ValidSnapshot(nodes, edges, sources)
    requires forall i :: 0 <= i < |edges| ==> SpellingsAgree(edges[i])
    ensures MaterializesTo(nodes, edges, g) && Closed(g)
    ensures forall i :: 0 <= i < |edges| ==> g.links[i].from == From(edges[i]) && g.links[i].to == To(edges[i])
  {
    forall i | 0 <= i < |edges| ensures SecondSpellingsName(edges[i], NodeIds(nodes)) {
      assert From(edges[i]) in NodeIds(nodes) && To(edges[i]) in NodeIds(nodes);
    }
    g := ClosedGraph(nodes, edges, sources);
    forall i | 0 <= i < |edges| ensures g.links[i].from == From(edges[i]) && g.links[i].to == To(edges[i]) {
      assert Ok(g.links[i]) == NormalizedEdge(edges[i]);
    }
  }

  /** An accepted snapshot whose materialized edge points at no node. */
  lemma {:induction false} AcceptedButDangling()
    ensures var node := Node("a", "");
      var edge := Edge("", "a", "a", "ghost", "", "", "", "");
      ValidSnapshot([node], [edge], []) && NormalizedEdge(edge).Ok?
          && NormalizedEdge(edge).value.from !in NodeIds([node])
  {
    var nodes := [Node("a", "")];
    var edge := Edge("", "a", "a", "ghost", "", "", "", "");
    assert TrimStart("a") == "a" && TrimEnd("a") == "a";
    assert TrimStart("ghost") == "ghost" && TrimEnd("ghost") == "ghost";
    assert Strip(nodes[0].id) == "a" && "a" in NodeIds(nodes);
    assert From(edge) == "a" && To(edge) == "a";
    assert "ghost" != "a" by { assert |"ghost"| != |"a"|; }
  }

  /** A materialized graph read as a snapshot again. */
  function NodesOf(g: Graph): (nodes: seq<Node>)
    ensures |nodes| == |g.nodes| && forall i :: 0 <= i < |nodes| ==> nodes[i] == Node(g.nodes[i], "")
  {
    seq(|g.nodes|, i requires 0 <= i < |g.nodes| => Node(g.nodes[i], ""))
  }

  function EdgeOf(l: Link): Edge {
    Edge("", "", "", l.from, l.to, l.edgeType, "", l.reason)
  }

  function EdgesOf(g: Graph): (edges: seq<Edge>)
    ensures |edges| == |g.links| && forall i :: 0 <= i < |edges| ==> edges[i] == EdgeOf(g.links[i])
  {
    seq(|g.links|, i requires 0 <= i < |g.links| => EdgeOf(g.links[i]))
  }

  lemma {:induction false} LinkReadsBack(e: Edge, l: Link)
    requires NormalizedEdge(e) == Ok(l)
    ensures From(EdgeOf(l)) == l.from != "" && To(EdgeOf(l)) == l.to != ""
  {
    StripIdempotent(if e.sourceNodeId != "" then e.sourceNodeId else e.source);
    StripIdempotent(if e.targetNodeId != "" then e.targetNodeId else e.target);
  }

  /** What materialization records is already stripped, so validating it again accepts it. */
  lemma {:induction false} MaterializedValidates(nodes: seq<Node>, edges: seq<Edge>, g: Graph)
    requires MaterializesTo(nodes, edges, g) && Closed(g)
    requires forall i :: 0 <= i < |g.nodes| ==> g.nodes[i] != ""
    ensures ValidSnapshot(NodesOf(g), EdgesOf(g), [])
  {
    hide From, To, NormalizedEdge, EdgeOf;
    var again, links := NodesOf(g), EdgesOf(g);
    forall i | 0 <= i < |again| ensures Strip(again[i].id) == g.nodes[i] {
      StripIdempotent(nodes[i].id);
    }
    assert Strip("") == "";
    hide Strip;
    forall x | x in g.nodes ensures x in NodeIds(again) {
      var i :| 0 <= i < |g.nodes| && g.nodes[i] == x;
      assert Strip(again[i].id) == x;
    }
    forall i | 0 <= i < |links|
      ensures From(links[i]) == g.links[i].from != "" && To(links[i]) == g.links[i].to != "" && Strip(links[i].id) == ""
    {
      assert Ok(g.links[i]) == NormalizedEdge(edges[i]);
      LinkReadsBack(edges[i], g.links[i]);
      BlankEdgeId(g.links[i]);
    }
  }

  lemma {:induction false} BlankEdgeId(l: Link)
    ensures Strip(EdgeOf(l).id) == ""
  {
  }
}
