/** Which nodes a sampled view shows of a bucket, and what it shows of a node. */
module GraphViewShows {
  import opened StringOrder
  import opened DistinctItems
  import opened GraphView

  /** Of two nodes the first comes first, or they are one: anchors before others, then by confidence,
      by stability, and by id, the greater first. */
  predicate AtLeast(a: Node, b: Node) {
    && a.anchor >= b.anchor
    && (a.anchor == b.anchor ==>
          && a.confidence >= b.confidence
          && (a.confidence == b.confidence ==>
                && a.stability >= b.stability
                && (a.stability == b.stability ==> !StringLess(a.id, b.id))))
  }

  /** In a sampled view no node is left out for one of its bucket that comes after it. */
  lemma {:induction false} ShownBeforeHidden(nodes: seq<Node>, round: nat, turn: nat, shown: Node, hidden: Node)
    requires DistinctIds(nodes) && turn <= |Lists(nodes)|
    requires shown in nodes && shown.id in Ids(Picked(Lists(nodes), round, turn))
    requires hidden in nodes && hidden.id !in Ids(Picked(Lists(nodes), round, turn)) && hidden.bucket == shown.bucket
    ensures AtLeast(shown, hidden)
  {
    hide Picked, Lists, Keys, DistinctIds, Given;
    var i := BucketAt(nodes, shown);
    PickedNode(nodes, round, turn, shown);
    PickedIsGiven(nodes, round, turn, i, shown);
    var a := PlaceOf(nodes, i, shown);
    var b := PlaceOf(nodes, i, hidden);
    var list, g := Lists(nodes)[i], Given(Lists(nodes), round, turn, i);
    var c :| 0 <= c < g && list[c] == shown;
    if b < g { PrefixIsPicked(nodes, round, turn, i, b); }
    ContributionIsTop(nodes, round, turn, i, c, b);
  }

  lemma {:induction false} BucketAt(nodes: seq<Node>, n: Node) returns (i: nat)
    requires n in nodes
    ensures i < |Lists(nodes)| && Keys(nodes)[i] == n.bucket
  {
    hide Keys;
    var k :| 0 <= k < |nodes| && nodes[k] == n;
    assert nodes[k].bucket in Keys(nodes);
    i :| 0 <= i < |Keys(nodes)| && Keys(nodes)[i] == n.bucket;
  }

  lemma {:induction false} PickedNode(nodes: seq<Node>, round: nat, turn: nat, n: Node)
    requires DistinctIds(nodes) && turn <= |Lists(nodes)| && n in nodes
    requires n.id in Ids(Picked(Lists(nodes), round, turn))
    ensures n in Picked(Lists(nodes), round, turn)
  {
    hide Picked, Lists, DistinctIds;
    var p :| p in Picked(Lists(nodes), round, turn) && p.id == n.id;
    PickedInNodes(nodes, round, turn);
    SameNode(nodes, p, n);
  }

  lemma {:induction false} PlaceOf(nodes: seq<Node>, i: nat, n: Node) returns (a: nat)
    requires n in nodes && i < |Lists(nodes)| && Keys(nodes)[i] == n.bucket
    ensures a < |Lists(nodes)[i]| && Lists(nodes)[i][a] == n
  {
    var m := Members(nodes, n.bucket);
    assert n in m && n in multiset(m);
    assert multiset(Lists(nodes)[i]) == multiset(m);
    assert n in Lists(nodes)[i];
    a :| 0 <= a < |Lists(nodes)[i]| && Lists(nodes)[i][a] == n;
  }

  lemma {:induction false} PrefixIsPicked(nodes: seq<Node>, round: nat, turn: nat, i: nat, b: nat)
    requires turn <= |Lists(nodes)| && i < |Lists(nodes)| && b < Given(Lists(nodes), round, turn, i)
    ensures Lists(nodes)[i][b].id in Ids(Picked(Lists(nodes), round, turn))
  {
    hide Picked, Lists, Given;
    var n, g := Lists(nodes)[i][b], Given(Lists(nodes), round, turn, i);
    assert Lists(nodes)[i][..g][b] == n;
    PickedIsPrefixes(Lists(nodes), round, turn, n);
  }

  // ----- What is shown of a node

  function Fewer(a: nat, b: nat): nat { if a <= b then a else b }

  /** A shown node is as it was but for its links and highways: of each, those to shown nodes, in
      their order, and the first eight of them if there are more. */
  lemma {:induction false} NodeShows(n: Node, ids: set<string>)
    ensures var c, links, highways := Compact(n, ids), KeepTargets(n.links, ids), KeepTargets(n.highways, ids);
            && c == n.(links := c.links, highways := c.highways)
            && c.links == links[..Fewer(|links|, 8)] && c.highways == highways[..Fewer(|highways|, 8)]
  {
  }

  /** Filtering keeps every target that is shown, as often as it is linked and in place. */
  lemma {:induction false} TargetsKept(a: seq<string>, t: string, b: seq<string>, ids: set<string>)
    ensures KeepTargets([], ids) == []
    ensures KeepTargets(a + [t] + b, ids)
         == KeepTargets(a, ids) + (if t in ids then [t] else []) + KeepTargets(b, ids)
  {
    if a == [] {
      assert a + [t] + b == [t] + b && ([t] + b)[1..] == b;
    } else {
      assert (a + [t] + b)[1..] == a[1..] + [t] + b;
      TargetsKept(a[1..], t, b, ids);
    }
  }

  lemma {:induction false} EdgesKept(a: seq<Edge>, e: Edge, b: seq<Edge>, ids: set<string>)
    ensures KeepEdges([], ids) == []
    ensures KeepEdges(a + [e] + b, ids)
         == KeepEdges(a, ids) + (if e.source in ids && e.target in ids then [e] else []) + KeepEdges(b, ids)
  {
    hide KeepEdges;
    var n := |b|;
    EdgesStep(a + [e] + b, ids);
    EdgesStep(b, ids);
    if n == 0 {
      assert a + [e] + b == a + [e] && (a + [e])[..|a|] == a;
    } else {
      assert (a + [e] + b)[..|a| + n] == a + [e] + b[..n - 1];
      EdgesKept(a, e, b[..n - 1], ids);
    }
  }

  lemma {:induction false} EdgesStep(edges: seq<Edge>, ids: set<string>)
    ensures KeepEdges([], ids) == []
    ensures edges != [] ==>
              var n := |edges| - 1;
              KeepEdges(edges, ids) == KeepEdges(edges[..n], ids)
                  + (if edges[n].source in ids && edges[n].target in ids then [edges[n]] else [])
  {
  }

  // ----- The order of the buckets

  /** The round goes over the buckets in the order in which they first appear. */
  lemma {:induction false} BucketsInOrder(nodes: seq<Node>, i: nat, j: nat) returns (a: nat, b: nat)
    requires i < j < |Keys(nodes)|
    ensures a < b < |nodes| && nodes[a].bucket == Keys(nodes)[i] && nodes[b].bucket == Keys(nodes)[j]
    ensures forall k :: 0 <= k < b ==> nodes[k].bucket != Keys(nodes)[j]
  {
    var n := |nodes| - 1;
    var front := nodes[..n];
    if j < |Keys(front)| {
      a, b := BucketsInOrder(front, i, j);
      assert forall k :: 0 <= k < b ==> nodes[k] == front[k];
    } else {
      assert Keys(nodes) == Keys(front) + [nodes[n].bucket];
      assert Keys(front)[i] in Keys(front);
      a :| 0 <= a < |front| && front[a].bucket == Keys(front)[i];
      b := n;
      forall k | 0 <= k < n ensures nodes[k].bucket != nodes[n].bucket {
        assert front[k] == nodes[k] && front[k].bucket in Keys(front);
      }
    }
  }
}
