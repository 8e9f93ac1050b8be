/** The render view of a large graph: a round-robin sample over buckets, each taken in
    priority order, with edges and links cut down to the sample. */
module GraphView {
  import opened StringOrder
  import opened DistinctItems

  datatype Node = Node(
    id: string, bucket: string, anchor: real, confidence: real, stability: real,
    links: seq<string>, highways: seq<string>)

  datatype Edge = Edge(source: string, target: string)

  datatype View = View(nodes: seq<Node>, edges: seq<Edge>)

  predicate DistinctIds(nodes: seq<Node>) {
    forall i, j :: 0 <= i < j < |nodes| ==> nodes[i].id != nodes[j].id
  }

  function Ids(nodes: seq<Node>): set<string> {
    set n | n in nodes :: n.id
  }

  function IdsOf(nodes: seq<Node>): (ids: seq<string>)
    ensures |ids| == |nodes| && forall i :: 0 <= i < |nodes| ==> ids[i] == nodes[i].id
  {
    seq(|nodes|, i requires 0 <= i < |nodes| => nodes[i].id)
  }

  // ----- Priority order

  /** Comparison of the priority tuples. */
  predicate Less(a: Node, b: Node) {
    if a.anchor != b.anchor then a.anchor < b.anchor
    else if a.confidence != b.confidence then a.confidence < b.confidence
    else if a.stability != b.stability then a.stability < b.stability
    else StringLess(a.id, b.id)
  }

  predicate Descending(s: seq<Node>) {
    forall i, j :: 0 <= i < j < |s| ==> !Less(s[i], s[j])
  }

  /** Stable insertion into a descending list: after everything that is not less. */
  function Insert(n: Node, s: seq<Node>): (r: seq<Node>)
    ensures multiset(r) == multiset(s) + multiset{n} && |r| == |s| + 1
  {
    if s == [] then [n]
    else if Less(s[0], n) then [n] + s
    else
      assert s == [s[0]] + s[1..];
      [s[0]] + Insert(n, s[1..])
  }

  /** Stable sort, highest priority first. */
  function Sorted(s: seq<Node>): (r: seq<Node>)
    ensures multiset(r) == multiset(s) && |r| == |s|
  {
    if s == [] then []
    else
      var front, last := s[..|s| - 1], s[|s| - 1];
      assert s == front + [last];
      Insert(last, Sorted(front))
  }

  lemma {:induction false} NotLessTransitive(a: Node, b: Node, c: Node)
    requires !Less(a, b) && !Less(b, c)
    ensures !Less(a, c)
  {
    if a.id != b.id && StringLess(a.id, c.id) { StringLessNegativelyTransitive(a.id, b.id, c.id); }
  }

  lemma {:induction false} LessAsymmetric(a: Node, b: Node)
    requires Less(a, b)
    ensures !Less(b, a)
  {
    if StringLess(a.id, b.id) { StringLessAsymmetric(a.id, b.id); }
  }

  lemma {:induction false} InsertDescending(n: Node, s: seq<Node>)
    requires Descending(s)
    ensures Descending(Insert(n, s))
  {
    if s != [] {
      var r := Insert(n, s);
      if Less(s[0], n) {
        LessAsymmetric(s[0], n);
        forall j | 0 < j < |r| ensures !Less(n, r[j]) {
          if j > 1 { NotLessTransitive(n, s[0], s[j - 1]); }
        }
      } else {
        var rest := Insert(n, s[1..]);
        InsertDescending(n, s[1..]);
        forall j | 0 <= j < |rest| ensures !Less(s[0], rest[j]) {
          assert rest[j] in multiset(rest);
          assert rest[j] == n || rest[j] in s[1..];
        }
      }
    }
  }

  lemma {:induction false} SortedDescending(s: seq<Node>)
    ensures Descending(Sorted(s))
  {
    if s != [] {
      SortedDescending(s[..|s| - 1]);
      InsertDescending(s[|s| - 1], Sorted(s[..|s| - 1]));
    }
  }

  // ----- Buckets

  function Members(nodes: seq<Node>, key: string): (out: seq<Node>)
    ensures forall n :: n in out <==> n in nodes && n.bucket == key
  {
    if nodes == [] then []
    else
      var last := nodes[|nodes| - 1];
      Members(nodes[..|nodes| - 1], key) + (if last.bucket == key then [last] else [])
  }

  /** Bucket keys in the order in which they first appear. */
  function Keys(nodes: seq<Node>): (keys: seq<string>)
    ensures forall k :: k in keys <==> exists i :: 0 <= i < |nodes| && nodes[i].bucket == k
    ensures forall i, j :: 0 <= i < j < |keys| ==> keys[i] != keys[j]
  {
    if nodes == [] then []
    else
      var keys := Keys(nodes[..|nodes| - 1]);
      var key := nodes[|nodes| - 1].bucket;
      if key in keys then keys else keys + [key]
  }

  function Lists(nodes: seq<Node>): (lists: seq<seq<Node>>)
    ensures |lists| == |Keys(nodes)|
    ensures forall i :: 0 <= i < |lists| ==> lists[i] == Sorted(Members(nodes, Keys(nodes)[i]))
  {
    seq(|Keys(nodes)|, i requires 0 <= i < |Keys(nodes)| => Sorted(Members(nodes, Keys(nodes)[i])))
  }

  function MemberTotal(nodes: seq<Node>, keys: seq<string>): nat {
    if keys == [] then 0 else |Members(nodes, keys[0])| + MemberTotal(nodes, keys[1..])
  }

  lemma {:induction false} MemberTotalStep(nodes: seq<Node>, last: Node, keys: seq<string>)
    requires forall i, j :: 0 <= i < j < |keys| ==> keys[i] != keys[j]
    ensures MemberTotal(nodes + [last], keys) == MemberTotal(nodes, keys) + (if last.bucket in keys then 1 else 0)
  {
    if keys != [] {
      assert (nodes + [last])[..|nodes|] == nodes;
      MemberTotalStep(nodes, last, keys[1..]);
    }
  }

  lemma {:induction false} MemberTotalAppend(nodes: seq<Node>, keys: seq<string>, key: string)
    ensures MemberTotal(nodes, keys + [key]) == MemberTotal(nodes, keys) + |Members(nodes, key)|
  {
    if keys == [] {
      assert [key][1..] == [];
    } else {
      assert (keys + [key])[1..] == keys[1..] + [key];
      MemberTotalAppend(nodes, keys[1..], key);
    }
  }

  lemma {:induction false} NoMembers(nodes: seq<Node>, key: string)
    requires forall i :: 0 <= i < |nodes| ==> nodes[i].bucket != key
    ensures Members(nodes, key) == []
  {
    if nodes != [] { NoMembers(nodes[..|nodes| - 1], key); }
  }

  /** The buckets partition the nodes. */
  lemma {:induction false} BucketsCoverNodes(nodes: seq<Node>)
    ensures MemberTotal(nodes, Keys(nodes)) == |nodes|
  {
    if nodes != [] {
      var front, last := nodes[..|nodes| - 1], nodes[|nodes| - 1];
      BucketsCoverNodes(front);
      assert nodes == front + [last];
      var keys := Keys(front);
      if last.bucket in keys {
        MemberTotalStep(front, last, keys);
      } else {
        MemberTotalAppend(front, keys, last.bucket);
        NoMembers(front, last.bucket);
        MemberTotalStep(front, last, keys + [last.bucket]);
      }
    }
  }

  function Total(lists: seq<seq<Node>>): nat {
    if lists == [] then 0 else |lists[0]| + Total(lists[1..])
  }

  lemma {:induction false} ListsTotal(nodes: seq<Node>, keys: seq<string>, lists: seq<seq<Node>>)
    requires |lists| == |keys| && forall i :: 0 <= i < |lists| ==> lists[i] == Sorted(Members(nodes, keys[i]))
    ensures Total(lists) == MemberTotal(nodes, keys)
  {
    if keys != [] { ListsTotal(nodes, keys[1..], lists[1..]); }
  }

  // ----- The round-robin order

  /** The nodes picked after `r` full rounds and the first `j` buckets of the next. */
  function Picked(lists: seq<seq<Node>>, r: nat, j: nat): seq<Node>
    requires j <= |lists|
    decreases r, j
  {
    if j > 0 then Picked(lists, r, j - 1) + (if r < |lists[j - 1]| then [lists[j - 1][r]] else [])
    else if r > 0 then Picked(lists, r - 1, |lists|)
    else []
  }

  /** How many nodes bucket `i` has given by then. */
  function Given(lists: seq<seq<Node>>, r: nat, j: nat, i: nat): (g: nat)
    requires i < |lists|
    ensures g <= |lists[i]|
  {
    var turns := if i < j then r + 1 else r;
    if turns < |lists[i]| then turns else |lists[i]|
  }

  /** What was picked is exactly a top prefix of every bucket. */
  lemma {:induction false} PickedIsPrefixes(lists: seq<seq<Node>>, r: nat, j: nat, n: Node)
    requires j <= |lists|
    ensures n in Picked(lists, r, j) <==> exists i :: 0 <= i < |lists| && n in lists[i][..Given(lists, r, j, i)]
    decreases r, j
  {
    if j > 0 {
      PickedIsPrefixes(lists, r, j - 1, n);
      var list := lists[j - 1];
      assert forall i :: 0 <= i < |lists| && i != j - 1 ==> Given(lists, r, j, i) == Given(lists, r, j - 1, i);
      if r < |list| { assert list[..r + 1] == list[..r] + [list[r]]; }
    } else if r > 0 {
      PickedIsPrefixes(lists, r - 1, |lists|, n);
      assert forall i :: 0 <= i < |lists| ==> Given(lists, r, 0, i) == Given(lists, r - 1, |lists|, i);
    }
  }

  /** Two buckets' contributions differ by more than one only if the smaller is exhausted. */
  lemma {:induction false} Fair(lists: seq<seq<Node>>, r: nat, j: nat, a: nat, b: nat)
    requires j <= |lists| && a < |lists| && b < |lists|
    ensures Given(lists, r, j, a) + 1 < Given(lists, r, j, b) ==> Given(lists, r, j, a) == |lists[a]|
  {
  }

  function GivenTotal(lists: seq<seq<Node>>, r: nat, j: nat, k: nat): nat
    requires k <= |lists|
  {
    if k == 0 then 0 else GivenTotal(lists, r, j, k - 1) + Given(lists, r, j, k - 1)
  }

  lemma {:induction false} GivenTotalStep(lists: seq<seq<Node>>, r: nat, j: nat, k: nat)
    requires 0 < j <= |lists| && k <= |lists|
    ensures GivenTotal(lists, r, j, k)
        == GivenTotal(lists, r, j - 1, k) + (if j <= k && r < |lists[j - 1]| then 1 else 0)
  {
    if k > 0 { GivenTotalStep(lists, r, j, k - 1); }
  }

  lemma {:induction false} GivenTotalRound(lists: seq<seq<Node>>, r: nat, k: nat)
    requires r > 0 && k <= |lists|
    ensures GivenTotal(lists, r, 0, k) == GivenTotal(lists, r - 1, |lists|, k)
  {
    if k > 0 { GivenTotalRound(lists, r, k - 1); }
  }

  lemma {:induction false} GivenTotalZero(lists: seq<seq<Node>>, k: nat)
    requires k <= |lists|
    ensures GivenTotal(lists, 0, 0, k) == 0
  {
    if k > 0 { GivenTotalZero(lists, k - 1); }
  }

  lemma {:induction false} PickedCount(lists: seq<seq<Node>>, r: nat, j: nat)
    requires j <= |lists|
    ensures |Picked(lists, r, j)| == GivenTotal(lists, r, j, |lists|)
    decreases r, j
  {
    if j > 0 {
      PickedCount(lists, r, j - 1);
      GivenTotalStep(lists, r, j, |lists|);
    } else if r > 0 {
      PickedCount(lists, r - 1, |lists|);
      GivenTotalRound(lists, r, |lists|);
    } else {
      GivenTotalZero(lists, |lists|);
    }
  }

  function TotalTo(lists: seq<seq<Node>>, k: nat): nat
    requires k <= |lists|
  {
    if k == 0 then 0 else TotalTo(lists, k - 1) + |lists[k - 1]|
  }

  lemma {:induction false} TotalToTail(lists: seq<seq<Node>>, k: nat)
    requires lists != [] && 0 < k <= |lists|
    ensures TotalTo(lists, k) == |lists[0]| + TotalTo(lists[1..], k - 1)
  {
    if k > 1 { TotalToTail(lists, k - 1); }
  }

  lemma {:induction false} TotalIsTotalTo(lists: seq<seq<Node>>)
    ensures Total(lists) == TotalTo(lists, |lists|)
  {
    if lists != [] {
      TotalIsTotalTo(lists[1..]);
      TotalToTail(lists, |lists|);
    }
  }

  lemma {:induction false} ExhaustedTotal(lists: seq<seq<Node>>, r: nat, k: nat)
    requires k <= |lists| && forall i :: 0 <= i < |lists| ==> |lists[i]| <= r
    ensures GivenTotal(lists, r, 0, k) == TotalTo(lists, k)
  {
    if k > 0 { ExhaustedTotal(lists, r, k - 1); }
  }

  /** While fewer than all nodes are picked, some bucket still has one for this round. */
  lemma {:induction false} RoundProgresses(lists: seq<seq<Node>>, r: nat)
    requires |IdsOf(Picked(lists, r, 0))| < Total(lists)
    ensures exists i :: 0 <= i < |lists| && r < |lists[i]|
  {
    if forall i :: 0 <= i < |lists| ==> |lists[i]| <= r {
      PickedCount(lists, r, 0);
      ExhaustedTotal(lists, r, |lists|);
      TotalIsTotalTo(lists);
    }
  }

  // ----- No id comes up twice

  predicate DistinctLists(lists: seq<seq<Node>>) {
    forall i, j, a, b | 0 <= i < |lists| && 0 <= j < |lists| && 0 <= a < |lists[i]| && 0 <= b < |lists[j]| ::
      lists[i][a].id == lists[j][b].id ==> i == j && a == b
  }

  lemma {:induction false} MembersDistinct(nodes: seq<Node>, key: string)
    requires DistinctIds(nodes)
    ensures DistinctIds(Members(nodes, key))
  {
    if nodes != [] {
      MembersDistinct(nodes[..|nodes| - 1], key);
      var front := Members(nodes[..|nodes| - 1], key);
      forall i | 0 <= i < |front| ensures front[i].id != nodes[|nodes| - 1].id { assert front[i] in front; }
    }
  }

  lemma {:induction false} AtMostOnce(s: seq<Node>, n: Node)
    requires DistinctIds(s)
    ensures multiset(s)[n] <= 1
  {
    if s != [] {
      var front, last := s[..|s| - 1], s[|s| - 1];
      assert s == front + [last];
      AtMostOnce(front, n);
      if n == last { assert n !in front; }
    }
  }

  /** Sorting keeps ids distinct. */
  lemma {:induction false} SortedDistinct(s: seq<Node>, r: seq<Node>)
    requires DistinctIds(s) && multiset(r) == multiset(s)
    ensures DistinctIds(r)
  {
    forall i, j | 0 <= i < j < |r| ensures r[i].id != r[j].id {
      assert r == r[..j] + r[j..];
      assert r[i] in r[..j] && r[j] in r[j..];
      assert r[i] == r[j] ==> multiset(r)[r[i]] >= 2;
      AtMostOnce(s, r[i]);
      assert r[i] in multiset(s) && r[j] in multiset(s);
      SameNode(s, r[i], r[j]);
    }
  }

  lemma {:induction false} SameNode(s: seq<Node>, a: Node, b: Node)
    requires DistinctIds(s) && a in s && b in s
    ensures a.id == b.id ==> a == b
  {
  }

  lemma {:induction false} ListsDistinct(nodes: seq<Node>)
    requires DistinctIds(nodes)
    ensures DistinctLists(Lists(nodes))
  {
    var lists: seq<seq<Node>>, keys := Lists(nodes), Keys(nodes);
    forall i, j, a, b | 0 <= i < |lists| && 0 <= j < |lists| && 0 <= a < |lists[i]| && 0 <= b < |lists[j]|
        && lists[i][a].id == lists[j][b].id
      ensures i == j && a == b
    {
      ListMember(nodes, i, a);
      ListMember(nodes, j, b);
      SameNode(nodes, lists[i][a], lists[j][b]);
      MembersDistinct(nodes, keys[i]);
      SortedDistinct(Members(nodes, keys[i]), lists[i]);
    }
  }

  lemma {:induction false} ListMember(nodes: seq<Node>, i: nat, a: nat)
    requires i < |Keys(nodes)| && a < |Lists(nodes)[i]|
    ensures Lists(nodes)[i][a] in nodes && Lists(nodes)[i][a].bucket == Keys(nodes)[i]
  {
    var m := Members(nodes, Keys(nodes)[i]);
    assert Lists(nodes)[i][a] in multiset(m);
  }

  lemma {:induction false} PickedFresh(lists: seq<seq<Node>>, r: nat, j: nat)
    requires DistinctLists(lists) && j < |lists| && r < |lists[j]|
    ensures lists[j][r].id !in IdsOf(Picked(lists, r, j))
  {
    var picked := Picked(lists, r, j);
    forall k | 0 <= k < |picked| ensures picked[k].id != lists[j][r].id {
      PickedIsPrefixes(lists, r, j, picked[k]);
      var i :| 0 <= i < |lists| && picked[k] in lists[i][..Given(lists, r, j, i)];
      var a :| 0 <= a < Given(lists, r, j, i) && lists[i][a] == picked[k];
    }
  }

  // ----- The program

  function MaxLength(lists: seq<seq<Node>>): (m: nat)
    ensures forall i :: 0 <= i < |lists| ==> |lists[i]| <= m
  {
    if lists == [] then 0
    else
      var m := MaxLength(lists[1..]);
      assert forall i :: 1 <= i < |lists| ==> lists[i] == lists[1..][i - 1];
      if |lists[0]| > m then |lists[0]| else m
  }

  lemma {:induction false} PickedStart(lists: seq<seq<Node>>)
    ensures IdsOf(Picked(lists, 0, 0)) == []
  {
  }

  lemma {:induction false} PickedStep(lists: seq<seq<Node>>, r: nat, j: nat)
    requires j < |lists|
    ensures IdsOf(Picked(lists, r, j + 1))
        == IdsOf(Picked(lists, r, j)) + (if r < |lists[j]| then [lists[j][r].id] else [])
  {
  }

  lemma {:induction false} PickedNextRound(lists: seq<seq<Node>>, r: nat)
    ensures Picked(lists, r + 1, 0) == Picked(lists, r, |lists|)
  {
  }

  /** The sampling loop. It stops when enough ids are chosen or a round adds none. */
  method Sample(lists: seq<seq<Node>>, limit: int) returns (ids: seq<string>, ghost round: nat, ghost turn: nat)
    ensures Distinct(ids) && |ids| <= (if limit < 0 then 0 else limit)
    ensures DistinctLists(lists) ==> turn <= |lists| && ids == IdsOf(Picked(lists, round, turn))
    ensures DistinctLists(lists) && 0 <= limit <= Total(lists) ==> |ids| == limit
  {
    hide Picked, IdsOf, DistinctLists;
    ids, round, turn := [], 0, 0;
    var index := 0;
    PickedStart(lists);
    while |ids| < limit
      invariant Distinct(ids) && |ids| <= (if limit < 0 then 0 else limit)
      invariant round == index && turn == 0
      invariant DistinctLists(lists) ==> ids == IdsOf(Picked(lists, round, 0))
      decreases MaxLength(lists) + 1 - index
    {
      var progressed := false;
      if DistinctLists(lists) && limit <= Total(lists) { RoundProgresses(lists, index); }
      ghost var start := |ids|;
      for j := 0 to |lists|
        invariant Distinct(ids) && start <= |ids| < limit
        invariant DistinctLists(lists) ==> ids == IdsOf(Picked(lists, index, j))
        invariant progressed ==> index < MaxLength(lists)
        invariant DistinctLists(lists) ==> (progressed <==> exists i :: 0 <= i < j && index < |lists[i]|)
      {
        PickedStep(lists, index, j);
        if index < |lists[j]| {
          var id := lists[j][index].id;
          if DistinctLists(lists) { PickedFresh(lists, index, j); }
          if id !in ids {
            ids := ids + [id];
            progressed := true;
            if |ids| >= limit {
              turn := j + 1;
              return;
            }
          }
        }
      }
      if !progressed {
        turn := |lists|;
        break;
      }
      PickedNextRound(lists, index);
      index := index + 1;
      round := index;
    }
  }

  // ----- The view

  function KeepNodes(nodes: seq<Node>, ids: set<string>): (out: seq<Node>)
    ensures forall n :: n in out <==> n in nodes && n.id in ids
  {
    if nodes == [] then []
    else KeepNodes(nodes[..|nodes| - 1], ids) + (if nodes[|nodes| - 1].id in ids then [nodes[|nodes| - 1]] else [])
  }

  function KeepTargets(links: seq<string>, ids: set<string>): (out: seq<string>)
    ensures forall t :: t in out <==> t in links && t in ids
  {
    if links == [] then [] else (if links[0] in ids then [links[0]] else []) + KeepTargets(links[1..], ids)
  }

  function FirstEight(links: seq<string>): seq<string> {
    if |links| <= 8 then links else links[..8]
  }

  function Compact(n: Node, ids: set<string>): Node {
    n.(links := FirstEight(KeepTargets(n.links, ids)), highways := FirstEight(KeepTargets(n.highways, ids)))
  }

  function KeepEdges(edges: seq<Edge>, ids: set<string>): (out: seq<Edge>)
    ensures forall e :: e in out <==> e in edges && e.source in ids && e.target in ids
  {
    if edges == [] then []
    else KeepEdges(edges[..|edges| - 1], ids)
         + (if edges[|edges| - 1].source in ids && edges[|edges| - 1].target in ids then [edges[|edges| - 1]] else [])
  }

  lemma {:induction false} KeptCount(nodes: seq<Node>, ids: set<string>)
    requires DistinctIds(nodes) && ids <= Ids(nodes)
    ensures |KeepNodes(nodes, ids)| == |ids|
  {
    if nodes == [] {
      assert ids == {};
    } else {
      var front, last := nodes[..|nodes| - 1], nodes[|nodes| - 1];
      var rest := ids - {last.id};
      assert nodes == front + [last];
      assert rest <= Ids(front);
      KeptCount(front, rest);
      KeptSame(front, ids, last.id);
    }
  }

  lemma {:induction false} KeptSame(nodes: seq<Node>, ids: set<string>, id: string)
    requires forall i :: 0 <= i < |nodes| ==> nodes[i].id != id
    ensures KeepNodes(nodes, ids) == KeepNodes(nodes, ids - {id})
  {
    if nodes != [] { KeptSame(nodes[..|nodes| - 1], ids, id); }
  }

  lemma {:induction false} KeptAgain(nodes: seq<Node>, ids: set<string>, kept: set<string>)
    requires forall n :: n in nodes ==> (n.id in ids <==> n.id in kept)
    ensures KeepNodes(nodes, ids) == KeepNodes(nodes, kept)
  {
    if nodes != [] {
      assert nodes[|nodes| - 1] in nodes;
      KeptAgain(nodes[..|nodes| - 1], ids, kept);
    }
  }

  /** Nothing in the view points outside it. */
  predicate Closed(v: View) {
    && (forall e :: e in v.edges ==> e.source in Ids(v.nodes) && e.target in Ids(v.nodes))
    && (forall n, t :: n in v.nodes && t in n.links ==> t in Ids(v.nodes))
    && (forall n, t :: n in v.nodes && t in n.highways ==> t in Ids(v.nodes))
    && (forall n :: n in v.nodes ==> |n.links| <= 8 && |n.highways| <= 8)
  }

  /** The view over a choice of ids. */
  method Project(nodes: seq<Node>, edges: seq<Edge>, selected: seq<Node>) returns (v: View)
    ensures |v.nodes| == |selected| && forall i :: 0 <= i < |selected| ==>
        v.nodes[i] == Compact(selected[i], Ids(selected))
    ensures v.edges == KeepEdges(edges, Ids(selected))
    ensures Ids(v.nodes) == Ids(selected) && Closed(v)
  {
    var visible := set n | n in selected :: n.id;
    var compact: seq<Node> := [];
    for i := 0 to |selected|
      invariant |compact| == i && forall k :: 0 <= k < i ==> compact[k] == Compact(selected[k], visible)
    {
      compact := compact + [Compact(selected[i], visible)];
    }
    var kept: seq<Edge> := [];
    for i := 0 to |edges|
      invariant kept == KeepEdges(edges[..i], visible)
    {
      assert edges[..i + 1][..i] == edges[..i];
      if edges[i].source in visible && edges[i].target in visible {
        kept := kept + [edges[i]];
      }
    }
    assert edges[..|edges|] == edges;
    v := View(compact, kept);
    forall id ensures id in Ids(v.nodes) <==> id in Ids(selected) {
      if id in Ids(selected) {
        var n :| n in selected && n.id == id;
        var i :| 0 <= i < |selected| && selected[i] == n;
        assert compact[i] in compact && compact[i].id == id;
      }
      if id in Ids(v.nodes) {
        var n :| n in compact && n.id == id;
        var i :| 0 <= i < |compact| && compact[i] == n;
        assert selected[i] in selected;
      }
    }
    ProjectClosed(v, selected, edges);
  }

  lemma {:induction false} ProjectClosed(v: View, selected: seq<Node>, edges: seq<Edge>)
    requires |v.nodes| == |selected| && forall i :: 0 <= i < |selected| ==>
        v.nodes[i] == Compact(selected[i], Ids(selected))
    requires v.edges == KeepEdges(edges, Ids(selected)) && Ids(v.nodes) == Ids(selected)
    ensures Closed(v)
  {
    hide Compact;
    forall n | n in v.nodes
      ensures |n.links| <= 8 && |n.highways| <= 8
      ensures forall t :: t in n.links || t in n.highways ==> t in Ids(v.nodes)
    {
      var i :| 0 <= i < |v.nodes| && v.nodes[i] == n;
      CompactStaysInside(selected[i], Ids(selected));
    }
  }

  lemma {:induction false} CompactStaysInside(n: Node, ids: set<string>)
    ensures var c := Compact(n, ids);
            |c.links| <= 8 && |c.highways| <= 8 && forall t :: t in c.links || t in c.highways ==> t in ids
  {
    assert forall t :: t in FirstEight(KeepTargets(n.links, ids)) ==> t in KeepTargets(n.links, ids);
    assert forall t :: t in FirstEight(KeepTargets(n.highways, ids)) ==> t in KeepTargets(n.highways, ids);
  }

  /** `build_graph_view`. A graph within the limit is shown whole. Otherwise, when node ids
      are distinct, exactly `limit` nodes are shown: those the round-robin picks. Either way
      the view is closed and shows every edge between its nodes. */
  method BuildGraphView(nodes: seq<Node>, edges: seq<Edge>, limit: int)
      returns (v: View, ghost round: nat, ghost turn: nat)
    ensures Closed(v)
    ensures v.edges == KeepEdges(edges, Ids(v.nodes))
    ensures var shown := if |nodes| <= limit then nodes else KeepNodes(nodes, Ids(v.nodes));
            |v.nodes| == |shown| && forall i :: 0 <= i < |shown| ==> v.nodes[i] == Compact(shown[i], Ids(v.nodes))
    ensures |nodes| <= limit ==> Ids(v.nodes) == Ids(nodes)
    ensures |nodes| > limit && DistinctIds(nodes) ==>
              && |v.nodes| == (if limit < 0 then 0 else limit)
              && turn <= |Lists(nodes)|
              && Ids(v.nodes) == Ids(Picked(Lists(nodes), round, turn))
    ensures |nodes| > limit && DistinctIds(nodes) ==> FairlyShown(nodes, v)
  {
    hide Compact, KeepEdges, KeepNodes, Picked, Lists, FairlyShown, Closed, Ids, DistinctIds;
    var selected;
    selected, round, turn := SelectNodes(nodes, limit);
    v := Project(nodes, edges, selected);
    if |nodes| > limit && DistinctIds(nodes) { ViewIsFair(nodes, v, round, turn); }
  }

  method SelectNodes(nodes: seq<Node>, limit: int) returns (selected: seq<Node>, ghost round: nat, ghost turn: nat)
    ensures selected == if |nodes| <= limit then nodes else KeepNodes(nodes, Ids(selected))
    ensures |nodes| > limit && DistinctIds(nodes) ==>
              && |selected| == (if limit < 0 then 0 else limit)
              && turn <= |Lists(nodes)|
              && Ids(selected) == Ids(Picked(Lists(nodes), round, turn))
  {
    round, turn := 0, 0;
    selected := nodes;
    if |nodes| > limit {
      var lists := Lists(nodes);
      var ids;
      ids, round, turn := Sample(lists, limit);
      var chosen := set id | id in ids;
      selected := KeepNodes(nodes, chosen);
      KeptAgain(nodes, chosen, Ids(selected));
      if DistinctIds(nodes) { SampleShown(nodes, ids, chosen, limit, round, turn); }
    }
  }

  /** Two buckets show numbers of nodes that differ by more than one only if the bucket that
      shows fewer shows all it has. */
  ghost predicate FairlyShown(nodes: seq<Node>, v: View) {
    forall a: string, b: string ::
      |Members(v.nodes, a)| + 1 < |Members(v.nodes, b)| ==> |Members(v.nodes, a)| == |Members(nodes, a)|
  }

  lemma {:induction false} KeptDistinct(nodes: seq<Node>, ids: set<string>)
    requires DistinctIds(nodes)
    ensures DistinctIds(KeepNodes(nodes, ids))
  {
    if nodes != [] {
      var n := |nodes| - 1;
      KeptDistinct(nodes[..n], ids);
      var front := KeepNodes(nodes[..n], ids);
      forall i | 0 <= i < |front| ensures front[i].id != nodes[n].id { assert front[i] in front; }
    }
  }

  lemma {:induction false} SameBuckets(a: seq<Node>, b: seq<Node>, key: string)
    requires |a| == |b| && forall i :: 0 <= i < |a| ==> a[i].bucket == b[i].bucket
    ensures |Members(a, key)| == |Members(b, key)|
  {
    if a != [] { SameBuckets(a[..|a| - 1], b[..|b| - 1], key); }
  }

  lemma {:induction false} SameItemsSameSize(a: seq<Node>, b: seq<Node>)
    requires DistinctIds(a) && DistinctIds(b) && forall n :: n in a <==> n in b
    ensures |a| == |b|
  {
    var all := set n | n in a;
    DistinctSize(a, all);
    DistinctSize(b, all);
  }

  /** A kept node is in its bucket's list among those the bucket has given. */
  lemma {:induction false} KeptIsGiven(nodes: seq<Node>, ids: set<string>, round: nat, turn: nat, i: nat, n: Node)
    requires DistinctIds(nodes) && turn <= |Lists(nodes)| && i < |Lists(nodes)|
    requires ids == Ids(Picked(Lists(nodes), round, turn))
    ensures n in Members(KeepNodes(nodes, ids), Keys(nodes)[i])
       <==> n in Lists(nodes)[i][..Given(Lists(nodes), round, turn, i)]
  {
    hide Picked, Lists, Keys, DistinctIds, Given;
    PickedInNodes(nodes, round, turn);
    if n in Lists(nodes)[i][..Given(Lists(nodes), round, turn, i)] {
      GivenIsKept(nodes, ids, round, turn, i, n);
    } else if n in nodes && n.id in ids && n.bucket == Keys(nodes)[i] {
      var p :| p in Picked(Lists(nodes), round, turn) && p.id == n.id;
      SameNode(nodes, p, n);
      PickedIsGiven(nodes, round, turn, i, n);
    }
  }

  lemma {:induction false} GivenIsKept(nodes: seq<Node>, ids: set<string>, round: nat, turn: nat, i: nat, n: Node)
    requires turn <= |Lists(nodes)| && i < |Lists(nodes)|
    requires ids == Ids(Picked(Lists(nodes), round, turn))
    requires n in Lists(nodes)[i][..Given(Lists(nodes), round, turn, i)]
    ensures n in Members(KeepNodes(nodes, ids), Keys(nodes)[i])
  {
    hide Picked, Lists, Keys, Given;
    PickedIsPrefixes(Lists(nodes), round, turn, n);
    InPrefix(nodes, i, Given(Lists(nodes), round, turn, i), n);
  }

  lemma {:induction false} PickedIsGiven(nodes: seq<Node>, round: nat, turn: nat, i: nat, n: Node)
    requires turn <= |Lists(nodes)| && i < |Lists(nodes)|
    requires n in Picked(Lists(nodes), round, turn) && n.bucket == Keys(nodes)[i]
    ensures n in Lists(nodes)[i][..Given(Lists(nodes), round, turn, i)]
  {
    hide Picked, Lists, Keys, Given;
    PickedIsPrefixes(Lists(nodes), round, turn, n);
    var j :| 0 <= j < |Lists(nodes)| && n in Lists(nodes)[j][..Given(Lists(nodes), round, turn, j)];
    InPrefix(nodes, j, Given(Lists(nodes), round, turn, j), n);
    assert j == i;
  }

  lemma {:induction false} InPrefix(nodes: seq<Node>, j: nat, g: nat, n: Node)
    requires j < |Lists(nodes)| && g <= |Lists(nodes)[j]| && n in Lists(nodes)[j][..g]
    ensures n in nodes && n.bucket == Keys(nodes)[j]
  {
    hide Lists, Keys;
    var a :| 0 <= a < g && Lists(nodes)[j][a] == n;
    ListMember(nodes, j, a);
  }

  lemma {:induction false} ShownInBucket(nodes: seq<Node>, ids: set<string>, round: nat, turn: nat, i: nat)
    requires DistinctIds(nodes) && turn <= |Lists(nodes)| && i < |Lists(nodes)|
    requires ids == Ids(Picked(Lists(nodes), round, turn))
    ensures |Members(KeepNodes(nodes, ids), Keys(nodes)[i])| == Given(Lists(nodes), round, turn, i)
    ensures |Lists(nodes)[i]| == |Members(nodes, Keys(nodes)[i])|
  {
    hide Picked, Given;
    var key, list, g := Keys(nodes)[i], Lists(nodes)[i], Given(Lists(nodes), round, turn, i);
    KeptDistinct(nodes, ids);
    MembersDistinct(KeepNodes(nodes, ids), key);
    MembersDistinct(nodes, key);
    SortedDistinct(Members(nodes, key), list);
    forall n ensures n in Members(KeepNodes(nodes, ids), key) <==> n in list[..g] {
      KeptIsGiven(nodes, ids, round, turn, i, n);
    }
    SameItemsSameSize(Members(KeepNodes(nodes, ids), key), list[..g]);
  }

  lemma {:induction false} ViewIsFair(nodes: seq<Node>, v: View, round: nat, turn: nat)
    requires DistinctIds(nodes) && turn <= |Lists(nodes)| && Ids(v.nodes) == Ids(Picked(Lists(nodes), round, turn))
    requires var shown := KeepNodes(nodes, Ids(v.nodes));
             |v.nodes| == |shown| && forall i :: 0 <= i < |shown| ==> v.nodes[i] == Compact(shown[i], Ids(v.nodes))
    ensures FairlyShown(nodes, v)
  {
    hide Picked, Lists, Keys, DistinctIds, KeepNodes, Given, Members;
    var shown := KeepNodes(nodes, Ids(v.nodes));
    forall a: string, b: string | |Members(v.nodes, a)| + 1 < |Members(v.nodes, b)|
      ensures |Members(v.nodes, a)| == |Members(nodes, a)|
    {
      SameBuckets(v.nodes, shown, a);
      SameBuckets(v.nodes, shown, b);
      KeptIsFair(nodes, Ids(v.nodes), round, turn, a, b);
    }
  }

  lemma {:induction false} KeptIsFair(nodes: seq<Node>, ids: set<string>, round: nat, turn: nat, a: string, b: string)
    requires DistinctIds(nodes) && turn <= |Lists(nodes)| && ids == Ids(Picked(Lists(nodes), round, turn))
    requires |Members(KeepNodes(nodes, ids), a)| + 1 < |Members(KeepNodes(nodes, ids), b)|
    ensures |Members(KeepNodes(nodes, ids), a)| == |Members(nodes, a)|
  {
    hide Picked, Lists, DistinctIds, Given, Members;
    var shown, keys := KeepNodes(nodes, ids), Keys(nodes);
    var j := BucketOf(nodes, shown, b);
    ShownInBucket(nodes, ids, round, turn, j);
    if a in keys {
      var i: nat :| i < |keys| && keys[i] == a;
      ShownInBucket(nodes, ids, round, turn, i);
      Fair(Lists(nodes), round, turn, i, j);
    } else {
      NoMembers(nodes, a);
      NoMembers(shown, a);
    }
  }

  lemma {:induction false} BucketOf(nodes: seq<Node>, shown: seq<Node>, key: string) returns (i: nat)
    requires Members(shown, key) != [] && forall n :: n in shown ==> n in nodes
    ensures i < |Keys(nodes)| && Keys(nodes)[i] == key
  {
    var n := Members(shown, key)[0];
    assert n in Members(shown, key);
    var k :| 0 <= k < |nodes| && nodes[k] == n;
    assert key in Keys(nodes);
    i :| i < |Keys(nodes)| && Keys(nodes)[i] == key;
  }

  lemma {:induction false} SampleShown(nodes: seq<Node>, ids: seq<string>, chosen: set<string>, limit: int, round: nat,
      turn: nat)
    requires DistinctIds(nodes) && limit < |nodes| && Distinct(ids) && chosen == (set id | id in ids)
    requires |ids| <= (if limit < 0 then 0 else limit)
    requires DistinctLists(Lists(nodes)) ==> turn <= |Lists(nodes)| && ids == IdsOf(Picked(Lists(nodes), round, turn))
    requires DistinctLists(Lists(nodes)) && 0 <= limit <= Total(Lists(nodes)) ==> |ids| == limit
    ensures turn <= |Lists(nodes)|
    ensures |KeepNodes(nodes, chosen)| == (if limit < 0 then 0 else limit)
    ensures Ids(KeepNodes(nodes, chosen)) == Ids(Picked(Lists(nodes), round, turn))
  {
    hide Picked, DistinctLists, Lists, Keys, KeepNodes, DistinctIds, Distinct;
    var lists := Lists(nodes);
    ListsDistinct(nodes);
    ListsShape(nodes);
    BucketsCoverNodes(nodes);
    ListsTotal(nodes, Keys(nodes), lists);
    var picked := Picked(lists, round, turn);
    PickedInNodes(nodes, round, turn);
    IdsOfIds(picked);
    assert chosen == Ids(picked) <= Ids(nodes);
    KeptCount(nodes, chosen);
    DistinctSize(ids, chosen);
    KeptIds(nodes, chosen);
  }

  lemma {:induction false} ListsShape(nodes: seq<Node>)
    ensures |Lists(nodes)| == |Keys(nodes)|
    ensures forall i :: 0 <= i < |Lists(nodes)| ==> Lists(nodes)[i] == Sorted(Members(nodes, Keys(nodes)[i]))
  {
  }

  lemma {:induction false} IdsOfIds(picked: seq<Node>)
    ensures Ids(picked) == set id | id in IdsOf(picked)
  {
    var ids := IdsOf(picked);
    forall id ensures id in ids <==> id in Ids(picked) {
      if id in ids {
        var k :| 0 <= k < |ids| && ids[k] == id;
        assert picked[k] in picked;
      }
      if id in Ids(picked) {
        var n :| n in picked && n.id == id;
        var k :| 0 <= k < |picked| && picked[k] == n;
        assert ids[k] == id;
      }
    }
  }

  lemma {:induction false} KeptIds(nodes: seq<Node>, ids: set<string>)
    requires ids <= Ids(nodes)
    ensures Ids(KeepNodes(nodes, ids)) == ids
  {
    forall id | id in ids ensures id in Ids(KeepNodes(nodes, ids)) {
      var n :| n in nodes && n.id == id;
      assert n in KeepNodes(nodes, ids);
    }
  }

  lemma {:induction false} PickedInNodes(nodes: seq<Node>, r: nat, j: nat)
    requires j <= |Lists(nodes)|
    ensures forall n :: n in Picked(Lists(nodes), r, j) ==> n in nodes
  {
    var lists := Lists(nodes);
    forall n | n in Picked(lists, r, j) ensures n in nodes {
      PickedIsPrefixes(lists, r, j, n);
      var i :| 0 <= i < |lists| && n in lists[i][..Given(lists, r, j, i)];
      var a :| 0 <= a < Given(lists, r, j, i) && lists[i][a] == n;
      ListMember(nodes, i, a);
    }
  }

  /** What a bucket contributes are its highest-priority nodes. */
  lemma {:induction false} ContributionIsTop(nodes: seq<Node>, r: nat, j: nat, i: nat, a: nat, b: nat)
    requires j <= |Lists(nodes)| && i < |Lists(nodes)|
    requires a < Given(Lists(nodes), r, j, i) <= b < |Lists(nodes)[i]|
    ensures !Less(Lists(nodes)[i][a], Lists(nodes)[i][b])
  {
    SortedDescending(Members(nodes, Keys(nodes)[i]));
  }
}
