/** Ordering document evidence: greedy coverage diversification and the bridge protection. */
module EvidenceLane {
  import opened StringOrder
  import opened DistinctItems

  datatype Relation = Primary | Supporting | NearMiss | Related | Background | Excluded

  /** A scored candidate. `coverage` are the target terms it covers; signals are at least 0. */
  datatype Row = Row(
    title: string, score: real, matchedRatio: real, relation: Relation,
    coverage: set<string>, rankSignal: real, focus: real, idf: real, bridge: real)

  /** The target terms with their base weight, and the terms counted as strong. */
  datatype Terms = Terms(all: seq<string>, weight: map<string, real>, strong: set<string>)

  predicate WellFormedTerms(t: Terms) {
    && (forall i :: 0 <= i < |t.all| ==> t.all[i] in t.weight && t.weight[t.all[i]] > 0.0)
    && (forall i, j :: 0 <= i < j < |t.all| ==> t.all[i] != t.all[j])
  }

  predicate Ranged(rows: seq<Row>) {
    forall i :: 0 <= i < |rows| ==>
        rows[i].score >= 0.0 && rows[i].rankSignal >= 0.0 && rows[i].focus >= 0.0 && rows[i].idf >= 0.0
  }

  // ----- The selection score

  function Frequency(rows: seq<Row>, term: string): nat {
    if rows == [] then 0 else (if term in rows[0].coverage then 1 else 0) + Frequency(rows[1..], term)
  }

  /** Rarer terms weigh more: base * (1 + 1 / max(1, frequency)). */
  function TermWeight(rows: seq<Row>, t: Terms, term: string): real {
    if term !in t.weight then 0.0
    else
      var f := Frequency(rows, term);
      t.weight[term] * (1.0 + 1.0 / (if f < 1 then 1.0 else f as real))
  }

  function WeightOf(rows: seq<Row>, t: Terms, terms: seq<string>, among: set<string>): real {
    if terms == [] then 0.0
    else (if terms[0] in among then TermWeight(rows, t, terms[0]) else 0.0) + WeightOf(rows, t, terms[1..], among)
  }

  function TotalWeight(rows: seq<Row>, t: Terms): real {
    var total := WeightOf(rows, t, t.all, set x | x in t.all);
    if total == 0.0 then 1.0 else total
  }

  function Share(weight: real, total: real): real
    requires total != 0.0
  {
    weight / total
  }

  function RelationBonus(r: Relation): real {
    match r case Primary => 0.05 case Supporting => 0.035 case NearMiss => 0.015 case _ => 0.0
  }

  function StrongBonus(count: nat): real {
    if 0.12 * (count as real) < 0.24 then 0.12 * (count as real) else 0.24
  }

  function SelectionScore(rows: seq<Row>, t: Terms, i: nat, covered: set<string>): real
    requires i < |rows|
  {
    var row := rows[i];
    var total := TotalWeight(rows, t);
    var gain := Share(WeightOf(rows, t, t.all, row.coverage - covered), total);
    var quality := Share(WeightOf(rows, t, t.all, row.coverage), total);
    0.45 * row.score + 0.38 * gain + 0.08 * quality + 0.07 * row.rankSignal + 0.14 * row.focus + 0.05 * row.idf
    + StrongBonus(|(row.coverage - covered) * t.strong|) + RelationBonus(row.relation)
  }

  lemma {:induction false} TermWeightPositive(rows: seq<Row>, t: Terms, term: string)
    requires term in t.weight ==> t.weight[term] > 0.0
    ensures TermWeight(rows, t, term) >= 0.0
  {
    if term in t.weight {
      var f := Frequency(rows, term);
      var n := if f < 1 then 1.0 else f as real;
      assert 1.0 / n > 0.0;
    }
  }

  lemma {:induction false} WeightNonNegative(rows: seq<Row>, t: Terms, terms: seq<string>, among: set<string>)
    requires forall i :: 0 <= i < |terms| ==> terms[i] in t.weight ==> t.weight[terms[i]] > 0.0
    ensures WeightOf(rows, t, terms, among) >= 0.0
  {
    if terms != [] {
      TermWeightPositive(rows, t, terms[0]);
      WeightNonNegative(rows, t, terms[1..], among);
    }
  }

  lemma {:induction false} ShareNonNegative(weight: real, total: real)
    requires weight >= 0.0 && total > 0.0
    ensures Share(weight, total) >= 0.0
  {
    var q := weight / total;
    assert q * total == weight;
    assert q < 0.0 ==> q * total < 0.0;
  }

  /** Scores are never negative, so the search always finds a row. */
  lemma {:induction false} ScoreNonNegative(rows: seq<Row>, t: Terms, i: nat, covered: set<string>)
    requires WellFormedTerms(t) && Ranged(rows) && i < |rows|
    ensures SelectionScore(rows, t, i, covered) >= 0.0
  {
    WeightNonNegative(rows, t, t.all, set x | x in t.all);
    WeightNonNegative(rows, t, t.all, rows[i].coverage - covered);
    WeightNonNegative(rows, t, t.all, rows[i].coverage);
    ShareNonNegative(WeightOf(rows, t, t.all, rows[i].coverage - covered), TotalWeight(rows, t));
    ShareNonNegative(WeightOf(rows, t, t.all, rows[i].coverage), TotalWeight(rows, t));
  }

  // ----- The greedy order

  function Covered(rows: seq<Row>, chosen: seq<nat>): set<string>
    requires forall k :: 0 <= k < |chosen| ==> chosen[k] < |rows|
  {
    if chosen == [] then {} else Covered(rows, chosen[..|chosen| - 1]) + rows[chosen[|chosen| - 1]].coverage
  }

  predicate Indices(chosen: seq<nat>, n: nat) {
    && (forall k :: 0 <= k < |chosen| ==> chosen[k] < n)
    && (forall j, k :: 0 <= j < k < |chosen| ==> chosen[j] != chosen[k])
  }

  /** `i` scores highest among the rows not chosen yet, and is the first to. */
  ghost predicate EarliestBest(rows: seq<Row>, t: Terms, chosen: seq<nat>, i: nat)
    requires Indices(chosen, |rows|)
  {
    && i < |rows| && i !in chosen
    && var covered := Covered(rows, chosen);
       forall j: nat :: j < |rows| && j !in chosen ==>
         SelectionScore(rows, t, j, covered) < SelectionScore(rows, t, i, covered)
         || (SelectionScore(rows, t, j, covered) == SelectionScore(rows, t, i, covered) && i <= j)
  }

  /** Row 0 first, then always the earliest best. */
  ghost predicate Greedy(rows: seq<Row>, t: Terms, order: seq<nat>) {
    && Indices(order, |rows|)
    && (order != [] ==> order[0] == 0)
    && forall k {:trigger order[k]} :: 1 <= k < |order| ==> EarliestBest(rows, t, order[..k], order[k])
  }

  lemma {:induction false} BestUnique(rows: seq<Row>, t: Terms, chosen: seq<nat>, i: nat, j: nat)
    requires Indices(chosen, |rows|) && EarliestBest(rows, t, chosen, i) && EarliestBest(rows, t, chosen, j)
    ensures i == j
  {
    hide SelectionScore;
    hide Covered;
  }

  /** The greedy order is unique: any two of the same length are the same. */
  lemma {:induction false} GreedyUnique(rows: seq<Row>, t: Terms, a: seq<nat>, b: seq<nat>)
    requires Greedy(rows, t, a) && Greedy(rows, t, b) && |a| == |b|
    ensures a == b
  {
    hide EarliestBest;
    if |a| > 1 {
      var n := |a| - 1;
      GreedyPrefix(rows, t, a);
      GreedyPrefix(rows, t, b);
      GreedyUnique(rows, t, a[..n], b[..n]);
      BestUnique(rows, t, a[..n], a[n], b[n]);
      assert a == a[..n] + [a[n]] && b == b[..n] + [b[n]];
    }
  }

  lemma {:induction false} GreedyPrefix(rows: seq<Row>, t: Terms, a: seq<nat>)
    requires Greedy(rows, t, a) && |a| > 0
    ensures Greedy(rows, t, a[..|a| - 1])
  {
    var p := a[..|a| - 1];
    forall k {:trigger p[k]} | 1 <= k < |p| ensures EarliestBest(rows, t, p[..k], p[k]) {
      assert p[..k] == a[..k] && p[k] == a[k];
    }
  }

  function Pick(rows: seq<Row>, order: seq<nat>): (out: seq<Row>)
    requires forall k :: 0 <= k < |order| ==> order[k] < |rows|
    ensures |out| == |order| && forall k :: 0 <= k < |order| ==> out[k] == rows[order[k]]
  {
    seq(|order|, k requires 0 <= k < |order| => rows[order[k]])
  }

  function Below(n: nat): (all: set<nat>)
    ensures |all| == n && forall i: nat :: i in all <==> i < n
  {
    if n == 0 then {} else Below(n - 1) + {n - 1}
  }

  lemma {:induction false} FullIndices(order: seq<nat>, n: nat)
    requires Indices(order, n)
    ensures |order| <= n
    ensures |order| == n <==> forall i: nat :: i < n ==> i in order
  {
    var used := set k | 0 <= k < |order| :: order[k];
    DistinctSize(order, used);
    Subset(used, Below(n));
    assert forall i: nat :: i in used <==> i in order;
    if forall i: nat :: i < n ==> i in order {
      Subset(Below(n), used);
    }
  }

  lemma {:induction false} Subset<T>(a: set<T>, b: set<T>)
    requires a <= b
    ensures |a| <= |b| && (|a| == |b| ==> a == b)
  {
    assert b == a + (b - a);
  }

  function Without(order: seq<nat>, p: nat): (rest: seq<nat>)
    requires p < |order|
    ensures |rest| == |order| - 1
    ensures forall k :: 0 <= k < |rest| ==> rest[k] == order[if k < p then k else k + 1]
  {
    order[..p] + order[p + 1..]
  }

  /** Picking every index once permutes the rows. */
  lemma {:induction false} PickPermutes(rows: seq<Row>, order: seq<nat>)
    requires Indices(order, |rows|) && |order| == |rows|
    ensures multiset(Pick(rows, order)) == multiset(rows)
  {
    if rows != [] {
      var n := |rows| - 1;
      var p := IndexOf(order, |rows|, n);
      hide Without, Pick;
      PickPermutes(rows[..n], Without(order, p));
      PickSplit(rows, order, p);
      assert rows == rows[..n] + [rows[n]];
    }
  }

  lemma {:induction false} IndexOf(order: seq<nat>, n: nat, i: nat) returns (p: nat)
    requires Indices(order, n) && |order| == n && i < n
    ensures p < |order| && order[p] == i
  {
    FullIndices(order, n);
    assert i in order;
    p :| p < |order| && order[p] == i;
  }

  lemma {:induction false} PickSplit(rows: seq<Row>, order: seq<nat>, p: nat)
    requires rows != [] && p < |order| && order[p] == |rows| - 1
    requires forall k :: 0 <= k < |order| ==> order[k] < |rows| && (k != p ==> order[k] < |rows| - 1)
    ensures multiset(Pick(rows, order))
        == multiset(Pick(rows[..|rows| - 1], Without(order, p))) + multiset{rows[|rows| - 1]}
  {
    var n := |rows| - 1;
    var out, rest := Pick(rows, order), Pick(rows[..n], Without(order, p));
    assert rest == out[..p] + out[p + 1..];
    assert out == out[..p] + [rows[n]] + out[p + 1..];
  }

  // ----- The program

  method FindBest(rows: seq<Row>, t: Terms, chosen: seq<nat>) returns (best: nat)
    requires WellFormedTerms(t) && Ranged(rows) && Indices(chosen, |rows|) && |chosen| < |rows|
    ensures EarliestBest(rows, t, chosen, best)
  {
    var covered := Covered(rows, chosen);
    var found := false;
    var bestScore := -1.0;
    best := 0;
    for i := 0 to |rows|
      invariant found <==> exists j: nat :: j < i && j !in chosen
      invariant !found ==> bestScore == -1.0
      invariant found ==> best < i && best !in chosen && bestScore == SelectionScore(rows, t, best, covered)
      invariant found ==> forall j: nat :: j < i && j !in chosen ==>
          SelectionScore(rows, t, j, covered) < bestScore
              || (SelectionScore(rows, t, j, covered) == bestScore && best <= j)
    {
      if i !in chosen {
        var score := SelectionScore(rows, t, i, covered);
        ScoreNonNegative(rows, t, i, covered);
        if score > bestScore {
          best, bestScore, found := i, score, true;
        }
      }
    }
    if !found {
      FullIndices(chosen, |rows|);
    }
  }

  /** `_diversify_document_evidence_rows`: the output is the rows in the one greedy order, all
      of them, with the first row kept first. */
  method Diversify(rows: seq<Row>, t: Terms) returns (out: seq<Row>, ghost order: seq<nat>)
    requires WellFormedTerms(t) && Ranged(rows)
    ensures Indices(order, |rows|) && |order| == |rows| && out == Pick(rows, order)
    ensures multiset(out) == multiset(rows)
    ensures rows != [] ==> out[0] == rows[0]
    ensures if |rows| <= 2 || t.all == [] then out == rows else Greedy(rows, t, order)
  {
    order := seq(|rows|, i requires 0 <= i < |rows| => i);
    if |rows| <= 2 || t.all == [] {
      out := rows;
      PickPermutes(rows, order);
      return;
    }
    var chosen: seq<nat> := [0];
    out := [rows[0]];
    while |out| < |rows|
      invariant 1 <= |chosen| == |out| <= |rows|
      invariant Greedy(rows, t, chosen) && out == Pick(rows, chosen)
      decreases |rows| - |out|
    {
      var best := FindBest(rows, t, chosen);
      GreedyExtends(rows, t, chosen, best);
      out := out + [rows[best]];
      chosen := chosen + [best];
    }
    order := chosen;
    PickPermutes(rows, order);
  }

  lemma {:induction false} GreedyExtends(rows: seq<Row>, t: Terms, chosen: seq<nat>, best: nat)
    requires Greedy(rows, t, chosen) && chosen != [] && EarliestBest(rows, t, chosen, best)
    ensures Greedy(rows, t, chosen + [best])
  {
    var order := chosen + [best];
    forall k {:trigger order[k]} | 1 <= k < |order| ensures EarliestBest(rows, t, order[..k], order[k]) {
      if k < |chosen| {
        assert order[..k] == chosen[..k] && order[k] == chosen[k];
      } else {
        assert order[..k] == chosen;
      }
    }
  }

  // ----- Keeping one central bridge row visible

  predicate IsBridge(row: Row) { row.bridge >= 1.0 }

  predicate Eligible(row: Row) { IsBridge(row) && row.relation != Excluded }

  /** The keys compared lexicographically: bridge score, rank signal, score, title. */
  predicate Outranked(a: Row, b: Row) {
    if a.bridge != b.bridge then a.bridge < b.bridge
    else if a.rankSignal != b.rankSignal then a.rankSignal < b.rankSignal
    else if a.score != b.score then a.score < b.score
    else StringLess(a.title, b.title)
  }

  /** Row `i` is the earliest of the highest-ranked eligible rows outside the visible prefix. */
  ghost predicate BestHidden(rows: seq<Row>, limit: nat, i: nat) {
    && limit <= i < |rows| && Eligible(rows[i])
    && forall j :: limit <= j < |rows| && Eligible(rows[j]) ==>
         !Outranked(rows[i], rows[j]) && (j < i ==> Outranked(rows[j], rows[i]))
  }

  /** Row `i` moved up to position `at`, everything else left in its order. */
  function Lifted(rows: seq<Row>, i: nat, at: nat): (out: seq<Row>)
    requires at <= i < |rows|
  {
    rows[..at] + [rows[i]] + rows[at..i] + rows[i + 1..]
  }

  function Slot(limit: nat): nat { if limit < 2 then 1 else limit - 1 }

  ghost predicate ShowsBridge(rows: seq<Row>, limit: nat) {
    exists i :: 0 <= i < |rows| && i < limit && IsBridge(rows[i])
  }

  ghost predicate HidesEligible(rows: seq<Row>, limit: nat) {
    exists i :: limit <= i < |rows| && Eligible(rows[i])
  }

  /** What `_protect_central_bridge_row` returns, without saying how it searches. */
  ghost predicate Protected(rows: seq<Row>, limit: nat, out: seq<Row>) {
    if limit == 0 || ShowsBridge(rows, limit) || !HidesEligible(rows, limit) then out == rows
    else exists i: nat :: BestHidden(rows, limit, i) && out == Lifted(rows, i, Slot(limit))
  }

  /** The specification leaves no choice. */
  lemma {:induction false} ProtectedIsUnique(rows: seq<Row>, limit: nat, a: seq<Row>, b: seq<Row>)
    requires Protected(rows, limit, a) && Protected(rows, limit, b)
    ensures a == b
  {
    hide Outranked;
    hide Lifted;
  }

  lemma {:induction false} BetterTakesOver(rows: seq<Row>, limit: nat, best: nat, i: nat, found: bool)
    requires limit <= i < |rows| && Eligible(rows[i])
    requires if found then BestHidden(rows[..i], limit, best) && Outranked(rows[best], rows[i])
             else forall j :: limit <= j < i ==> !Eligible(rows[j])
    ensures BestHidden(rows[..i + 1], limit, i)
  {
    forall j | limit <= j < i && Eligible(rows[j]) ensures Outranked(rows[j], rows[i]) && !Outranked(rows[i], rows[j]) {
      assert rows[..i][j] == rows[j] && rows[..i][best] == rows[best];
      OutrankedIsOrder(rows[j], rows[best], rows[i]);
    }
    OutrankedIsOrder(rows[i], rows[i], rows[i]);
  }

  lemma {:induction false} OutrankedIsOrder(a: Row, b: Row, c: Row)
    ensures !Outranked(a, a)
    ensures Outranked(b, c) && !Outranked(b, a) ==> Outranked(a, c) && !Outranked(c, a)
  {
    if StringLess(a.title, a.title) { StringLessAsymmetric(a.title, a.title); }
    if StringLess(b.title, c.title) { StringLessNegativelyTransitive(b.title, a.title, c.title); }
    if StringLess(a.title, c.title) { StringLessAsymmetric(a.title, c.title); }
  }

  /** `_protect_central_bridge_row`. */
  method Protect(rows: seq<Row>, limit: nat) returns (out: seq<Row>)
    ensures Protected(rows, limit, out)
  {
    if limit == 0 || |rows| <= limit {
      return rows;
    }
    for i := 0 to limit
      invariant forall j :: 0 <= j < i ==> !IsBridge(rows[j])
    {
      if IsBridge(rows[i]) {
        return rows;
      }
    }
    var best, found := 0, false;
    for i := limit to |rows|
      invariant !found ==> forall j :: limit <= j < i ==> !Eligible(rows[j])
      invariant found ==> BestHidden(rows[..i], limit, best)
    {
      assert forall j :: 0 <= j < i ==> rows[..i][j] == rows[j] == rows[..i + 1][j];
      if Eligible(rows[i]) && (!found || Outranked(rows[best], rows[i])) {
        BetterTakesOver(rows, limit, best, i, found);
        best, found := i, true;
      }
    }
    if !found {
      return rows;
    }
    assert rows[..|rows|] == rows;
    var ordered := rows[..best] + rows[best + 1..];
    var at := Slot(limit);
    out := ordered[..at] + [rows[best]] + ordered[at..];
    assert out == Lifted(rows, best, at);
  }

  /** Nothing is lost or invented, and the leading row keeps its place. */
  lemma {:induction false} ProtectedKeepsRows(rows: seq<Row>, limit: nat, out: seq<Row>)
    requires Protected(rows, limit, out)
    ensures multiset(out) == multiset(rows) && |out| == |rows|
    ensures rows != [] ==> out[0] == rows[0]
    ensures limit == 1 && rows != [] ==> out[..1] == rows[..1]
  {
    if out != rows {
      var i: nat :| BestHidden(rows, limit, i) && out == Lifted(rows, i, Slot(limit));
      LiftedPermutes(rows, i, Slot(limit));
    }
  }

  lemma {:induction false} LiftedPermutes(rows: seq<Row>, i: nat, at: nat)
    requires 1 <= at <= i < |rows|
    ensures var out := Lifted(rows, i, at);
      multiset(out) == multiset(rows) && |out| == |rows| && out[0] == rows[0] && out[..1] == rows[..1]
  {
    var a, b, c, d := rows[..at], rows[at..i], [rows[i]], rows[i + 1..];
    assert rows == a + b + c + d;
    assert Lifted(rows, i, at) == a + c + b + d;
    assert multiset(a + b + c + d) == multiset(a) + multiset(b) + multiset(c) + multiset(d);
    assert multiset(a + c + b + d) == multiset(a) + multiset(c) + multiset(b) + multiset(d);
  }

  /** With room for two rows, a bridge row is visible afterwards exactly when one was visible
      before or an eligible one was hidden. */
  lemma {:induction false} ProtectedShowsBridgeIff(rows: seq<Row>, limit: nat, out: seq<Row>)
    requires Protected(rows, limit, out) && limit >= 2
    ensures ShowsBridge(out, limit) <==> ShowsBridge(rows, limit) || HidesEligible(rows, limit)
  {
    if out != rows {
      var i: nat :| BestHidden(rows, limit, i) && out == Lifted(rows, i, Slot(limit));
      assert out[Slot(limit)] == rows[i];
    }
  }

  /** Of two rows the first comes last in what decides: the bridge score, then the rank signal, then
      the score, then the title. */
  predicate NotAbove(a: Row, b: Row) {
    && a.bridge <= b.bridge
    && (a.bridge == b.bridge ==>
          && a.rankSignal <= b.rankSignal
          && (a.rankSignal == b.rankSignal ==>
                && a.score <= b.score
                && (a.score == b.score ==> !StringLess(b.title, a.title))))
  }

  /** With room for two rows, no bridge among the visible ones and an eligible one hidden, the last
      visible row is then the highest of those, and all the others keep their order. */
  lemma {:induction false} TopBridgeIsLifted(rows: seq<Row>, limit: nat, out: seq<Row>) returns (i: nat)
    requires Protected(rows, limit, out) && 2 <= limit <= |rows|
    requires forall j :: 0 <= j < limit ==> rows[j].bridge < 1.0
    requires exists j :: limit <= j < |rows| && rows[j].bridge >= 1.0 && rows[j].relation != Excluded
    ensures limit <= i < |rows| && rows[i].bridge >= 1.0 && rows[i].relation != Excluded
    ensures out[limit - 1] == rows[i]
    ensures out[..limit - 1] == rows[..limit - 1] && out[limit..] == rows[limit - 1..i] + rows[i + 1..]
    ensures forall j :: limit <= j < |rows| && rows[j].bridge >= 1.0 && rows[j].relation != Excluded ==>
        NotAbove(rows[j], rows[i])
  {
    assert !ShowsBridge(rows, limit) && HidesEligible(rows, limit) by {
      var j :| limit <= j < |rows| && rows[j].bridge >= 1.0 && rows[j].relation != Excluded;
      assert Eligible(rows[j]);
    }
    hide Lifted, NotAbove, Outranked;
    i :| BestHidden(rows, limit, i) && out == Lifted(rows, i, Slot(limit));
    LiftedPlaces(rows, i, limit);
    forall j | limit <= j < |rows| && rows[j].bridge >= 1.0 && rows[j].relation != Excluded
      ensures NotAbove(rows[j], rows[i])
    {
      assert Eligible(rows[j]);
      NotOutranked(rows[i], rows[j]);
    }
  }

  lemma {:induction false} NotOutranked(a: Row, b: Row)
    ensures Outranked(a, b) || NotAbove(b, a)
  {
  }

  lemma {:induction false} LiftedPlaces(rows: seq<Row>, i: nat, limit: nat)
    requires 2 <= limit <= i < |rows|
    ensures var out := Lifted(rows, i, limit - 1);
            && out[limit - 1] == rows[i] && out[..limit - 1] == rows[..limit - 1]
            && out[limit..] == rows[limit - 1..i] + rows[i + 1..]
  {
  }

  ghost predicate ShowsEligible(rows: seq<Row>, limit: nat) {
    exists i :: 0 <= i < |rows| && i < limit && Eligible(rows[i])
  }

  /** An excluded bridge row in the visible prefix stops the protection, although excluded rows
      are dropped from the references later: an eligible one then stays hidden. */
  lemma {:induction false} ProtectedShowsEligibleIff(rows: seq<Row>, limit: nat, out: seq<Row>)
    requires Protected(rows, limit, out) && limit >= 2
    ensures ShowsEligible(out, limit)
       <==> ShowsEligible(rows, limit) || (!ShowsBridge(rows, limit) && HidesEligible(rows, limit))
  {
    if out != rows {
      var i: nat :| BestHidden(rows, limit, i) && out == Lifted(rows, i, Slot(limit));
      assert out[Slot(limit)] == rows[i];
    }
  }

  // ----- The whole ordering

  /** A leading supporting or near-miss row that scores well enough becomes the primary one. */
  function Promoted(rows: seq<Row>): seq<Row> {
    if rows != [] && (rows[0].relation == Supporting || rows[0].relation == NearMiss)
       && rows[0].score >= 0.30 && rows[0].matchedRatio >= 0.24
    then [rows[0].(relation := Primary)] + rows[1..]
    else rows
  }

  lemma {:induction false} PromotedEligible(rows: seq<Row>)
    requires exists i :: 0 <= i < |rows| && Eligible(rows[i])
    ensures exists i :: 0 <= i < |Promoted(rows)| && Eligible(Promoted(rows)[i])
  {
    var i :| 0 <= i < |rows| && Eligible(rows[i]);
    assert Eligible(Promoted(rows)[i]);
  }

  /** `ranked` is the greedy order of the promoted rows with one bridge row protected. */
  ghost predicate RankedAs(rows: seq<Row>, t: Terms, limit: nat, ranked: seq<Row>) {
    exists order: seq<nat> :: OrderedAs(Promoted(rows), t, limit, order, ranked)
  }

  ghost predicate OrderedAs(rows: seq<Row>, t: Terms, limit: nat, order: seq<nat>, ranked: seq<Row>) {
    && Indices(order, |rows|) && |order| == |rows|
    && (if |rows| <= 2 || t.all == [] then Pick(rows, order) == rows else Greedy(rows, t, order))
    && (if limit == 0 then ranked == Pick(rows, order) else Protected(Pick(rows, order), limit, ranked))
  }

  /** The whole ordering leaves no choice either. */
  lemma {:induction false} RankedIsUnique(rows: seq<Row>, t: Terms, limit: nat, a: seq<Row>, b: seq<Row>)
    requires RankedAs(rows, t, limit, a) && RankedAs(rows, t, limit, b)
    ensures a == b
  {
    hide Greedy, Protected, Promoted;
    var p := Promoted(rows);
    var oa: seq<nat> :| OrderedAs(p, t, limit, oa, a);
    var ob: seq<nat> :| OrderedAs(p, t, limit, ob, b);
    if |p| > 2 && t.all != [] { GreedyUnique(p, t, oa, ob); }
    if limit > 0 { ProtectedIsUnique(Pick(p, oa), limit, a, b); }
  }

  /** The first row stays first. It is made primary exactly if it was supporting or a near miss, with
      a score of at least 0.30 and at least 0.24 of the terms matched. */
  lemma {:induction false} FirstRowTells(rows: seq<Row>, t: Terms, limit: nat, ranked: seq<Row>)
    requires RankedAs(rows, t, limit, ranked) && rows != []
    ensures ranked != []
    ensures var first := rows[0];
            var raised := first.relation in {Supporting, NearMiss} && first.score >= 0.30 && first.matchedRatio >= 0.24;
            ranked[0] == if raised then first.(relation := Primary) else first
  {
    hide Protected, EarliestBest;
    var p := Promoted(rows);
    var order: seq<nat> :| OrderedAs(p, t, limit, order, ranked);
    assert Pick(p, order)[0] == p[0];
    if limit > 0 { ProtectedKeepsRows(Pick(p, order), limit, ranked); }
  }

  // ----- An eligible bridge row behind an excluded one

  /** The part of a selection score that does not depend on coverage. */
  function OwnScore(row: Row): real {
    0.45 * row.score + 0.07 * row.rankSignal + 0.14 * row.focus + 0.05 * row.idf + RelationBonus(row.relation)
  }

  lemma {:induction false} SameCoverageScores(rows: seq<Row>, t: Terms, i: nat, j: nat, covered: set<string>)
    requires i < |rows| && j < |rows| && rows[i].coverage == rows[j].coverage
    ensures SelectionScore(rows, t, j, covered) - SelectionScore(rows, t, i, covered)
         == OwnScore(rows[j]) - OwnScore(rows[i])
  {
  }

  /** A primary row, an eligible bridge row and an excluded bridge row that covers the same terms
      and scores higher otherwise: with room for two, the excluded row is the second shown, and
      as it is dropped from the references later, no bridge row is left. */
  lemma {:induction false} ExcludedHidesEligible(rows: seq<Row>, t: Terms, ranked: seq<Row>)
    requires |rows| == 3 && t.all != [] && rows[0].relation == Primary && !IsBridge(rows[0])
    requires Eligible(rows[1]) && IsBridge(rows[2]) && rows[2].relation == Excluded
    requires rows[1].coverage == rows[2].coverage && OwnScore(rows[1]) < OwnScore(rows[2])
    requires RankedAs(rows, t, 2, ranked)
    ensures ranked == [rows[0], rows[2], rows[1]]
    ensures !ShowsEligible(ranked, 2) && HidesEligible(ranked, 2)
  {
    hide SelectionScore, OwnScore, Covered, Protected, IsBridge;
    assert Promoted(rows) == rows;
    var order: seq<nat> :| OrderedAs(rows, t, 2, order, ranked);
    assert EarliestBest(rows, t, order[..1], order[1]);
    SameCoverageScores(rows, t, 1, 2, Covered(rows, order[..1]));
    assert order[1] != 1 by { assert 2 !in order[..1]; }
    assert order == [0, 2, 1];
    var mixed := Pick(rows, order);
    assert mixed == [rows[0], rows[2], rows[1]];
    ShownBridgeStops(mixed, ranked);
    assert Eligible(ranked[2]);
  }

  lemma {:induction false} ShownBridgeStops(rows: seq<Row>, out: seq<Row>)
    requires |rows| == 3 && IsBridge(rows[1]) && Protected(rows, 2, out)
    ensures out == rows
  {
    assert ShowsBridge(rows, 2);
  }

  /** The order of `_RELATIONSHIP_ORDER`, and then the higher score. */
  predicate SortedBefore(a: Row, b: Row) {
    var x, y := SortRank(a.relation), SortRank(b.relation);
    x < y || (x == y && a.score >= b.score)
  }

  function SortRank(r: Relation): nat {
    match r
    case Primary => 0 case Supporting => 1 case NearMiss => 2 case Related => 3 case Background => 4 case Excluded => 5
  }

  /** Three such rows, sorted as the ranking sorts them, for the terms of `low weight`: a document
      on low weight; one whose source label alone names underweight; and one without identity
      whose document title does, with a claim rank of 0.45. */
  function LowWeight(): seq<Row> {
    [ Row("Low weight", 0.6, 0.666667, Primary, {"low", "weight"}, 0.0, 0.0, 0.666667, 0.0),
      Row("Underweight", 0.41, 0.333333, Supporting, {"underweight"}, 0.0, 0.0, 0.0, 1.0),
      Row("", 0.62, 0.333333, Excluded, {"underweight"}, 0.45, 1.0, 0.333333, 1.0) ]
  }

  function LowWeightTerms(): Terms {
    var all := ["low", "weight", "underweight"];
    Terms(all, map x | x in all :: 1.0, {"weight", "underweight"})
  }

  /** What `Rank` makes visible of them with a limit of 2 is the first and the last. */
  lemma {:induction false} LowWeightHidesEligible(ranked: seq<Row>)
    requires RankedAs(LowWeight(), LowWeightTerms(), 2, ranked)
    ensures WellFormedTerms(LowWeightTerms()) && Ranged(LowWeight())
    ensures forall i, j :: 0 <= i < j < 3 ==> SortedBefore(LowWeight()[i], LowWeight()[j])
    ensures ranked[..2] == [LowWeight()[0], LowWeight()[2]]
    ensures !ShowsEligible(ranked, 2) && HidesEligible(ranked, 2)
  {
    var rows := LowWeight();
    hide RankedAs;
    assert OwnScore(rows[1]) < OwnScore(rows[2]);
    ExcludedHidesEligible(rows, LowWeightTerms(), ranked);
  }

  // ----- The ranking

  /** Promotion, diversification, bridge protection and the cut, on rows already sorted by
      relation, score and title. A limit of 0 shows everything. */
  method Rank(rows: seq<Row>, t: Terms, limit: nat) returns (ranked: seq<Row>, visible: seq<Row>)
    requires WellFormedTerms(t) && Ranged(rows)
    ensures RankedAs(rows, t, limit, ranked)
    ensures multiset(ranked) == multiset(Promoted(rows))
    ensures rows != [] ==> ranked[0] == Promoted(rows)[0]
    ensures visible == if limit == 0 || |rows| <= limit then ranked else ranked[..limit]
    ensures rows != [] ==> visible != [] && visible[0] == Promoted(rows)[0]
    ensures limit != 1 && (exists i :: 0 <= i < |rows| && Eligible(rows[i])) ==>
        exists i :: 0 <= i < |visible| && IsBridge(visible[i])
  {
    hide SelectionScore, Greedy, Protected, Pick, Eligible, IsBridge;
    var promoted := Promoted(rows);
    ghost var order;
    ranked, order := Diversify(promoted, t);
    ghost var mixed := ranked;
    if limit > 0 {
      ranked := Protect(ranked, limit);
      ProtectedKeepsRows(mixed, limit, ranked);
    }
    assert OrderedAs(promoted, t, limit, order, ranked);
    visible := if limit == 0 || |ranked| <= limit then ranked else ranked[..limit];
    assert |multiset(ranked)| == |ranked| == |rows|;
    if limit != 1 && exists i :: 0 <= i < |rows| && Eligible(rows[i]) {
      PromotedEligible(rows);
      BridgeReachesView(promoted, mixed, ranked, limit);
      ghost var m :| 0 <= m < |ranked| && (limit == 0 || m < limit) && IsBridge(ranked[m]);
      assert visible[m] == ranked[m];
    }
  }

  lemma {:induction false} BridgeReachesView(rows: seq<Row>, mixed: seq<Row>, ranked: seq<Row>, limit: nat)
    requires multiset(mixed) == multiset(rows) && limit != 1
    requires if limit == 0 then ranked == mixed else Protected(mixed, limit, ranked)
    requires exists i :: 0 <= i < |rows| && Eligible(rows[i])
    ensures exists m :: 0 <= m < |ranked| && (limit == 0 || m < limit) && IsBridge(ranked[m])
  {
    var i :| 0 <= i < |rows| && Eligible(rows[i]);
    assert rows[i] in multiset(mixed);
    var k :| 0 <= k < |mixed| && mixed[k] == rows[i];
    if limit > 0 {
      assert k < limit ==> ShowsBridge(mixed, limit);
      ProtectedShowsBridgeIff(mixed, limit, ranked);
    }
  }
}
