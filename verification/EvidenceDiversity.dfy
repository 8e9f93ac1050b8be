/** What the selection score rewards, and what that does to the order: among rows that are otherwise
    alike, those that add uncovered terms come first. */
module EvidenceDiversity {
  import opened DistinctItems
  import opened EvidenceLane

  // ----- Term weights

  /** The rows that cover a term. */
  function Covering(rows: seq<Row>, term: string): (at: set<int>) {
    set i | 0 <= i < |rows| && term in rows[i].coverage
  }

  lemma {:induction false} FrequencyCounts(rows: seq<Row>, term: string)
    ensures Frequency(rows, term) == |Covering(rows, term)|
  {
    hide Frequency;
    NoFrequency(term);
    if rows != [] {
      var n := |rows| - 1;
      var front, last := rows[..n], rows[n];
      FrequencyCounts(front, term);
      FrequencyAppend(front, last, term);
      assert rows == front + [last];
      assert Covering(rows, term) == Covering(front, term) + if term in last.coverage then {n} else {};
    }
  }

  lemma {:induction false} NoFrequency(term: string)
    ensures Frequency([], term) == 0
  {
  }

  lemma {:induction false} FrequencyAppend(rows: seq<Row>, last: Row, term: string)
    ensures Frequency(rows + [last], term) == Frequency(rows, term) + if term in last.coverage then 1 else 0
  {
    if rows == [] {
      assert rows + [last] == [last] && [last][1..] == [];
    } else {
      assert (rows + [last])[1..] == rows[1..] + [last];
      FrequencyAppend(rows[1..], last, term);
    }
  }

  /** A term weighs its base weight once, and as much again divided by the number of rows that cover
      it; a term that none covers counts as one that one does. */
  lemma {:induction false} TermWeightTells(rows: seq<Row>, t: Terms, term: string)
    requires term in t.weight
    ensures var n := |Covering(rows, term)|;
            TermWeight(rows, t, term) == t.weight[term] * (1.0 + 1.0 / (if n == 0 then 1.0 else n as real))
  {
    FrequencyCounts(rows, term);
  }

  /** Of two terms of one base weight the one that fewer rows cover weighs more. */
  lemma {:induction false} RarerWeighsMore(rows: seq<Row>, t: Terms, a: string, b: string)
    requires a in t.weight && b in t.weight && t.weight[a] == t.weight[b] > 0.0
    requires 1 <= |Covering(rows, a)| < |Covering(rows, b)|
    ensures TermWeight(rows, t, a) > TermWeight(rows, t, b)
  {
    TermWeightTells(rows, t, a);
    TermWeightTells(rows, t, b);
    var m, n := |Covering(rows, a)| as real, |Covering(rows, b)| as real;
    SmallerShare(m, n);
    ScaledOrder(t.weight[a], 1.0 + 1.0 / n, 1.0 + 1.0 / m);
  }

  lemma {:induction false} SmallerShare(m: real, n: real)
    requires 0.0 < m < n
    ensures 1.0 / n < 1.0 / m
  {
    var p, q := 1.0 / m, 1.0 / n;
    assert p * m == 1.0 && q * n == 1.0;
    if q >= p {
      ScaledOrder(n, p, q);
      ScaledOrder(p, m, n);
    }
  }

  lemma {:induction false} ScaledOrder(k: real, a: real, b: real)
    requires k > 0.0
    ensures a < b ==> k * a < k * b
    ensures a <= b ==> k * a <= k * b
  {
  }

  // ----- Weights of sets of terms

  /** The weight of a set of terms is the sum over its target terms. */
  lemma {:induction false} WeightAdds(rows: seq<Row>, t: Terms, among: set<string>, term: string)
    requires WellFormedTerms(t) && term !in among
    ensures WeightOf(rows, t, t.all, {}) == 0.0
    ensures WeightOf(rows, t, t.all, among + {term})
         == WeightOf(rows, t, t.all, among) + if term in t.all then TermWeight(rows, t, term) else 0.0
  {
    NoWeight(rows, t, t.all);
    ListAdds(rows, t, t.all, among, term);
  }

  lemma {:induction false} NoWeight(rows: seq<Row>, t: Terms, terms: seq<string>)
    ensures WeightOf(rows, t, terms, {}) == 0.0
  {
    if terms != [] { NoWeight(rows, t, terms[1..]); }
  }

  lemma {:induction false} ListAdds(rows: seq<Row>, t: Terms, terms: seq<string>, among: set<string>, term: string)
    requires Distinct(terms) && term !in among
    ensures WeightOf(rows, t, terms, among + {term})
         == WeightOf(rows, t, terms, among) + if term in terms then TermWeight(rows, t, term) else 0.0
  {
    hide TermWeight;
    if terms != [] {
      ListAdds(rows, t, terms[1..], among, term);
      assert terms[0] !in terms[1..];
    }
  }

  lemma {:induction false} WeightGrows(rows: seq<Row>, t: Terms, terms: seq<string>, a: set<string>, b: set<string>)
    requires a <= b && forall i :: 0 <= i < |terms| ==> terms[i] in t.weight && t.weight[terms[i]] > 0.0
    ensures WeightOf(rows, t, terms, a) <= WeightOf(rows, t, terms, b)
  {
    hide TermWeight;
    if terms != [] {
      TermWeightPositive(rows, t, terms[0]);
      WeightGrows(rows, t, terms[1..], a, b);
    }
  }

  lemma {:induction false} TotalPositive(rows: seq<Row>, t: Terms)
    requires WellFormedTerms(t)
    ensures TotalWeight(rows, t) > 0.0
  {
    WeightNonNegative(rows, t, t.all, set x | x in t.all);
  }

  lemma {:induction false} ShareGrows(a: real, b: real, total: real)
    requires a <= b && total > 0.0
    ensures Share(a, total) <= Share(b, total)
  {
    var p, q := Share(a, total), Share(b, total);
    assert p * total == a && q * total == b;
    if q < p { ScaledOrder(total, q, p); }
  }

  // ----- What a row adds

  /** The share of the target's weight that a row's terms have. */
  function Quality(rows: seq<Row>, t: Terms, i: nat): real
    requires i < |rows| && TotalWeight(rows, t) != 0.0
  {
    Share(WeightOf(rows, t, t.all, rows[i].coverage), TotalWeight(rows, t))
  }

  /** The share that its terms have which nothing chosen covers yet. */
  function Gain(rows: seq<Row>, t: Terms, i: nat, covered: set<string>): real
    requires i < |rows| && TotalWeight(rows, t) != 0.0
  {
    Share(WeightOf(rows, t, t.all, rows[i].coverage - covered), TotalWeight(rows, t))
  }

  /** Two at most of the strong terms it adds count. */
  function StrongGain(rows: seq<Row>, t: Terms, i: nat, covered: set<string>): nat
    requires i < |rows|
  {
    var n := |set x | x in rows[i].coverage && x !in covered && x in t.strong|;
    if n > 2 then 2 else n
  }

  /** Scores of two rows differ by their own parts and, for what they add, by exactly 0.38 for the
      share of uncovered weight, 0.12 for each of up to two uncovered strong terms, and 0.08 for the
      share of all their terms. */
  lemma {:induction false} ScoreDifference(rows: seq<Row>, t: Terms, i: nat, j: nat, covered: set<string>)
    requires WellFormedTerms(t) && i < |rows| && j < |rows|
    ensures TotalWeight(rows, t) > 0.0
    ensures SelectionScore(rows, t, j, covered) - SelectionScore(rows, t, i, covered)
         == OwnScore(rows[j]) - OwnScore(rows[i])
            + 0.38 * (Gain(rows, t, j, covered) - Gain(rows, t, i, covered))
            + 0.12 * ((StrongGain(rows, t, j, covered) - StrongGain(rows, t, i, covered)) as real)
            + 0.08 * (Quality(rows, t, j) - Quality(rows, t, i))
  {
    hide WeightOf, TotalWeight, Share, RelationBonus;
    TotalPositive(rows, t);
    StrongPart(rows, t, i, covered);
    StrongPart(rows, t, j, covered);
  }

  lemma {:induction false} StrongPart(rows: seq<Row>, t: Terms, i: nat, covered: set<string>)
    requires i < |rows|
    ensures StrongBonus(|(rows[i].coverage - covered) * t.strong|) == 0.12 * (StrongGain(rows, t, i, covered) as real)
  {
    assert (rows[i].coverage - covered) * t.strong
        == set x | x in rows[i].coverage && x !in covered && x in t.strong;
  }

  /** Of two rows that differ in their relation alone, a primary one scores 0.05 more than one without
      a bonus, a supporting one 0.035 and a near miss 0.015. */
  lemma {:induction false} RelationCounts(rows: seq<Row>, t: Terms, i: nat, j: nat, covered: set<string>)
    requires WellFormedTerms(t) && i < |rows| && j < |rows|
    requires rows[i] == rows[j].(relation := rows[i].relation)
    requires rows[j].relation in {Related, Background, Excluded}
    ensures SelectionScore(rows, t, i, covered) - SelectionScore(rows, t, j, covered)
         == match rows[i].relation
            case Primary => 0.05
            case Supporting => 0.035
            case NearMiss => 0.015
            case _ => 0.0
  {
    hide SelectionScore, WeightOf, TotalWeight, Share;
    ScoreDifference(rows, t, j, i, covered);
  }

  /** Covering more never raises a score. */
  lemma {:induction false} CoveringLowersScores(rows: seq<Row>, t: Terms, i: nat, a: set<string>, b: set<string>)
    requires WellFormedTerms(t) && i < |rows| && a <= b
    ensures SelectionScore(rows, t, i, b) <= SelectionScore(rows, t, i, a)
  {
    hide WeightOf, TotalWeight, RelationBonus;
    TotalPositive(rows, t);
    WeightGrows(rows, t, t.all, rows[i].coverage - b, rows[i].coverage - a);
    ShareGrows(WeightOf(rows, t, t.all, rows[i].coverage - b), WeightOf(rows, t, t.all, rows[i].coverage - a),
        TotalWeight(rows, t));
    Subset((rows[i].coverage - b) * t.strong, (rows[i].coverage - a) * t.strong);
    hide Share;
  }

  /** A row whose terms are all covered scores what it has of its own, and its quality. */
  lemma {:induction false} CoveredRowScores(rows: seq<Row>, t: Terms, i: nat, covered: set<string>)
    requires WellFormedTerms(t) && i < |rows| && rows[i].coverage <= covered
    ensures TotalWeight(rows, t) > 0.0
    ensures SelectionScore(rows, t, i, covered) == OwnScore(rows[i]) + 0.08 * Quality(rows, t, i)
  {
    hide WeightOf, TotalWeight, RelationBonus;
    TotalPositive(rows, t);
    NoWeight(rows, t, t.all);
    assert rows[i].coverage - covered == {};
    assert Share(0.0, TotalWeight(rows, t)) == 0.0;
    hide Share;
  }

  // ----- What that does to the order

  /** The rows are alike but for which of their terms are new. */
  predicate Alike(rows: seq<Row>, t: Terms, i: nat, j: nat)
    requires i < |rows| && j < |rows| && TotalWeight(rows, t) != 0.0
  {
    OwnScore(rows[i]) == OwnScore(rows[j]) && Quality(rows, t, i) == Quality(rows, t, j)
  }

  /** What a row earns for what it adds. */
  function Novelty(rows: seq<Row>, t: Terms, i: nat, covered: set<string>): real
    requires i < |rows| && TotalWeight(rows, t) != 0.0
  {
    0.38 * Gain(rows, t, i, covered) + 0.12 * (StrongGain(rows, t, i, covered) as real)
  }

  /** In the greedy order no row comes next while a row that is alike adds more. */
  lemma {:induction false} NoveltyComesFirst(rows: seq<Row>, t: Terms, order: seq<nat>, k: nat, i: nat)
    requires WellFormedTerms(t) && Greedy(rows, t, order) && 1 <= k < |order|
    requires i < |rows| && i !in order[..k]
    ensures TotalWeight(rows, t) > 0.0
    ensures var covered := Covered(rows, order[..k]);
            Alike(rows, t, i, order[k]) ==> Novelty(rows, t, order[k], covered) >= Novelty(rows, t, i, covered)
  {
    hide SelectionScore, Gain, StrongGain, Quality, OwnScore, Covered, TotalWeight;
    assert EarliestBest(rows, t, order[..k], order[k]);
    ScoreDifference(rows, t, i, order[k], Covered(rows, order[..k]));
  }

  /** So a row whose terms are all covered waits for every row that is alike and adds weight. */
  lemma {:induction false} CoveredRowWaits(rows: seq<Row>, t: Terms, order: seq<nat>, k: nat, i: nat)
    requires WellFormedTerms(t) && Greedy(rows, t, order) && 1 <= k < |order| && i < |rows| && i !in order[..k]
    requires TotalWeight(rows, t) > 0.0 ==> Alike(rows, t, i, order[k])
    requires rows[order[k]].coverage <= Covered(rows, order[..k])
    ensures WeightOf(rows, t, t.all, rows[i].coverage - Covered(rows, order[..k])) == 0.0
  {
    hide SelectionScore, Quality, OwnScore, Covered, TotalWeight, WeightOf, StrongGain, Share, EarliestBest;
    var covered := Covered(rows, order[..k]);
    NoveltyComesFirst(rows, t, order, k, i);
    NoWeight(rows, t, t.all);
    assert rows[order[k]].coverage - covered == {};
    WeightNonNegative(rows, t, t.all, rows[i].coverage - covered);
    NothingStrong(rows, t, order[k], covered);
    NoShare(WeightOf(rows, t, t.all, rows[i].coverage - covered), TotalWeight(rows, t));
  }

  lemma {:induction false} NoShare(weight: real, total: real)
    requires weight >= 0.0 && total > 0.0
    ensures Share(0.0, total) == 0.0
    ensures Share(weight, total) <= 0.0 ==> weight == 0.0
  {
    assert Share(weight, total) * total == weight;
  }

  lemma {:induction false} NothingStrong(rows: seq<Row>, t: Terms, i: nat, covered: set<string>)
    requires i < |rows| && rows[i].coverage <= covered
    ensures StrongGain(rows, t, i, covered) == 0
  {
    assert (set x | x in rows[i].coverage && x !in covered && x in t.strong) == {};
  }

  /** Three rows on which it shows: the second scores higher than the third, but covers nothing new. */
  function AlphaBravo(): seq<Row> {
    [ Row("first", 0.9, 0.5, Primary, {"alpha"}, 0.0, 0.0, 0.0, 0.0),
      Row("second", 0.6, 0.5, Related, {"alpha"}, 0.0, 0.0, 0.0, 0.0),
      Row("third", 0.4, 0.5, Related, {"bravo"}, 0.0, 0.0, 0.0, 0.0) ]
  }

  function AlphaBravoTerms(): Terms {
    Terms(["alpha", "bravo"], map["alpha" := 1.0, "bravo" := 1.0], {})
  }

  lemma {:induction false} ThirdComesSecond(order: seq<nat>)
    requires Greedy(AlphaBravo(), AlphaBravoTerms(), order) && |order| == 3
    ensures order == [0, 2, 1]
  {
    var rows, t := AlphaBravo(), AlphaBravoTerms();
    var covered := Covered(rows, order[..1]);
    assert order[..1] == [0] && [0][..0] == [];
    assert Covered(rows, [0]) == Covered(rows, []) + rows[0].coverage;
    assert covered == {"alpha"};
    assert EarliestBest(rows, t, order[..1], order[1]);
    AlphaBravoScores();
    hide SelectionScore, Covered;
    assert 2 !in order[..1];
    assert order[1] != 1;
  }

  lemma {:induction false} AlphaBravoScores()
    ensures SelectionScore(AlphaBravo(), AlphaBravoTerms(), 1, {"alpha"})
          < SelectionScore(AlphaBravo(), AlphaBravoTerms(), 2, {"alpha"})
  {
    var rows, t := AlphaBravo(), AlphaBravoTerms();
    assert "alpha" != "bravo" by { assert "alpha"[0] != "bravo"[0]; }
    AlphaBravoFrequencies();
    assert TermWeight(rows, t, "alpha") == 1.5 && TermWeight(rows, t, "bravo") == 2.0;
    hide TermWeight;
    AlphaBravoWeights({"alpha"});
    AlphaBravoWeights({"bravo"});
    AlphaBravoWeights({});
    AlphaBravoWeights(set x | x in t.all);
    hide WeightOf;
    assert TotalWeight(rows, t) == 3.5;
    ScoreDifference(rows, t, 1, 2, {"alpha"});
    hide SelectionScore, TotalWeight;
    assert rows[1].coverage - {"alpha"} == {} && rows[2].coverage - {"alpha"} == {"bravo"};
  }

  lemma {:induction false} AlphaBravoWeights(among: set<string>)
    requires TermWeight(AlphaBravo(), AlphaBravoTerms(), "alpha") == 1.5
    requires TermWeight(AlphaBravo(), AlphaBravoTerms(), "bravo") == 2.0
    ensures WeightOf(AlphaBravo(), AlphaBravoTerms(), AlphaBravoTerms().all, among)
         == (if "alpha" in among then 1.5 else 0.0) + (if "bravo" in among then 2.0 else 0.0)
  {
    hide TermWeight;
    var all := AlphaBravoTerms().all;
    var rows, t, rest := AlphaBravo(), AlphaBravoTerms(), ["bravo"];
    assert all[0] == "alpha" && all[1..] == rest && rest[0] == "bravo" && rest[1..] == [];
    assert WeightOf(rows, t, [], among) == 0.0;
    assert WeightOf(rows, t, rest, among) == (if "bravo" in among then 2.0 else 0.0) + WeightOf(rows, t, [], among);
    assert WeightOf(rows, t, all, among) == (if "alpha" in among then 1.5 else 0.0) + WeightOf(rows, t, rest, among);
  }

  lemma {:induction false} AlphaBravoFrequencies()
    ensures Frequency(AlphaBravo(), "alpha") == 2 && Frequency(AlphaBravo(), "bravo") == 1
  {
    var rows := AlphaBravo();
    assert "alpha" != "bravo" by { assert "alpha"[0] != "bravo"[0]; }
    assert rows[1..][1..] == [rows[2]] && rows[1..][0] == rows[1];
    assert Frequency([rows[2]], "alpha") == 0 && Frequency([rows[2]], "bravo") == 1;
  }
}
