/**
 Ranked retrieval metrics over the maximum matching (scripts/rag_eval_metrics.py).

 Scores are exact reals. The discount 1/log2(rank + 1) enters only as a function of the
 zero-based index of a retrieved passage that is never negative and never increases.
 */
module RetrievalMetrics {
  import opened Cardinality
  import opened Options
  import opened PassageMatching

  /** Weights that are never negative and never increase. */
  ghost predicate Discount(weight: nat -> real) {
    && (forall i: nat :: weight(i) >= 0.0)
    && forall i: nat, j: nat | i <= j :: weight(j) <= weight(i)
  }

  // ----- Distinct gold passages

  ghost predicate NoDuplicates<T>(s: seq<T>) {
    forall i, j | 0 <= i < j < |s| :: s[i] != s[j]
  }

  /** The first occurrence of every passage, in the order of those first occurrences. */
  ghost function FirstOccurrences(passages: seq<Tokens>): (distinct: seq<Tokens>)
    ensures forall p :: p in distinct <==> p in passages
    ensures NoDuplicates(distinct)
  {
    if passages == [] then []
    else
      var last := |passages| - 1;
      var rest := FirstOccurrences(passages[..last]);
      assert passages == passages[..last] + [passages[last]];
      if passages[last] in rest then rest else rest + [passages[last]]
  }

  /** What comes later does not move what was there: the passages are in the order of their first occurrences. */
  lemma {:induction false} FirstOccurrencesGrow(passages: seq<Tokens>, n: nat)
    requires n <= |passages|
    ensures FirstOccurrences(passages[..n]) <= FirstOccurrences(passages)
    decreases |passages|
  {
    if n == |passages| {
      assert passages[..n] == passages;
    } else {
      var before := passages[..|passages| - 1];
      FirstOccurrencesGrow(before, n);
      assert before[..n] == passages[..n];
    }
  }

  method DistinctPassages(passages: seq<Tokens>) returns (distinct: seq<Tokens>)
    ensures distinct == FirstOccurrences(passages)
  {
    distinct := [];
    var seen: set<Tokens> := {};
    for i := 0 to |passages|
      invariant distinct == FirstOccurrences(passages[..i])
      invariant seen == set k | 0 <= k < i :: passages[k]
    {
      var identity := passages[i];
      assert passages[..i + 1][..i] == passages[..i];
      assert identity in seen <==> identity in passages[..i];
      if identity !in seen {
        seen := seen + {identity};
        distinct := distinct + [identity];
      }
    }
    assert passages[..|passages|] == passages;
  }

  // ----- Gain of a set of ranks

  /** The discounted gain of the ranks below n. */
  function Gain(ranks: set<nat>, weight: nat -> real, n: nat): real {
    if n == 0 then 0.0
    else Gain(ranks, weight, n - 1) + if n - 1 in ranks then weight(n - 1) else 0.0
  }

  /** A rank adds its weight. */
  lemma {:induction false} GainAdds(ranks: set<nat>, r: nat, weight: nat -> real, n: nat)
    requires r !in ranks && r < n
    ensures Gain(ranks + {r}, weight, n) == Gain(ranks, weight, n) + weight(r)
  {
    if r == n - 1 {
      SameRanksSameGain(ranks + {r}, ranks, weight, n - 1);
    } else {
      GainAdds(ranks, r, weight, n - 1);
    }
  }

  lemma BelowStep(ranks: set<nat>, n: nat)
    ensures |Below(ranks, n + 1)| == |Below(ranks, n)| + if n in ranks then 1 else 0
  {
    assert Below(ranks, n + 1) == Below(ranks, n) + if n in ranks then {n} else {};
  }

  lemma ProductNotNegative(x: real, y: real)
    requires x >= 0.0 && y >= 0.0
    ensures x * y >= 0.0
  {
  }

  /** Ranks that are never behind in number are never behind in gain: summation by parts. */
  lemma {:induction false} EarlierRanksGainMore(a: set<nat>, b: set<nat>, weight: nat -> real, n: nat)
    requires Discount(weight)
    requires forall j: nat | j <= n :: |Below(a, j)| >= |Below(b, j)|
    ensures Gain(a, weight, n) >= Gain(b, weight, n)
    ensures n > 0 ==> Gain(a, weight, n) - Gain(b, weight, n)
                        >= weight(n - 1) * (|Below(a, n)| - |Below(b, n)|) as real
  {
    if n > 0 {
      var m: nat := n - 1;
      EarlierRanksGainMore(a, b, weight, m);
      BelowStep(a, m);
      BelowStep(b, m);
      var lead := |Below(a, m)| - |Below(b, m)|;
      if m > 0 {
        var p: nat := m - 1;
        assert weight(m) <= weight(p);
        ProductNotNegative(weight(p) - weight(m), lead as real);
      } else {
        assert Below(a, 0) == {} && Below(b, 0) == {};
      }
    }
  }

  /** The first c ranks. */
  ghost function Leading(c: nat): (ranks: set<nat>)
    ensures forall r: nat :: r in ranks <==> r < c
  {
    if c == 0 then {} else Leading(c - 1) + {c - 1}
  }

  lemma {:induction false} LeadingSize(c: nat)
    ensures |Leading(c)| == c
  {
    if c > 0 {
      var before := Leading(c - 1);
      LeadingSize(c - 1);
      assert c - 1 !in before && Leading(c) == before + {c - 1};
    }
  }

  lemma LeadingBelow(c: nat, j: nat)
    ensures |Below(Leading(c), j)| == if c < j then c else j
  {
    assert Below(Leading(c), j) == Leading(if c < j then c else j);
    LeadingSize(if c < j then c else j);
  }

  function IdealGain(weight: nat -> real, c: nat): real {
    if c == 0 then 0.0 else IdealGain(weight, c - 1) + weight(c - 1)
  }

  lemma {:induction false} IdealIsLeadingGain(weight: nat -> real, c: nat, n: nat)
    requires c <= n
    ensures Gain(Leading(c), weight, n) == IdealGain(weight, c)
    decreases n
  {
    if n > 0 {
      if c == n {
        IdealIsLeadingGain(weight, c - 1, n - 1);
        SameRanksSameGain(Leading(c), Leading(c - 1), weight, n - 1);
      } else {
        IdealIsLeadingGain(weight, c, n - 1);
      }
    }
  }

  lemma {:induction false} SameRanksSameGain(a: set<nat>, b: set<nat>, weight: nat -> real, n: nat)
    requires forall r | r < n :: r in a <==> r in b
    ensures Gain(a, weight, n) == Gain(b, weight, n)
  {
    if n > 0 {
      SameRanksSameGain(a, b, weight, n - 1);
    }
  }

  /** The logarithmic weights are positive as well. */
  ghost predicate Positive(weight: nat -> real) {
    forall i: nat :: weight(i) > 0.0
  }

  /** With positive weights, as the logarithmic ones are, only an empty ideal gains nothing. */
  lemma {:induction false} IdealPositive(weight: nat -> real, c: nat)
    requires Positive(weight)
    ensures IdealGain(weight, c) >= 0.0 && (c > 0 ==> IdealGain(weight, c) > 0.0)
  {
    if c > 0 { IdealPositive(weight, c - 1); }
  }

  lemma {:induction false} GainBounds(ranks: set<nat>, weight: nat -> real, c: nat, n: nat)
    requires Discount(weight)
    requires |ranks| <= c <= n
    ensures 0.0 <= Gain(ranks, weight, n) <= IdealGain(weight, c)
    ensures c > 0 && Positive(weight) ==> IdealGain(weight, c) > 0.0
  {
    if Positive(weight) { IdealPositive(weight, c); }
    forall j: nat | j <= n ensures |Below(Leading(c), j)| >= |Below(ranks, j)| && |Below(ranks, j)| >= |Below({}, j)| {
      LeadingBelow(c, j);
      SubsetSize(Below(ranks, j), ranks);
      SubsetSize(Below(ranks, j), Leading(j));
      LeadingSize(j);
      assert Below({}, j) == {};
    }
    EarlierRanksGainMore(Leading(c), ranks, weight, n);
    EarlierRanksGainMore(ranks, {}, weight, n);
    NoRanksNoGain(weight, n);
    IdealIsLeadingGain(weight, c, n);
  }

  lemma {:induction false} NoRanksNoGain(weight: nat -> real, n: nat)
    ensures Gain({}, weight, n) == 0.0
  {
    if n > 0 { NoRanksNoGain(weight, n - 1); }
  }

  // ----- The matched ranks are the best possible ones

  /** Ranks that cover most of every prefix. */
  ghost predicate Earliest(edges: Edges, ranks: set<nat>) {
    forall n: nat | n <= |edges| :: CoversMost(edges, ranks, n)
  }

  lemma PrefixOfMatching(edges: Edges, other: map<nat, nat>, j: nat) returns (part: map<nat, nat>)
    requires IsMatching(edges, other, |edges|) && j <= |edges|
    ensures IsMatching(edges, part, j) && |part| == |Below(other.Values, j)|
  {
    part := map g | g in other && other[g] < j :: other[g];
    InjectiveSize(part);
    assert part.Values == Below(other.Values, j) by {
      forall r | r in Below(other.Values, j) ensures r in part.Values {
        var g :| g in other && other[g] == r;
        assert part[g] == r;
      }
    }
  }

  /** No matching of the same graph has a larger discounted gain. */
  lemma GreedyBasisGainsMost(edges: Edges, ranks: set<nat>, other: map<nat, nat>, weight: nat -> real)
    requires Discount(weight) && Earliest(edges, ranks)
    requires IsMatching(edges, other, |edges|)
    ensures Gain(ranks, weight, |edges|) >= Gain(other.Values, weight, |edges|)
  {
    forall j: nat | j <= |edges| ensures |Below(ranks, j)| >= |Below(other.Values, j)| {
      var part := PrefixOfMatching(edges, other, j);
      assert CoversMost(edges, ranks, j);
    }
    EarlierRanksGainMore(ranks, other.Values, weight, |edges|);
  }

  /** The first matched rank is the first passage with any edge. */
  lemma FirstMatched(edges: Edges, ranks: set<nat>, first: nat)
    requires Earliest(edges, ranks)
    requires forall r | r in ranks :: r < |edges| && edges[r] != []
    requires first < |edges| && edges[first] != [] && forall r | 0 <= r < first :: edges[r] == []
    ensures first in ranks && forall r | r in ranks :: first <= r
  {
    var single: map<nat, nat> := map[edges[first][0] := first];
    assert single.Keys == {edges[first][0]};
    assert |single| == |single.Keys| == 1;
    assert IsMatching(edges, single, first + 1);
    assert CoversMost(edges, ranks, first + 1);
    var r :| r in Below(ranks, first + 1);
    assert r == first;
  }

  /** A matching uses no more than the retrieved passages and no more than the gold passages. */
  lemma MatchingSize(edges: Edges, matches: map<nat, nat>, golds: nat)
    requires forall r | r in matches :: r < |edges| && matches[r] in edges[r]
    requires forall r | 0 <= r < |edges| :: forall g | g in edges[r] :: g < golds
    requires Injective(matches)
    ensures |matches.Keys| == |matches| <= |edges| && |matches| <= golds
  {
    InjectiveSize(matches);
    SubsetSize(matches.Keys, Leading(|edges|));
    LeadingSize(|edges|);
    SubsetSize(matches.Values, Leading(golds));
    LeadingSize(golds);
  }

  lemma CoversEverything(edges: Edges, matches: map<nat, nat>, other: map<nat, nat>)
    requires forall r | r in matches :: r < |edges|
    requires Earliest(edges, matches.Keys) && IsMatching(edges, other, |edges|)
    ensures |other| <= |matches.Keys|
  {
    assert Below(matches.Keys, |edges|) == matches.Keys;
    assert CoversMost(edges, matches.Keys, |edges|);
  }

  // ----- The metrics of one question

  datatype Metrics = Metrics(precision: real, recall: real, f1: real, reciprocalRank: real, ndcg: real, matched: nat)

  predicate UnitInterval(x: real) { 0.0 <= x <= 1.0 }

  ghost predicate InRange(m: Metrics) {
    && UnitInterval(m.precision) && UnitInterval(m.recall) && UnitInterval(m.f1)
    && UnitInterval(m.reciprocalRank) && UnitInterval(m.ndcg)
  }

  method SmallestRank(ranks: set<nat>) returns (first: nat)
    requires ranks != {}
    ensures first in ranks && forall r | r in ranks :: first <= r
  {
    first :| first in ranks;
    var left := ranks - {first};
    while left != {}
      invariant first in ranks && left <= ranks
      invariant forall r | r in ranks :: r in left || first <= r
      decreases left
    {
      var r :| r in left;
      left := left - {r};
      if r < first { first := r; }
    }
  }

  lemma Ratio(part: real, whole: real)
    requires 0.0 <= part <= whole && whole > 0.0
    ensures UnitInterval(part / whole) && part / whole * whole == part
  {
    var q := part / whole;
    assert q * whole == part;
    assert q >= 0.0;
    assert (1.0 - q) * whole == whole - part >= 0.0;
  }

  /** The harmonic mean of m/R and m/G is 2m/(R + G). */
  lemma HarmonicMean(m: nat, retrieved: nat, gold: nat)
    requires retrieved > 0 && gold > 0 && m <= retrieved && m <= gold && m > 0
    ensures var p, r := m as real / retrieved as real, m as real / gold as real;
            p + r > 0.0 && (2.0 * p * r / (p + r)) == 2.0 * m as real / (retrieved + gold) as real
  {
    var x, y, z := m as real, retrieved as real, gold as real;
    var p, r := x / y, x / z;
    assert x == p * y && x == r * z;
    assert p > 0.0 && r > 0.0;
    assert (p + r) * x == p * r * (y + z);
    var f := 2.0 * p * r / (p + r);
    assert f * (p + r) == 2.0 * p * r;
    assert f * (p + r) * (y + z) == 2.0 * (p + r) * x;
    assert f * (y + z) == 2.0 * x;
  }

  /** What the scores are proportions of; a score over nothing is zero. */
  ghost predicate Proportions(m: Metrics, count: nat, retrieved: nat, gold: nat, dcg: real, ideal: real) {
    && m.precision * retrieved as real == count as real && (retrieved == 0 ==> m.precision == 0.0)
    && m.recall * gold as real == count as real
    && m.f1 * (retrieved + gold) as real == 2.0 * count as real
    && m.ndcg * ideal == dcg && (ideal == 0.0 ==> m.ndcg == 0.0)
  }

  /** A part of a whole, and zero of nothing. */
  method Proportion(part: real, whole: real) returns (score: real)
    requires 0.0 <= part <= whole
    ensures UnitInterval(score) && score * whole == part && (whole == 0.0 ==> score == 0.0)
    ensures whole > 0.0 ==> score == part / whole
  {
    score := if whole > 0.0 then part / whole else 0.0;
    if whole > 0.0 { Ratio(part, whole); }
  }

  method F1(count: nat, retrieved: nat, gold: nat, precision: real, recall: real) returns (f1: real)
    requires gold > 0 && count <= retrieved && count <= gold
    requires precision == if retrieved > 0 then count as real / retrieved as real else 0.0
    requires recall == count as real / gold as real
    ensures UnitInterval(f1) && f1 * (retrieved + gold) as real == 2.0 * count as real
  {
    f1 := if precision + recall > 0.0 then 2.0 * precision * recall / (precision + recall) else 0.0;
    if count > 0 {
      HarmonicMean(count, retrieved, gold);
      Ratio(2.0 * count as real, (retrieved + gold) as real);
    }
  }

  /** The score arithmetic: every score is a proportion, and F1 is twice the matches over both list sizes. */
  method Scores(count: nat, retrieved: nat, gold: nat, reciprocalRank: real, dcg: real, ideal: real)
    returns (m: Metrics)
    requires gold > 0 && count <= retrieved && count <= gold
    requires UnitInterval(reciprocalRank) && 0.0 <= dcg <= ideal
    ensures InRange(m)
    ensures m.matched == count && m.reciprocalRank == reciprocalRank
    ensures Proportions(m, count, retrieved, gold, dcg, ideal)
  {
    var precision := Proportion(count as real, retrieved as real);
    var recall := Proportion(count as real, gold as real);
    var f1 := F1(count, retrieved, gold, precision, recall);
    var ndcg := Proportion(dcg, ideal);
    m := Metrics(precision, recall, f1, reciprocalRank, ndcg, count);
  }

  ghost predicate IsFirstWithEdge(edges: Edges, r: nat) {
    r < |edges| && edges[r] != [] && forall q | 0 <= q < r :: edges[q] == []
  }

  /** One over the one-based rank of the first passage with any edge, and zero when there is none. */
  ghost predicate FirstRankScore(score: real, edges: Edges) {
    && (forall r | IsFirstWithEdge(edges, r) :: score == 1.0 / (r + 1) as real)
    && ((forall r | 0 <= r < |edges| :: edges[r] == []) ==> score == 0.0)
  }

  method ReciprocalRank(edges: Edges, ranks: set<nat>) returns (score: real)
    requires Earliest(edges, ranks)
    requires forall r | r in ranks :: r < |edges| && edges[r] != []
    ensures UnitInterval(score)
    ensures FirstRankScore(score, edges)
  {
    score := 0.0;
    if ranks != {} {
      var first := SmallestRank(ranks);
      score := 1.0 / (first + 1) as real;
      Ratio(1.0, (first + 1) as real);
    }
    forall r | IsFirstWithEdge(edges, r) ensures score == 1.0 / (r + 1) as real {
      FirstMatched(edges, ranks, r);
    }
  }

  /** `ranks` are the ranks of a largest one-to-one matching, and no matching gains more. */
  ghost predicate BestRanks(edges: Edges, ranks: set<nat>, count: nat, weight: nat -> real) {
    && (exists best :: IsMatching(edges, best, |edges|) && best.Values == ranks && |best| == count)
    && forall other | IsMatching(edges, other, |edges|) ::
         |other| <= count && Gain(other.Values, weight, |edges|) <= Gain(ranks, weight, |edges|)
  }

  /** What the scores of a non-empty gold list mean, in terms of the graph alone. */
  ghost predicate Measures(m: Metrics, edges: Edges, ranks: set<nat>, golds: nat, weight: nat -> real) {
    && BestRanks(edges, ranks, m.matched, weight)
    && Proportions(m, m.matched, |edges|, golds, Gain(ranks, weight, |edges|),
                   IdealGain(weight, Smaller(golds, |edges|)))
    && FirstRankScore(m.reciprocalRank, edges)
  }

  lemma CollectMeasures(m: Metrics, edges: Edges, ranks: set<nat>, golds: nat, weight: nat -> real)
    requires BestRanks(edges, ranks, m.matched, weight)
    requires Proportions(m, m.matched, |edges|, golds, Gain(ranks, weight, |edges|),
                         IdealGain(weight, Smaller(golds, |edges|)))
    requires FirstRankScore(m.reciprocalRank, edges)
    ensures Measures(m, edges, ranks, golds, weight)
  {
  }

  method GraphMetrics(edges: Edges, golds: nat, weight: nat -> real) returns (metrics: Metrics, ghost ranks: set<nat>)
    requires Discount(weight) && golds > 0
    requires forall r | 0 <= r < |edges| :: forall g | g in edges[r] :: g < golds
    ensures InRange(metrics)
    ensures Measures(metrics, edges, ranks, golds, weight)
  {
    var matches := MatchedPassages(edges);
    ranks := matches.Keys;
    MatchingSize(edges, matches, golds);
    BestMatching(edges, matches, weight);
    var attainable := Smaller(golds, |edges|);
    GainBounds(ranks, weight, attainable, |edges|);
    var reciprocalRank := ReciprocalRank(edges, matches.Keys);
    metrics := Scores(|matches|, |edges|, golds, reciprocalRank, Gain(matches.Keys, weight, |edges|),
                      IdealGain(weight, attainable));
    CollectMeasures(metrics, edges, ranks, golds, weight);
  }

  /** The contract names neither the search nor the order of its steps: `matched` is the size of a largest
      one-to-one matching, the gain is the largest over all matchings, and the first relevant rank is the
      first passage with any edge. */
  method PassageMetrics(retrieved: seq<Tokens>, gold: seq<Tokens>, threshold: real, weight: nat -> real)
    returns (metrics: Option<Metrics>, ghost edges: Edges, ghost ranks: set<nat>)
    requires Discount(weight)
    ensures metrics.None? <==> gold == []
    ensures metrics.Some? ==> InRange(metrics.value)
    ensures metrics.Some? ==> |edges| == |retrieved|
    ensures metrics.Some? ==>
              forall r | 0 <= r < |edges| :: edges[r] == EdgesAt(retrieved, FirstOccurrences(gold), threshold, r)
    ensures metrics.Some? ==> Measures(metrics.value, edges, ranks, |FirstOccurrences(gold)|, weight)
  {
    edges, ranks := [], {};
    var targets := DistinctPassages(gold);
    assert forall p :: p in gold <==> p in targets;
    if targets == [] {
      return None, edges, ranks;
    }
    assert gold != [] by { assert targets[0] in gold; }
    var graph := BuildEdges(retrieved, targets, threshold);
    EdgesPointToGold(graph, retrieved, targets, threshold);
    var scores, best := GraphMetrics(graph, |targets|, weight);
    metrics, edges, ranks := Some(scores), graph, best;
  }

  lemma EdgesPointToGold(edges: Edges, retrieved: seq<Tokens>, gold: seq<Tokens>, threshold: real)
    requires |edges| == |retrieved|
    requires forall r | 0 <= r < |edges| :: edges[r] == EdgesAt(retrieved, gold, threshold, r)
    ensures forall r | 0 <= r < |edges| :: forall g | g in edges[r] :: g < |gold|
  {
    forall r, g | 0 <= r < |edges| && g in edges[r] ensures g < |gold| {
      assert edges[r] == EdgesAt(retrieved, gold, threshold, r);
    }
  }

  function Smaller(a: nat, b: nat): nat { if a < b then a else b }

  lemma BestMatching(edges: Edges, matches: map<nat, nat>, weight: nat -> real)
    requires Discount(weight) && Injective(matches)
    requires forall r | r in matches :: r < |edges| && matches[r] in edges[r]
    requires Earliest(edges, matches.Keys)
    ensures BestRanks(edges, matches.Keys, |matches|, weight)
  {
    var best := Invert(matches);
    InjectiveSize(matches);
    InjectiveSize(best);
    forall r | r in matches ensures r in best.Values {
      assert matches[r] in best && best[matches[r]] == r;
    }
    assert IsMatching(edges, best, |edges|);
    forall other | IsMatching(edges, other, |edges|)
      ensures |other| <= |matches| && Gain(other.Values, weight, |edges|) <= Gain(matches.Keys, weight, |edges|)
    {
      CoversEverything(edges, matches, other);
      GreedyBasisGainsMost(edges, matches.Keys, other, weight);
    }
  }
}
