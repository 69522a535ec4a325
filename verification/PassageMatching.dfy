/**
 Maximum one-to-one matching of retrieved passages with gold passages
 (scripts/rag_eval_metrics.py).

 A passage is the set of its tokens: nothing in the source looks at anything else.
 */
module PassageMatching {
  import opened Cardinality

  type Tokens = set<string>

  /** edges[r] lists, in ascending order, the gold passages that retrieved passage r may match. */
  type Edges = seq<seq<nat>>

  /** Token Jaccard similarity, as an exact rational. */
  function Similarity(left: Tokens, right: Tokens): real {
    if left == {} || right == {} then 0.0 else |left * right| as real / |left + right| as real
  }

  lemma SharedSize(left: Tokens, right: Tokens)
    ensures |left * right| <= |left + right|
    ensures |left * right| == |left + right| <==> left == right
    ensures left != {} ==> |left + right| > 0
  {
    var both, either := left * right, left + right;
    SubsetSize(left, either);
    assert either == both + (either - both);
    assert |either| == |both| + |either - both|;
    if left == right {
      assert either - both == {};
    } else {
      var x :| x in either - both;
      assert |either - both| > 0;
    }
  }

  lemma Fraction(part: nat, whole: nat)
    requires part <= whole && whole > 0
    ensures 0.0 <= part as real / whole as real <= 1.0
    ensures part as real / whole as real == 1.0 <==> part == whole
  {
  }

  /** Similarity is symmetric, lies in [0,1], and is 1 exactly for equal non-empty token sets. */
  lemma SimilarityLaws(left: Tokens, right: Tokens)
    ensures Similarity(left, right) == Similarity(right, left)
    ensures 0.0 <= Similarity(left, right) <= 1.0
    ensures Similarity(left, right) == 1.0 <==> left == right && left != {}
  {
    assert left * right == right * left && left + right == right + left;
    if left != {} && right != {} {
      SharedSize(left, right);
      Fraction(|left * right|, |left + right|);
    }
  }

  /** The gold indices at or after `from` whose similarity to `item` reaches the threshold. */
  function Candidates(item: Tokens, gold: seq<Tokens>, threshold: real, from: nat): (c: seq<nat>)
    requires from <= |gold|
    ensures forall i | 0 <= i < |c| :: from <= c[i] < |gold| && Similarity(item, gold[c[i]]) >= threshold
    ensures forall g | from <= g < |gold| && Similarity(item, gold[g]) >= threshold :: g in c
    ensures forall i, j | 0 <= i < j < |c| :: c[i] < c[j]
    decreases |gold| - from
  {
    if from == |gold| then []
    else if Similarity(item, gold[from]) >= threshold then [from] + Candidates(item, gold, threshold, from + 1)
    else Candidates(item, gold, threshold, from + 1)
  }

  /** Enough tokens in common: q times the shared ones are at least p times all of them. */
  ghost predicate ShareEnough(left: Tokens, right: Tokens, p: nat, q: nat) {
    left != {} && right != {} && q * |left * right| >= p * |left + right|
  }

  lemma QuotientAtLeast(part: nat, whole: nat, p: nat, q: nat)
    requires whole > 0 && q > 0
    ensures part as real / whole as real >= p as real / q as real <==> q * part >= p * whole
  {
    var x, y := part as real / whole as real, p as real / q as real;
    assert x * whole as real == part as real && y * q as real == p as real;
    var scale := whole as real * q as real;
    ScaleUp(x, y, scale);
    assert x * scale == (q * part) as real && y * scale == (p * whole) as real;
  }

  lemma ScaleUp(x: real, y: real, scale: real)
    requires scale > 0.0
    ensures x >= y <==> x * scale >= y * scale
  {
    if x >= y { assert (x - y) * scale >= 0.0; } else { assert (y - x) * scale > 0.0; }
  }

  /** Which gold passages are candidates, by counting tokens, for a threshold of p/q. */
  lemma CandidatesByCount(item: Tokens, gold: seq<Tokens>, p: nat, q: nat, g: nat)
    requires p > 0 && q > 0 && g < |gold|
    ensures g in Candidates(item, gold, p as real / q as real, 0) <==> ShareEnough(item, gold[g], p, q)
  {
    var threshold := p as real / q as real;
    assert threshold > 0.0;
    if item != {} && gold[g] != {} {
      SharedSize(item, gold[g]);
      QuotientAtLeast(|item * gold[g]|, |item + gold[g]|, p, q);
    }
  }

  /** At a threshold of one half: at least as many tokens are shared as belong to only one of the two. */
  lemma HalfIsShared(item: Tokens, gold: seq<Tokens>, g: nat)
    requires g < |gold|
    ensures g in Candidates(item, gold, 1.0 / 2.0, 0) <==>
              item != {} && gold[g] != {} && |item * gold[g]| >= |item - gold[g]| + |gold[g] - item|
  {
    var t := gold[g];
    CandidatesByCount(item, gold, 1, 2, g);
    assert item + t == item * t + ((item - t) + (t - item));
    assert |item + t| == |item * t| + |(item - t) + (t - item)| && |(item - t) + (t - item)| == |item - t| + |t - item|;
  }

  ghost predicate Repeated(retrieved: seq<Tokens>, r: nat)
    requires r < |retrieved|
  {
    exists q | 0 <= q < r :: retrieved[q] == retrieved[r]
  }

  /** Only the first of several retrieved passages with the same tokens gets any edges. */
  ghost function EdgesAt(retrieved: seq<Tokens>, gold: seq<Tokens>, threshold: real, r: nat): seq<nat>
    requires r < |retrieved|
  {
    if Repeated(retrieved, r) then [] else Candidates(retrieved[r], gold, threshold, 0)
  }

  ghost function Seen(retrieved: seq<Tokens>, n: nat): set<Tokens>
    requires n <= |retrieved|
  {
    if n == 0 then {} else Seen(retrieved, n - 1) + {retrieved[n - 1]}
  }

  lemma {:induction false} SeenBefore(retrieved: seq<Tokens>, n: nat, t: Tokens)
    requires n <= |retrieved|
    ensures t in Seen(retrieved, n) <==> exists q :: 0 <= q < n && retrieved[q] == t
  {
    if n > 0 { SeenBefore(retrieved, n - 1, t); }
  }

  /** An edge joins the first passage of its tokens with a gold passage that shares enough of them. */
  lemma EdgesByCount(retrieved: seq<Tokens>, gold: seq<Tokens>, p: nat, q: nat, r: nat, g: nat)
    requires p > 0 && q > 0 && r < |retrieved| && g < |gold|
    ensures g in EdgesAt(retrieved, gold, p as real / q as real, r) <==>
              (forall i | 0 <= i < r :: retrieved[i] != retrieved[r]) && ShareEnough(retrieved[r], gold[g], p, q)
  {
    CandidatesByCount(retrieved[r], gold, p, q, g);
  }

  /** The loop over the retrieved passages: `candidates` is asked about each token set once. */
  method EdgesOfFirst(retrieved: seq<Tokens>, candidates: Tokens -> seq<nat>) returns (edges: Edges)
    ensures |edges| == |retrieved|
    ensures forall r | 0 <= r < |edges| :: edges[r] == if Repeated(retrieved, r) then [] else candidates(retrieved[r])
  {
    edges := [];
    var seen: set<Tokens> := {};
    for r := 0 to |retrieved|
      invariant |edges| == r && seen == Seen(retrieved, r)
      invariant forall i | 0 <= i < r :: edges[i] == if Repeated(retrieved, i) then [] else candidates(retrieved[i])
    {
      var identity := retrieved[r];
      SeenBefore(retrieved, r, identity);
      if identity in seen {
        edges := edges + [[]];
      } else {
        edges := edges + [candidates(identity)];
      }
      seen := seen + {identity};
    }
  }

  method BuildEdges(retrieved: seq<Tokens>, gold: seq<Tokens>, threshold: real) returns (edges: Edges)
    ensures |edges| == |retrieved|
    ensures forall r | 0 <= r < |edges| :: edges[r] == EdgesAt(retrieved, gold, threshold, r)
  {
    edges := EdgesOfFirst(retrieved, (item: Tokens) => Candidates(item, gold, threshold, 0));
  }

  // ----- Matchings and the certificate of maximality

  /** m maps gold to retrieved indices below n, one-to-one, along edges. */
  ghost predicate IsMatching(edges: Edges, m: map<nat, nat>, n: nat) {
    && n <= |edges|
    && (forall g | g in m :: m[g] < n && g in edges[m[g]])
    && Injective(m)
  }

  /** No alternating path leaves `dead`: every gold in it is taken by a passage with no other choice. */
  ghost predicate Closed(edges: Edges, m: map<nat, nat>, dead: set<nat>) {
    forall g | g in dead :: g in m && m[g] < |edges| && OnlyInto(edges, m[g], dead)
  }

  ghost predicate OnlyInto(edges: Edges, r: nat, dead: set<nat>)
    requires r < |edges|
  {
    forall g | g in edges[r] :: g in dead
  }

  /** Every passage below n that m leaves out reaches only dead gold. */
  ghost predicate Certificate(edges: Edges, m: map<nat, nat>, n: nat, dead: set<nat>) {
    && IsMatching(edges, m, n)
    && Closed(edges, m, dead)
    && forall r: nat | r < n && r !in m.Values :: OnlyInto(edges, r, dead)
  }

  lemma SplitSize(m: map<nat, nat>, part: set<nat>)
    ensures |m| == |(m - part)| + |m.Keys * part|
  {
    assert m.Keys == (m - part).Keys + m.Keys * part;
    assert |m.Keys| == |m| && |(m - part).Keys| == |m - part|;
  }

  /** A passage that some matching takes outside `dead` is matched outside `dead` by the certified one too. */
  lemma MatchedOutside(edges: Edges, m: map<nat, nat>, n: nat, dead: set<nat>, other: map<nat, nat>)
    requires Certificate(edges, m, n, dead)
    requires IsMatching(edges, other, n)
    ensures (other - dead).Values <= (m - dead).Values
  {
    forall r | r in (other - dead).Values ensures r in (m - dead).Values {
      var g :| g in other && g !in dead && other[g] == r;
      assert !OnlyInto(edges, r, dead);
      var h :| h in m && m[h] == r;
      assert h !in dead;
      assert h in m - dead && (m - dead)[h] == r;
    }
  }

  /** Konig's bound: a certified matching is at least as large as any other. */
  lemma CertifiedIsMaximum(edges: Edges, m: map<nat, nat>, n: nat, dead: set<nat>, other: map<nat, nat>)
    requires Certificate(edges, m, n, dead)
    requires IsMatching(edges, other, n)
    ensures |other| <= |m|
  {
    MatchedOutside(edges, m, n, dead, other);
    InjectiveSize(other - dead);
    InjectiveSize(m - dead);
    SubsetSize((other - dead).Values, (m - dead).Values);
    SplitSize(other, dead);
    SplitSize(m, dead);
    SubsetSize(other.Keys * dead, m.Keys * dead);
  }

  /** The matched retrieved indices below n. */
  ghost function Below(ranks: set<nat>, n: nat): set<nat> {
    set r | r in ranks && r < n
  }

  /** Among the first n retrieved passages no matching covers more than `ranks` does. */
  ghost predicate CoversMost(edges: Edges, ranks: set<nat>, n: nat) {
    forall other | IsMatching(edges, other, n) :: |other| <= |Below(ranks, n)|
  }

  lemma CertifiedCoversMost(edges: Edges, m: map<nat, nat>, n: nat, dead: set<nat>)
    requires Certificate(edges, m, n, dead)
    ensures CoversMost(edges, m.Values, n)
  {
    InjectiveSize(m);
    assert Below(m.Values, n) == m.Values;
    forall other | IsMatching(edges, other, n) ensures |other| <= |m.Values| {
      CertifiedIsMaximum(edges, m, n, dead, other);
    }
  }

  ghost function AllGold(edges: Edges): set<nat> {
    set r, i | 0 <= r < |edges| && 0 <= i < |edges[r]| :: edges[r][i]
  }

  // ----- The augmenting-path search

  /** What a successful search does to the matching: r gains a gold passage outside `visited`, nobody loses
      the last one, and nothing visited or dead changes. Only r may now hold two, one of them held before. */
  ghost predicate Rerouted(edges: Edges, before: map<nat, nat>, after: map<nat, nat>, r: nat, visited: set<nat>,
                           dead: set<nat>) {
    && before.Keys <= after.Keys
    && after.Values == before.Values + {r}
    && AlongEdges(edges, after)
    && Unchanged(before, after, visited)
    && Unchanged(before, after, dead)
    && (exists g :: g in after && after[g] == r && g !in visited)
    && OnlyTwice(before, after, r)
  }

  ghost predicate Holds(m: map<nat, nat>, r: nat, g: nat) {
    g in m && m[g] == r
  }

  ghost predicate AlongEdges(edges: Edges, m: map<nat, nat>) {
    forall g | g in m :: m[g] < |edges| && g in edges[m[g]]
  }

  ghost predicate Unchanged(before: map<nat, nat>, after: map<nat, nat>, kept: set<nat>) {
    forall g | g in kept :: (g in after <==> g in before) && (g in after ==> after[g] == before[g])
  }

  /** A free gold passage is simply taken. */
  lemma TakeFree(edges: Edges, m: map<nat, nat>, r: nat, gold: nat, visited: set<nat>, dead: set<nat>)
    requires AlongEdges(edges, m) && Injective(m) && dead <= m.Keys
    requires forall g | g in m && m[g] == r :: g in visited
    requires r < |edges| && gold in edges[r] && gold !in m && gold !in visited
    ensures Rerouted(edges, m, m[gold := r], r, visited, dead)
  {
    var after := m[gold := r];
    assert after[gold] == r;
    forall x | x in m.Values ensures x in after.Values {
      var l :| l in m && m[l] == x;
      assert after[l] == x;
    }
  }

  /** Handing gold over to r changes no set of matched passages but by r. */
  lemma TakeOverValues(m: map<nat, nat>, inner: map<nat, nat>, r: nat, gold: nat, g: nat)
    requires gold in m && gold in inner && g in inner && g != gold && inner[g] == m[gold] && inner[gold] == m[gold]
    requires inner.Values == m.Values + {m[gold]}
    ensures inner[gold := r].Values == m.Values + {r}
  {
    var after := inner[gold := r];
    assert after[g] == m[gold] && after[gold] == r;
    forall x | x in m.Values ensures x in after.Values {
      assert x in inner.Values;
      var l :| l in inner && inner[l] == x;
      assert after[if l == gold then g else l] == x;
    }
    forall x | x in after.Values ensures x in m.Values + {r} {
      var l :| l in after && after[l] == x;
      assert l != gold ==> inner[l] in inner.Values;
    }
    assert m[gold] in m.Values;
  }

  /** Two gold passages hold the same passage only at some point of a search. */
  ghost predicate OnlyTwice(before: map<nat, nat>, after: map<nat, nat>, r: nat) {
    forall g, h | g in after && h in after && g != h && after[g] == after[h] ::
      after[g] == r && (Holds(before, r, g) || Holds(before, r, h))
  }

  lemma TakeOverTwice(m: map<nat, nat>, inner: map<nat, nat>, r: nat, gold: nat, previous: nat)
    requires Injective(m) && Holds(m, previous, gold) && gold in inner && inner[gold] == previous
    requires OnlyTwice(m, inner, previous)
    requires forall h | h in inner && inner[h] == r :: Holds(m, r, h)
    ensures OnlyTwice(m, inner[gold := r], r)
  {
    var after := inner[gold := r];
    forall g, h | g in after && h in after && g != h && after[g] == after[h]
      ensures after[g] == r && (Holds(m, r, g) || Holds(m, r, h))
    {
    }
  }

  /** A taken gold passage is handed over once its holder has found a replacement. */
  lemma TakeOver(edges: Edges, m: map<nat, nat>, inner: map<nat, nat>, r: nat, gold: nat,
                 visited: set<nat>, seen: set<nat>, dead: set<nat>)
    requires AlongEdges(edges, m) && Injective(m)
    requires forall g | g in m && m[g] == r :: g in visited
    requires r < |edges| && gold in edges[r] && gold in m && gold !in visited && gold !in dead
    requires gold in seen && visited <= seen && Rerouted(edges, m, inner, m[gold], seen, dead)
    ensures Rerouted(edges, m, inner[gold := r], r, visited, dead)
  {
    var previous := m[gold];
    assert inner[gold] == previous;
    var g :| g in inner && inner[g] == previous && g !in seen;
    TakeOverValues(m, inner, r, gold, g);
    HeldBefore(m, inner, r, previous, visited);
    TakeOverTwice(m, inner, r, gold, previous);
    assert inner[gold := r][gold] == r;
  }

  lemma HeldBefore(m: map<nat, nat>, inner: map<nat, nat>, r: nat, previous: nat, visited: set<nat>)
    requires Injective(m) && (forall g | g in m && m[g] == r :: g in visited) && Unchanged(m, inner, visited)
    requires inner.Values == m.Values + {previous} && previous in m.Values && OnlyTwice(m, inner, previous)
    ensures forall h | h in inner && inner[h] == r :: Holds(m, r, h) || r == previous
  {
    forall h | h in inner && inner[h] == r && r != previous ensures Holds(m, r, h) {
      assert r in inner.Values;
      var held :| held in m && m[held] == r;
      assert held in visited && inner[held] == r;
    }
  }

  /** The state that the nested `augment` shares: the matching so far and the gold visited in this attempt. */
  class Matcher {
    const edges: Edges
    var goldMatches: map<nat, nat>
    var visited: set<nat>

    constructor (edges: Edges)
      ensures this.edges == edges && goldMatches == map[] && visited == {}
    {
      this.edges := edges;
      goldMatches := map[];
      visited := {};
    }

    /** r is free, or waits for a replacement of a gold passage that was visited already. */
    ghost predicate Ready(r: nat)
      reads this
    {
      && r < |edges|
      && AlongEdges(edges, goldMatches)
      && Injective(goldMatches)
      && forall g | g in goldMatches && goldMatches[g] == r :: g in visited
    }

    /** On success the matching is rerouted; on failure it is unchanged, and no alternating path
        leaves what was visited. A passage whose edges all lead into a dead set never succeeds. */
    method Augment(r: nat, ghost dead: set<nat>) returns (found: bool)
      requires Ready(r)
      requires Closed(edges, goldMatches, dead)
      modifies this`goldMatches, this`visited
      ensures old(visited) <= visited
      ensures found ==> Rerouted(edges, old(goldMatches), goldMatches, r, old(visited), dead)
      ensures !found ==> goldMatches == old(goldMatches) && OnlyInto(edges, r, visited)
      ensures !found ==> forall g | g in visited - old(visited) ::
                g in goldMatches && goldMatches[g] < |edges| && OnlyInto(edges, goldMatches[g], visited)
      ensures OnlyInto(edges, r, dead) ==> !found
      decreases AllGold(edges) - visited
    {
      for i := 0 to |edges[r]|
        invariant goldMatches == old(goldMatches) && old(visited) <= visited
        invariant forall k | 0 <= k < i :: edges[r][k] in visited
        invariant forall g | g in visited - old(visited) ::
                    g in goldMatches && goldMatches[g] < |edges| && OnlyInto(edges, goldMatches[g], visited)
      {
        var gold := edges[r][i];
        if gold in visited {
          continue;
        }
        ghost var before := visited;
        visited := visited + {gold};
        assert gold in AllGold(edges);
        if gold !in goldMatches {
          TakeFree(edges, goldMatches, r, gold, old(visited), dead);
          goldMatches := goldMatches[gold := r];
          return true;
        }
        var previous := goldMatches[gold];
        found := Augment(previous, dead);
        if found {
          TakeOver(edges, old(goldMatches), goldMatches, r, gold, old(visited), before + {gold}, dead);
          goldMatches := goldMatches[gold := r];
          return true;
        }
      }
      return false;
    }
  }

  /** The gold passage that holds r. */
  function GoldOf(m: map<nat, nat>, r: nat): (g: nat)
    requires Injective(m) && r in m.Values
    ensures g in m && m[g] == r
  {
    var g :| g in m && m[g] == r;
    g
  }

  // ----- The whole matching

  /** A closed set stays closed when it absorbs everything that a failed search visited. */
  lemma AbsorbVisited(edges: Edges, m: map<nat, nat>, r: nat, dead: set<nat>, visited: set<nat>)
    requires Certificate(edges, m, r, dead) && r < |edges|
    requires OnlyInto(edges, r, visited)
    requires forall g | g in visited :: g in m && m[g] < |edges| && OnlyInto(edges, m[g], visited)
    ensures Certificate(edges, m, r + 1, dead + visited)
  {
  }

  /** A successful search leaves the dead set closed and every matched passage matched. */
  lemma KeepCertificate(edges: Edges, before: map<nat, nat>, after: map<nat, nat>, r: nat, dead: set<nat>)
    requires Certificate(edges, before, r, dead) && r < |edges|
    requires Rerouted(edges, before, after, r, {}, dead)
    ensures Certificate(edges, after, r + 1, dead)
    ensures Below(after.Values, r) == Below(before.Values, r)
  {
    forall g | g in after ensures after[g] < r + 1 {
      assert after[g] in after.Values;
    }
    assert forall g | g in before :: before[g] < r;
    assert r !in before.Values;
  }

  /** For every n up to r, no matching covers more of the first n passages. */
  ghost predicate CoversMostUpTo(edges: Edges, ranks: set<nat>, r: nat) {
    forall n: nat | n <= r :: CoversMost(edges, ranks, n)
  }

  lemma SameRanksCoverMost(edges: Edges, ranks: set<nat>, moreRanks: set<nat>, r: nat)
    requires Below(moreRanks, r) == Below(ranks, r) && CoversMostUpTo(edges, ranks, r)
    ensures CoversMostUpTo(edges, moreRanks, r)
  {
    forall n: nat | n <= r ensures CoversMost(edges, moreRanks, n) {
      assert Below(moreRanks, n) == Below(ranks, n) by {
        forall x | x < n ensures x in moreRanks <==> x in ranks {
          assert x in Below(moreRanks, r) <==> x in Below(ranks, r);
        }
      }
      assert CoversMost(edges, ranks, n);
    }
  }

  /** The state before passage r is searched for. */
  ghost predicate Matched(edges: Edges, m: map<nat, nat>, r: nat, dead: set<nat>) {
    Certificate(edges, m, r, dead) && CoversMostUpTo(edges, m.Values, r)
  }

  lemma NextFound(edges: Edges, before: map<nat, nat>, after: map<nat, nat>, r: nat, dead: set<nat>)
    requires Matched(edges, before, r, dead) && r < |edges| && Rerouted(edges, before, after, r, {}, dead)
    ensures Matched(edges, after, r + 1, dead)
  {
    KeepCertificate(edges, before, after, r, dead);
    SameRanksCoverMost(edges, before.Values, after.Values, r);
    CertifiedCoversMost(edges, after, r + 1, dead);
  }

  lemma NextNotFound(edges: Edges, m: map<nat, nat>, r: nat, dead: set<nat>, visited: set<nat>)
    requires Matched(edges, m, r, dead) && r < |edges| && OnlyInto(edges, r, visited)
    requires forall g | g in visited :: g in m && m[g] < |edges| && OnlyInto(edges, m[g], visited)
    ensures Matched(edges, m, r + 1, dead + visited)
  {
    AbsorbVisited(edges, m, r, dead, visited);
    CertifiedCoversMost(edges, m, r + 1, dead + visited);
  }

  /**
   The returned map is a one-to-one matching along edges, and for every n no matching of the first n
   retrieved passages covers more of them. With n == |edges| this is the claimed maximum matching;
   over all n it says that the matched ranks are the earliest possible ones.
   */
  method MatchedPassages(edges: Edges) returns (result: map<nat, nat>)
    ensures forall r | r in result :: r < |edges| && result[r] in edges[r]
    ensures Injective(result)
    ensures forall n: nat | n <= |edges| :: CoversMost(edges, result.Keys, n)
  {
    var matcher := new Matcher(edges);
    ghost var dead: set<nat> := {};
    CertifiedCoversMost(edges, map[], 0, {});
    for r := 0 to |edges|
      invariant fresh(matcher) && matcher.edges == edges
      invariant Matched(edges, matcher.goldMatches, r, dead)
    {
      ghost var before := matcher.goldMatches;
      matcher.visited := {};
      var found := matcher.Augment(r, dead);
      if found {
        NextFound(edges, before, matcher.goldMatches, r, dead);
      } else {
        NextNotFound(edges, before, r, dead, matcher.visited);
        dead := dead + matcher.visited;
      }
    }
    result := Invert(matcher.goldMatches);
  }

  /** The matching turned around, from retrieved to gold. */
  function Invert(m: map<nat, nat>): (result: map<nat, nat>)
    requires Injective(m)
    ensures result.Keys == m.Values
    ensures forall r | r in result :: result[r] in m && m[result[r]] == r
    ensures Injective(result)
  {
    map r | r in m.Values :: GoldOf(m, r)
  }
}
