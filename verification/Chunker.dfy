/**
 The chunker (document-processor/service.py): what its chunks say about the text. A chunk is described by the
 interval of the document's words that it holds.
 */
module Chunker {
  import opened Words
  import opened ChunkUnits
  import opened ChunkPacking
  import opened ParagraphLaws
  import opened PageAttribution

  /** Positions, words and page range of one chunk. */
  ghost predicate ChunkAt(text: string, c: Chunk, at: Interval, size: nat) {
    && Covers(text, c.start, c.end, c.text, at)
    && at.1 - at.0 <= size
  }

  /** Consecutive chunks share no word, or exactly `overlap`. */
  ghost predicate ChunkLink(i: Interval, j: Interval, overlap: nat) {
    i.0 < j.0 && i.1 < j.1 && (i.1 - j.0 == 0 || i.1 - j.0 == overlap)
  }

  ghost predicate ChunkLinkAfter(at: seq<Interval>, k: nat, overlap: nat)
    requires k + 1 < |at|
  {
    ChunkLink(at[k], at[k + 1], overlap)
  }

  /** The chunks hold the words of the text from the first to the last. */
  ghost predicate ChunksAt(text: string, chunks: seq<Chunk>, at: seq<Interval>, size: nat, overlap: nat) {
    && |at| == |chunks| > 0
    && (forall k | 0 <= k < |chunks| :: ChunkAt(text, chunks[k], at[k], size))
    && (forall k | 0 <= k < |at| - 1 :: ChunkLinkAfter(at, k, overlap))
    && at[0].0 == 0 && at[|at| - 1].1 == |AllWords(text)|
  }

  // ----- From units to chunks

  lemma {:induction false} JoinLast(parts: seq<string>, last: string, sep: string)
    requires parts != []
    ensures Join(parts + [last], sep) == Join(parts, sep) + sep + last
    decreases |parts|
  {
    if |parts| > 1 {
      JoinLast(parts[1..], last, sep);
      assert (parts + [last])[1..] == parts[1..] + [last];
    } else {
      assert parts + [last] == [parts[0], last];
      assert (parts + [last])[1..] == [last];
    }
  }

  lemma CoversJoined(text: string, a: string, b: string, i: Interval, j: Interval, start: nat, m: nat, n: nat, end: nat)
    requires Covers(text, start, m, a, i) && Covers(text, n, end, b, j) && i.1 == j.0
    ensures Covers(text, start, end, a + "\n\n" + b, (i.0, j.1))
  {
    JoinedWords(a, "\n\n", b);
    var g := AllWords(text);
    TextsConcat(text, g[i.0..i.1], g[j.0..j.1]);
    assert g[i.0..j.1] == g[i.0..i.1] + g[j.0..j.1];
  }

  /** The units i to j - 1 follow each other without repeating a word. */
  ghost predicate Contiguous(at: seq<Interval>, i: nat, j: nat)
    requires j <= |at|
  {
    forall k | i < k < j :: Meets(at, k)
  }

  ghost predicate Meets(at: seq<Interval>, k: nat)
    requires 0 < k < |at|
  {
    at[k].0 == at[k - 1].1
  }

  lemma {:induction false} ShorterGroupLessLoad(loads: seq<nat>, i: nat, m: nat, j: nat)
    requires i <= m <= j <= |loads|
    ensures LoadFrom(loads, i, m) <= LoadFrom(loads, i, j)
    decreases j
  {
    if m < j { ShorterGroupLessLoad(loads, i, m, j - 1); }
  }

  /** An interval as long as the load, which is not empty. */
  ghost predicate AsLong(loads: seq<nat>, at: seq<Interval>, k: nat)
    requires k < |loads| && k < |at|
  {
    loads[k] > 0 && at[k].1 == at[k].0 + loads[k]
  }

  /** From the start of one interval to the end of a later one lie as many words as the loads add up to. */
  lemma {:induction false} GroupLength(loads: seq<nat>, at: seq<Interval>, i: nat, j: nat)
    requires i < j <= |loads| == |at| && Contiguous(at, i, j)
    requires forall k | 0 <= k < |loads| :: AsLong(loads, at, k)
    ensures at[j - 1].1 == at[i].0 + LoadFrom(loads, i, j)
    decreases j
  {
    assert AsLong(loads, at, j - 1);
    if j > i + 1 {
      GroupLength(loads, at, i, j - 1);
      assert Meets(at, j - 1);
    } else {
      assert LoadFrom(loads, i, i) == 0;
    }
  }

  lemma UnitLengths(text: string, units: seq<Unit>, at: seq<Interval>, size: nat)
    requires UnitsAt(text, units, at, size)
    ensures forall k | 0 <= k < |units| :: AsLong(Loads(units), at, k)
  {
    forall k | 0 <= k < |units| ensures AsLong(Loads(units), at, k) {
      assert UnitAt(text, units[k], at[k], size);
      LoadIsLength(text, units[k], at[k]);
    }
  }

  /** A full window leaves no room for the next unit. */
  lemma FullWindowStandsAlone(loads: seq<nat>, at: seq<Interval>, size: nat, i: nat, j: nat)
    requires i + 1 < j <= |loads| == |at| && AsLong(loads, at, j - 2) && AsLong(loads, at, j - 1)
    requires LoadFrom(loads, i, j) <= size
    ensures at[j - 2].1 - at[j - 2].0 < size
  {
    assert LoadFrom(loads, i, j) == LoadFrom(loads, i, j - 2) + loads[j - 2] + loads[j - 1];
  }

  /** The units of a group within the limit are contiguous: no chunk repeats words inside itself. */
  lemma GroupContiguous(loads: seq<nat>, at: seq<Interval>, size: nat, overlap: nat, i: nat, j: nat)
    requires |loads| == |at| && Chained(at, size, overlap) && forall k | 0 <= k < |loads| :: AsLong(loads, at, k)
    requires i < j <= |loads| && LoadFrom(loads, i, j) <= size
    ensures Contiguous(at, i, j)
  {
    forall k | i < k < j ensures Meets(at, k) {
      ShorterGroupLessLoad(loads, i, k + 1, j);
      assert AsLong(loads, at, k - 1) && AsLong(loads, at, k);
      FullWindowStandsAlone(loads, at, size, i, k + 1);
      assert LinkedAfter(at, k - 1, size, overlap);
    }
  }

  /** The chunk of a contiguous group holds exactly the words from its first unit to its last. */
  lemma {:induction false} GroupCovers(text: string, units: seq<Unit>, at: seq<Interval>, size: nat, i: nat, j: nat)
    requires UnitsAt(text, units, at, size) && i < j <= |units| && Contiguous(at, i, j)
    ensures Covers(text, units[i].start, units[j - 1].end, Join(Values(units[i..j]), "\n\n"), (at[i].0, at[j - 1].1))
    decreases j
  {
    assert UnitAt(text, units[j - 1], at[j - 1], size);
    if j == i + 1 {
      assert Values(units[i..j]) == [units[i].value];
    } else {
      GroupCovers(text, units, at, size, i, j - 1);
      assert Meets(at, j - 1);
      GroupStep(text, units, i, j, (at[i].0, at[j - 2].1), at[j - 1]);
    }
  }

  /** One more unit of a group, starting with the word after the ones before. */
  lemma GroupStep(text: string, units: seq<Unit>, i: nat, j: nat, before: Interval, at: Interval)
    requires i + 1 < j <= |units| && before.1 == at.0
    requires Covers(text, units[i].start, units[j - 2].end, Join(Values(units[i..j - 1]), "\n\n"), before)
    requires Covers(text, units[j - 1].start, units[j - 1].end, units[j - 1].value, at)
    ensures Covers(text, units[i].start, units[j - 1].end, Join(Values(units[i..j]), "\n\n"), (before.0, at.1))
  {
    var values := Values(units[i..j - 1]);
    assert Values(units[i..j]) == values + [units[j - 1].value];
    JoinLast(values, units[j - 1].value, "\n\n");
    CoversJoined(text, Join(values, "\n\n"), units[j - 1].value, before, at,
                 units[i].start, units[j - 2].end, units[j - 1].start, units[j - 1].end);
  }

  ghost function GroupInterval(at: seq<Interval>, cuts: seq<nat>, k: nat): Interval
    requires k < |cuts| && GroupWithin(cuts, k, |at|)
  {
    (at[cuts[k]].0, at[GroupEnd(cuts, k, |at|) - 1].1)
  }

  /** The interval of words of each group. */
  ghost function GroupIntervals(at: seq<Interval>, cuts: seq<nat>): (intervals: seq<Interval>)
    requires forall k | 0 <= k < |cuts| :: GroupWithin(cuts, k, |at|)
    ensures |intervals| == |cuts|
    ensures forall k | 0 <= k < |cuts| :: intervals[k] == GroupInterval(at, cuts, k)
  {
    seq(|cuts|, k requires 0 <= k < |cuts| => GroupInterval(at, cuts, k))
  }

  lemma {:induction false} IntervalsAscend(at: seq<Interval>, size: nat, overlap: nat, i: nat, j: nat)
    requires Chained(at, size, overlap) && i <= j < |at|
    ensures at[i].0 <= at[j].0 && at[i].1 <= at[j].1
    decreases j
  {
    if i < j {
      IntervalsAscend(at, size, overlap, i, j - 1);
      assert LinkedAfter(at, j - 1, size, overlap);
    }
  }

  lemma UnitsFit(text: string, units: seq<Unit>, at: seq<Interval>, size: nat)
    requires UnitsAt(text, units, at, size)
    ensures forall k | 0 <= k < |units| :: Loads(units)[k] <= size
  {
    forall k | 0 <= k < |units| ensures Loads(units)[k] <= size {
      assert UnitAt(text, units[k], at[k], size);
      LoadIsLength(text, units[k], at[k]);
    }
  }

  /** Chunk k holds the words of group k. */
  ghost predicate GroupChunkAt(text: string, chunks: seq<Chunk>, at: seq<Interval>, cuts: seq<nat>, k: nat, size: nat,
                               pages: PagesOf) {
    && k < |cuts| == |chunks| && GroupWithin(cuts, k, |at|)
    && ChunkAt(text, chunks[k], GroupInterval(at, cuts, k), size)
    && chunks[k].pages == pages(chunks[k].start, chunks[k].end)
  }

  lemma OneChunk(text: string, units: seq<Unit>, at: seq<Interval>, size: nat, overlap: nat, loads: seq<nat>,
                 cuts: seq<nat>, chunks: seq<Chunk>, pages: PagesOf, k: nat)
    requires UnitsAt(text, units, at, size) && Chained(at, size, overlap)
    requires loads == Loads(units) && Grouping(loads, cuts, |units|, size)
    requires |chunks| == |cuts| && ChunksOf(units, cuts, |units|, chunks, pages) && k < |chunks|
    ensures GroupChunkAt(text, chunks, at, cuts, k, size, pages)
  {
    var i, j := GroupBounds(units, loads, cuts, chunks, pages, size, k);
    GroupChunk(text, units, at, size, overlap, i, j, pages);
    IntervalOfGroup(at, cuts, k, i, j);
  }

  lemma GroupBounds(units: seq<Unit>, loads: seq<nat>, cuts: seq<nat>, chunks: seq<Chunk>, pages: PagesOf, size: nat,
                    k: nat) returns (i: nat, j: nat)
    requires |loads| == |units| && Grouping(loads, cuts, |units|, size)
    requires |chunks| == |cuts| && ChunksOf(units, cuts, |units|, chunks, pages) && k < |chunks|
    ensures i == cuts[k] && j == GroupEnd(cuts, k, |units|) && i < j <= |units| && LoadFrom(loads, i, j) <= size
    ensures chunks[k] == ChunkOf(units, i, j, pages)
  {
    assert GroupOk(loads, cuts, k, |units|, size);
    i, j := ChunkOfGroup(units, cuts, |units|, chunks, pages, k);
  }

  lemma IntervalOfGroup(at: seq<Interval>, cuts: seq<nat>, k: nat, i: nat, j: nat)
    requires k < |cuts| && i == cuts[k] && j == GroupEnd(cuts, k, |at|) && i < j <= |at|
    ensures GroupWithin(cuts, k, |at|) && GroupInterval(at, cuts, k) == (at[i].0, at[j - 1].1)
  {
  }

  /** Groups of units that cover the text make chunks that do. */
  lemma GroupedChunks(text: string, at: seq<Interval>, size: nat, overlap: nat, cuts: seq<nat>, chunks: seq<Chunk>,
                      pages: PagesOf) returns (chunkAt: seq<Interval>)
    requires Chained(at, size, overlap) && at != [] && cuts != [] && cuts[0] == 0 && |chunks| == |cuts|
    requires at[0].0 == 0 && at[|at| - 1].1 == |AllWords(text)|
    requires forall k | 0 <= k < |cuts| :: GroupChunkAt(text, chunks, at, cuts, k, size, pages)
    ensures ChunksAt(text, chunks, chunkAt, size, overlap)
  {
    assert forall k | 0 <= k < |cuts| :: GroupChunkAt(text, chunks, at, cuts, k, size, pages)
                                         && GroupWithin(cuts, k, |at|);
    chunkAt := GroupIntervals(at, cuts);
    EachLink(at, size, overlap, cuts, chunkAt);
    forall k | 0 <= k < |chunks| ensures ChunkAt(text, chunks[k], chunkAt[k], size) {
      assert GroupChunkAt(text, chunks, at, cuts, k, size, pages);
    }
    assert GroupWithin(cuts, 0, |at|) && GroupWithin(cuts, |cuts| - 1, |at|);
  }

  /** Packed units become chunks that hold the words of the text in order. */
  lemma PackedChunks(text: string, units: seq<Unit>, at: seq<Interval>, size: nat, overlap: nat, last: Interval,
                     chunks: seq<Chunk>, pages: PagesOf) returns (chunkAt: seq<Interval>)
    requires Covered(text, units, at, size, overlap, 0, last) && last.1 == |AllWords(text)|
    requires |chunks| == |Greedy(Loads(units), |units|, size)|
    requires ChunksOf(units, Greedy(Loads(units), |units|, size), |units|, chunks, pages)
    ensures ChunksAt(text, chunks, chunkAt, size, overlap)
    ensures forall k | 0 <= k < |chunks| :: chunks[k].pages == pages(chunks[k].start, chunks[k].end)
  {
    var loads := Loads(units);
    var cuts := Greedy(loads, |units|, size);
    UnitsFit(text, units, at, size);
    GreedyIsGrouping(loads, |units|, size);
    forall k | 0 <= k < |cuts| ensures GroupChunkAt(text, chunks, at, cuts, k, size, pages) {
      OneChunk(text, units, at, size, overlap, loads, cuts, chunks, pages, k);
    }
    chunkAt := GroupedChunks(text, at, size, overlap, cuts, chunks, pages);
    forall k | 0 <= k < |chunks| ensures chunks[k].pages == pages(chunks[k].start, chunks[k].end) {
      assert GroupChunkAt(text, chunks, at, cuts, k, size, pages);
    }
  }

  lemma EachLink(at: seq<Interval>, size: nat, overlap: nat, cuts: seq<nat>, intervals: seq<Interval>)
    requires Chained(at, size, overlap)
    requires forall k | 0 <= k < |cuts| :: GroupWithin(cuts, k, |at|)
    requires intervals == GroupIntervals(at, cuts)
    ensures forall k | 0 <= k < |intervals| - 1 :: ChunkLinkAfter(intervals, k, overlap)
  {
    forall k | 0 <= k < |intervals| - 1 ensures ChunkLinkAfter(intervals, k, overlap) {
      assert GroupWithin(cuts, k, |at|) && GroupWithin(cuts, k + 1, |at|);
      OneLink(at, size, overlap, cuts, k);
    }
  }

  lemma OneLink(at: seq<Interval>, size: nat, overlap: nat, cuts: seq<nat>, k: nat)
    requires Chained(at, size, overlap) && k + 1 < |cuts|
    requires GroupWithin(cuts, k, |at|) && GroupWithin(cuts, k + 1, |at|)
    ensures ChunkLink(GroupInterval(at, cuts, k), GroupInterval(at, cuts, k + 1), overlap)
  {
    GroupLink(at, size, overlap, cuts[k], cuts[k + 1], GroupEnd(cuts, k + 1, |at|));
  }

  lemma GroupChunk(text: string, units: seq<Unit>, at: seq<Interval>, size: nat, overlap: nat, i: nat, j: nat,
                   pages: PagesOf)
    requires UnitsAt(text, units, at, size) && Chained(at, size, overlap)
    requires i < j <= |units| && LoadFrom(Loads(units), i, j) <= size
    ensures var c := ChunkOf(units, i, j, pages);
            ChunkAt(text, c, (at[i].0, at[j - 1].1), size) && c.pages == pages(c.start, c.end)
  {
    UnitLengths(text, units, at, size);
    GroupContiguous(Loads(units), at, size, overlap, i, j);
    GroupLength(Loads(units), at, i, j);
    GroupCovers(text, units, at, size, i, j);
  }

  lemma GroupLink(at: seq<Interval>, size: nat, overlap: nat, i: nat, m: nat, e: nat)
    requires Chained(at, size, overlap) && i < m < e <= |at|
    ensures ChunkLink((at[i].0, at[m - 1].1), (at[m].0, at[e - 1].1), overlap)
  {
    assert LinkedAfter(at, m - 1, size, overlap);
    IntervalsAscend(at, size, overlap, i, m - 1);
    IntervalsAscend(at, size, overlap, m, e - 1);
  }

  // ----- The chunker

  /** No grouping of the units within the word limit has fewer groups than n. */
  ghost predicate Fewest(loads: seq<nat>, size: nat, n: nat) {
    && (exists cuts :: Grouping(loads, cuts, |loads|, size) && |cuts| == n)
    && forall other | Grouping(loads, other, |loads|, size) :: n <= |other|
  }

  ghost predicate PagedBy(c: Chunk, ranges: seq<PageRange>) {
    c.pages == PagesFor(ranges, c.start, c.end)
  }

  function PageLookup(ranges: seq<PageRange>): PagesOf {
    (start: nat, end: nat) => PagesFor(ranges, start, end)
  }

  /** The units of the whole text. */
  ghost predicate AreUnits(text: string, ps: seq<Span>, units: seq<Unit>, size: nat, overlap: nat) {
    && Limits(size, overlap)
    && ParagraphsUpTo(text, ps, |text|) && Within(text, ps) && units == TextUnits(text, ps, |ps|, size, overlap)
  }

  /** The text fits: its units can be grouped into at most n chunks. */
  ghost predicate Fits(text: string, size: nat, overlap: nat, n: nat) {
    exists ps, units, cuts :: AreUnits(text, ps, units, size, overlap) && Grouping(Loads(units), cuts, |units|, size)
        && |cuts| <= n
  }

  /** One chunk for each group of the greedy grouping. */
  ghost predicate IsPacked(units: seq<Unit>, size: nat, ranges: seq<PageRange>, chunks: seq<Chunk>) {
    var cuts := Greedy(Loads(units), |units|, size);
    |chunks| == |cuts| && ChunksOf(units, cuts, |units|, chunks, PageLookup(ranges))
  }

  /** The chunks of a document with the given pages. */
  ghost predicate IsChunking(pages: seq<string>, size: nat, overlap: nat, chunks: seq<Chunk>) {
    exists ranges, ps, units ::
      && PageTable(pages, LeadingBlanks(Raw(pages)), ranges)
      && AreUnits(Strip(Raw(pages)), ps, units, size, overlap)
      && IsPacked(units, size, ranges, chunks)
  }

  lemma SamePacked(units: seq<Unit>, size: nat, ranges: seq<PageRange>, one: seq<Chunk>, other: seq<Chunk>)
    requires IsPacked(units, size, ranges, one) && IsPacked(units, size, ranges, other)
    ensures one == other
  {
  }

  lemma SameTable(pages: seq<string>, leading: nat, one: seq<PageRange>, other: seq<PageRange>)
    requires PageTable(pages, leading, one) && PageTable(pages, leading, other)
    ensures one == other
  {
  }

  /** A document has only one list of chunks. */
  lemma UniqueChunking(pages: seq<string>, size: nat, overlap: nat, one: seq<Chunk>, other: seq<Chunk>)
    requires IsChunking(pages, size, overlap, one) && IsChunking(pages, size, overlap, other)
    ensures one == other
  {
    var text, leading := Strip(Raw(pages)), LeadingBlanks(Raw(pages));
    var ranges, ps, units :| PageTable(pages, leading, ranges) && AreUnits(text, ps, units, size, overlap)
                             && IsPacked(units, size, ranges, one);
    var table, qs, parts :| PageTable(pages, leading, table) && AreUnits(text, qs, parts, size, overlap)
                            && IsPacked(parts, size, table, other);
    SameTable(pages, leading, ranges, table);
    UniqueParagraphs(text, ps, qs);
    SamePacked(units, size, ranges, one, other);
  }

  /** The greedy grouping decides whether the text fits. */
  lemma FitsByGreedy(text: string, size: nat, overlap: nat, n: nat, ps: seq<Span>, units: seq<Unit>)
    requires AreUnits(text, ps, units, size, overlap)
    requires forall k | 0 <= k < |units| :: Loads(units)[k] <= size
    ensures Fits(text, size, overlap, n) <==> |Greedy(Loads(units), |units|, size)| <= n
    ensures Fewest(Loads(units), size, |Greedy(Loads(units), |units|, size)|)
  {
    GreedyFewest(Loads(units), size);
    if Fits(text, size, overlap, n) {
      var qs, others, cuts :| AreUnits(text, qs, others, size, overlap) && Grouping(Loads(others), cuts, |others|, size)
          && |cuts| <= n;
      UniqueParagraphs(text, ps, qs);
      assert others == units;
    }
  }

  lemma GreedyFewest(loads: seq<nat>, size: nat)
    requires forall k | 0 <= k < |loads| :: loads[k] <= size
    ensures Fewest(loads, size, |Greedy(loads, |loads|, size)|)
    ensures Grouping(loads, Greedy(loads, |loads|, size), |loads|, size)
  {
    GreedyIsGrouping(loads, |loads|, size);
    forall other | Grouping(loads, other, |loads|, size) ensures |Greedy(loads, |loads|, size)| <= |other| {
      GreedyIsOptimal(loads, |loads|, size, other);
    }
  }

  // ----- Windows are never merged

  /** A full unit fills a group by itself. */
  lemma FullUnitAlone(loads: seq<nat>, size: nat, i: nat, k: nat, j: nat)
    requires i <= k < j <= |loads| && loads[k] == size && (forall u | 0 <= u < |loads| :: loads[u] >= 1)
    requires i + 1 < j
    ensures LoadFrom(loads, i, j) > size
  {
    if k > i {
      SplitLoad(loads, i, k, j);
      SplitLoad(loads, k, k + 1, j);
      SplitLoad(loads, i, i + 1, k);
    } else {
      SplitLoad(loads, k, k + 1, j);
      SplitLoad(loads, k + 1, k + 2, j);
    }
  }

  lemma {:induction false} SplitLoad(loads: seq<nat>, i: nat, m: nat, j: nat)
    requires i <= m <= j <= |loads|
    ensures LoadFrom(loads, i, j) == LoadFrom(loads, i, m) + LoadFrom(loads, m, j)
    ensures m == i + 1 ==> LoadFrom(loads, i, m) == loads[i]
    decreases j
  {
    if m == i + 1 { assert LoadFrom(loads, i, m) == LoadFrom(loads, i, i) + loads[i]; }
    if m < j { SplitLoad(loads, i, m, j - 1); }
  }

  lemma UnitsHaveWords(text: string, ps: seq<Span>, units: seq<Unit>, size: nat, overlap: nat)
    requires AreUnits(text, ps, units, size, overlap)
    ensures forall k | 0 <= k < |units| :: 1 <= Loads(units)[k] <= size
  {
    var parts := ParagraphParts(text, ps, size, overlap);
    forall k | 0 <= k < |units| ensures 1 <= Loads(units)[k] <= size {
      var p, a := FlatElement(parts, |ps|, k);
      assert IsParagraph(text, ps[p].0, ps[p].1);
      PartLoads(text, ps, size, overlap, p);
      assert UnitLoad(parts[p], a, size);
    }
  }

  /** The unit with number a of paragraph p, unless it is the last, is full. */
  lemma WindowIsFull(text: string, ps: seq<Span>, units: seq<Unit>, size: nat, overlap: nat, p: nat, first: nat, a: nat,
                     k: nat)
    requires AreUnits(text, ps, units, size, overlap) && p < |ps| && first == |TextUnits(text, ps, p, size, overlap)|
    requires a + 1 < |ParagraphParts(text, ps, size, overlap)[p]| && k == first + a
    ensures k < |units| && Load(units[k]) == size
  {
    var parts := ParagraphParts(text, ps, size, overlap);
    FlatAt(parts, |ps|, p, a, k);
    assert IsParagraph(text, ps[p].0, ps[p].1);
    PartLoads(text, ps, size, overlap, p);
    assert UnitLoad(parts[p], a, size);
  }

  /** Two windows of one paragraph, with all units between them, have more words than the limit, whatever the
      overlap. */
  lemma TwoWindowsTooLong(text: string, ps: seq<Span>, units: seq<Unit>, size: nat, overlap: nat,
                           p: nat, first: nat, a: nat, b: nat, i: nat, j: nat)
    requires AreUnits(text, ps, units, size, overlap) && p < |ps| && first == |TextUnits(text, ps, p, size, overlap)|
    requires a < b < |ParagraphParts(text, ps, size, overlap)[p]| && i <= first + a && first + b < j <= |units|
    ensures LoadFrom(Loads(units), i, j) > size
  {
    var k, loads := first + a, Loads(units);
    WindowIsFull(text, ps, units, size, overlap, p, first, a, k);
    UnitsHaveWords(text, ps, units, size, overlap);
    FullUnitAlone(loads, size, i, k, j);
  }

  /** The unit with this index is in group k of the greedy grouping, and so in chunk k. */
  ghost predicate InChunk(units: seq<Unit>, size: nat, k: nat, unit: nat) {
    var cuts := Greedy(Loads(units), |units|, size);
    k < |cuts| && cuts[k] <= unit < GroupEnd(cuts, k, |units|)
  }

  /** Whatever the overlap, no chunk holds two windows of one paragraph: those with numbers a and b of paragraph p. */
  lemma WindowsNeverMerged(text: string, ps: seq<Span>, units: seq<Unit>, size: nat, overlap: nat, p: nat, first: nat,
                           a: nat, b: nat, ranges: seq<PageRange>, chunks: seq<Chunk>, k: nat)
    requires AreUnits(text, ps, units, size, overlap) && p < |ps| && first == |TextUnits(text, ps, p, size, overlap)|
    requires a < b < |ParagraphParts(text, ps, size, overlap)[p]|
    requires IsPacked(units, size, ranges, chunks) && k < |chunks|
    ensures !(InChunk(units, size, k, first + a) && InChunk(units, size, k, first + b))
  {
    var loads, cuts := Loads(units), Greedy(Loads(units), |units|, size);
    UnitsHaveWords(text, ps, units, size, overlap);
    GreedyIsGrouping(loads, |units|, size);
    assert GroupOk(loads, cuts, k, |units|, size);
    var i, j := cuts[k], GroupEnd(cuts, k, |units|);
    if i <= first + a && first + b < j {
      TwoWindowsTooLong(text, ps, units, size, overlap, p, first, a, b, i, j);
    }
  }

  // ----- Where one chunk ends and the next begins

  lemma SameStart(text: string, i: nat, j: nat)
    requires i < |AllWords(text)| && j < |AllWords(text)| && AllWords(text)[i].0 == AllWords(text)[j].0
    ensures i == j
  {
    assert WordAt(text, AllWords(text)[i], 0, |text|) && WordAt(text, AllWords(text)[j], 0, |text|);
    if i < j { WordsAscend(text, 0, |text|, i, j); }
    if j < i { WordsAscend(text, 0, |text|, j, i); }
  }

  lemma SameEnd(text: string, i: nat, j: nat)
    requires i < |AllWords(text)| && j < |AllWords(text)| && AllWords(text)[i].1 == AllWords(text)[j].1
    ensures i == j
  {
    assert WordAt(text, AllWords(text)[i], 0, |text|) && WordAt(text, AllWords(text)[j], 0, |text|);
    if i < j { WordsAscend(text, 0, |text|, i, j); }
    if j < i { WordsAscend(text, 0, |text|, j, i); }
  }

  /** The word numbers of a chunk are those of its first and last unit. */
  lemma ChunkStartsWith(text: string, c: Chunk, at: Interval, size: nat, u: Unit, n: nat)
    requires ChunkAt(text, c, at, size) && c.start == u.start && StartsWith(text, u, n)
    ensures at.0 == n
  {
    SameStart(text, at.0, n);
  }

  lemma ChunkEndsBefore(text: string, c: Chunk, at: Interval, size: nat, u: Unit, m: nat)
    requires ChunkAt(text, c, at, size) && c.end == u.end && EndsBefore(text, u, m)
    ensures at.1 == m
  {
    SameEnd(text, at.1 - 1, m - 1);
  }

  /** A full unit that ends its group is all of it. */
  lemma FullUnitIsGroup(text: string, ps: seq<Span>, units: seq<Unit>, size: nat, overlap: nat, i: nat, k: nat, j: nat)
    requires AreUnits(text, ps, units, size, overlap) && i <= k < j == k + 1 && j <= |units|
    requires LoadFrom(Loads(units), i, j) <= size && Load(units[k]) == size
    ensures i == k
  {
    UnitsHaveWords(text, ps, units, size, overlap);
    if i < k { FullUnitAlone(Loads(units), size, i, k, j); }
  }

  /** The units i to k make chunk c, and unit j = k + 1 begins the next one. */
  lemma SeamOfCuts(units: seq<Unit>, loads: seq<nat>, cuts: seq<nat>, chunks: seq<Chunk>, pages: PagesOf, size: nat,
                   c: nat, next: nat) returns (i: nat, k: nat, j: nat)
    requires |loads| == |units| && Grouping(loads, cuts, |units|, size) && next == c + 1 && next < |chunks|
    requires |chunks| == |cuts| && ChunksOf(units, cuts, |units|, chunks, pages)
    ensures i <= k && j == k + 1 && j < |units| && LoadFrom(loads, i, j) <= size
    ensures chunks[c].start == units[i].start && chunks[c].end == units[k].end && chunks[next].start == units[j].start
  {
    var end;
    i, j := GroupBounds(units, loads, cuts, chunks, pages, size, c);
    k, end := GroupBounds(units, loads, cuts, chunks, pages, size, next);
    k := j - 1;
  }

  /** Chunk c has exactly `size` words, and the next one repeats the last `overlap` of them. */
  ghost predicate FullAndRepeated(at: seq<Interval>, c: nat, size: nat, overlap: nat)
    requires c + 1 < |at|
  {
    at[c].1 == at[c].0 + size && at[c + 1].0 + overlap == at[c].1
  }

  /** A chunk has exactly `size` words and shares the last `overlap` with the next one, unless an empty line follows
      it. */
  lemma ChunkSeam(text: string, ps: seq<Span>, units: seq<Unit>, ranges: seq<PageRange>, chunks: seq<Chunk>,
                  at: seq<Interval>, size: nat, overlap: nat, c: nat)
    requires AreUnits(text, ps, units, size, overlap) && IsPacked(units, size, ranges, chunks)
    requires ChunksAt(text, chunks, at, size, overlap) && c + 1 < |chunks|
    ensures FullAndRepeated(at, c, size, overlap) || exists j :: EmptyLine(text, chunks[c].end, j)
  {
    var next := c + 1;
    var here, there := at[c], at[next];
    BothAt(text, chunks, at, size, overlap, c, next);
    SeamOfTwo(text, ps, units, ranges, chunks, size, overlap, c, next, here, there);
  }

  lemma BothAt(text: string, chunks: seq<Chunk>, at: seq<Interval>, size: nat, overlap: nat, c: nat, next: nat)
    requires ChunksAt(text, chunks, at, size, overlap) && c < |chunks| && next < |chunks|
    ensures ChunkAt(text, chunks[c], at[c], size) && ChunkAt(text, chunks[next], at[next], size)
  {
  }

  lemma SeamOfGroups(text: string, ps: seq<Span>, units: seq<Unit>, ranges: seq<PageRange>, chunks: seq<Chunk>,
                     size: nat, overlap: nat, c: nat, next: nat) returns (i: nat, k: nat, j: nat)
    requires AreUnits(text, ps, units, size, overlap) && IsPacked(units, size, ranges, chunks)
    requires next == c + 1 && next < |chunks|
    ensures i <= k && j == k + 1 && j < |units| && LoadFrom(Loads(units), i, j) <= size
    ensures chunks[c].start == units[i].start && chunks[c].end == units[k].end && chunks[next].start == units[j].start
  {
    var loads := Loads(units);
    var cuts := Greedy(loads, |units|, size);
    UnitsHaveWords(text, ps, units, size, overlap);
    GreedyIsGrouping(loads, |units|, size);
    i, k, j := SeamOfCuts(units, loads, cuts, chunks, PageLookup(ranges), size, c, next);
  }

  lemma SeamOfTwo(text: string, ps: seq<Span>, units: seq<Unit>, ranges: seq<PageRange>, chunks: seq<Chunk>,
                  size: nat, overlap: nat, c: nat, next: nat, here: Interval, there: Interval)
    requires AreUnits(text, ps, units, size, overlap) && IsPacked(units, size, ranges, chunks)
    requires next == c + 1 && next < |chunks|
    requires ChunkAt(text, chunks[c], here, size) && ChunkAt(text, chunks[next], there, size)
    ensures (here.1 == here.0 + size && there.0 + overlap == here.1) || exists j :: EmptyLine(text, chunks[c].end, j)
  {
    var i, k, j := SeamOfGroups(text, ps, units, ranges, chunks, size, overlap, c, next);
    var inside, from, m, n, e := UnitSeam(text, ps, units, size, overlap, k);
    if inside {
      FullUnitIsGroup(text, ps, units, size, overlap, i, k, j);
      SeamInWords(text, units, size, overlap, k, from, m, n, chunks[c], here, chunks[next], there);
    }
  }

  lemma SeamInWords(text: string, units: seq<Unit>, size: nat, overlap: nat, k: nat, from: nat, m: nat, n: nat,
                    c: Chunk, at: Interval, next: Chunk, nextAt: Interval)
    requires k + 1 < |units| && InnerSeam(text, units, k, size, overlap, from, m, n)
    requires ChunkAt(text, c, at, size) && ChunkAt(text, next, nextAt, size)
    requires c.start == units[k].start && c.end == units[k].end && next.start == units[k + 1].start
    ensures at.1 == at.0 + size && nextAt.0 + overlap == at.1
  {
    ChunkStartsWith(text, c, at, size, units[k], from);
    ChunkEndsBefore(text, c, at, size, units[k], m);
    ChunkStartsWith(text, next, nextAt, size, units[k + 1], n);
  }

  // ----- Text without empty lines

  lemma OneUnitPacked(unit: Unit, size: nat, ranges: seq<PageRange>, chunks: seq<Chunk>)
    requires IsPacked([unit], size, ranges, chunks)
    ensures |chunks| == 1 && chunks[0].text == unit.value
  {
    var loads := Loads([unit]);
    assert Greedy(loads, 1, size) == Greedy(loads, 0, size) + [0];
    assert [unit][0..1] == [unit] && Values([unit]) == [unit.value];
  }

  lemma WholeTextUnit(text: string, ps: seq<Span>, units: seq<Unit>, size: nat, overlap: nat)
    requires AreUnits(text, ps, units, size, overlap) && ps == [(0, |text|)] && |WordsOf(text)| <= size
    ensures units == [Unit(0, |text|, text)]
  {
    assert text[0..|text|] == text;
    var parts := ParagraphParts(text, ps, size, overlap);
    assert Flat(parts, 1) == Flat(parts, 0) + parts[0];
  }

  /** What becomes of a text that is one paragraph: one chunk with the whole text, or windows that overlap. */
  ghost predicate OneParagraphChunks(text: string, chunks: seq<Chunk>, at: seq<Interval>, size: nat, overlap: nat) {
    && |at| == |chunks|
    && if |WordsOf(text)| <= size then |chunks| == 1 && chunks[0].text == text
       else forall c | 0 <= c < |chunks| - 1 :: FullAndRepeated(at, c, size, overlap)
  }

  lemma PlainText(text: string, ps: seq<Span>, units: seq<Unit>, ranges: seq<PageRange>, chunks: seq<Chunk>,
                  at: seq<Interval>, size: nat, overlap: nat)
    requires AreUnits(text, ps, units, size, overlap) && IsPacked(units, size, ranges, chunks)
    requires ChunksAt(text, chunks, at, size, overlap) && forall i, j :: !EmptyLine(text, i, j)
    ensures OneParagraphChunks(text, chunks, at, size, overlap)
  {
    OneParagraph(text, ps);
    if |WordsOf(text)| <= size {
      WholeTextUnit(text, ps, units, size, overlap);
      OneUnitPacked(Unit(0, |text|, text), size, ranges, chunks);
    } else {
      forall c | 0 <= c < |chunks| - 1 ensures FullAndRepeated(at, c, size, overlap) {
        ChunkSeam(text, ps, units, ranges, chunks, at, size, overlap, c);
      }
    }
  }

  // ----- The method

  /** Chunks hold at most `size` words each, in order and without gaps; no grouping of the same units has fewer; and the
      error is raised exactly when the fewest possible chunks are more than allowed (one is always allowed). */
  method MakeChunks(text: string, size: nat, overlap: nat, maxChunks: nat, ranges: seq<PageRange>)
    returns (packed: Packed, ps: seq<Span>, units: seq<Unit>, ghost at: seq<Interval>)
    requires Stripped(text) && Limits(size, overlap)
    ensures AreUnits(text, ps, units, size, overlap)
    ensures packed.Chunks? <==> Fits(text, size, overlap, AtLeastOne(maxChunks))
    ensures packed.Chunks? ==> Fewest(Loads(units), size, |packed.chunks|)
    ensures packed.Chunks? ==> IsPacked(units, size, ranges, packed.chunks)
    ensures packed.Chunks? ==> ChunksAt(text, packed.chunks, at, size, overlap)
    ensures packed.Chunks? ==> forall k | 0 <= k < |packed.chunks| :: PagedBy(packed.chunks[k], ranges)
    ensures packed.Chunks? && (forall i, j :: !EmptyLine(text, i, j)) ==>
              OneParagraphChunks(text, packed.chunks, at, size, overlap)
  {
    ghost var unitAt, last;
    units, ps, unitAt, last := BuildUnits(text, size, overlap);
    packed := Pack(units, size, maxChunks, PageLookup(ranges));
    at := [];
    UnitsFit(text, units, unitAt, size);
    FitsByGreedy(text, size, overlap, AtLeastOne(maxChunks), ps, units);
    if packed.Chunks? {
      at := PackedChunks(text, units, unitAt, size, overlap, last, packed.chunks, PageLookup(ranges));
      if forall i, j :: !EmptyLine(text, i, j) {
        PlainText(text, ps, units, ranges, packed.chunks, at, size, overlap);
      }
    }
  }

  // ----- What this means for a reader

  /** The words of a chunk are the words of the text between its offsets. */
  lemma FaithfulOffsets(text: string, c: Chunk, at: Interval, size: nat)
    requires ChunkAt(text, c, at, size)
    ensures c.start < c.end <= |text|
    ensures WordsOf(c.text) == WordsOf(text[c.start..c.end])
    ensures 0 < |WordsOf(c.text)| <= size
    ensures !Blank(text[c.start]) && !Blank(text[c.end - 1])
  {
    var g := AllWords(text);
    IntervalWords(text, 0, |text|, at.0, at.1);
    assert WordAt(text, g[at.0], 0, |text|) && WordAt(text, g[at.1 - 1], 0, |text|);
    if at.0 < at.1 - 1 { WordsAscend(text, 0, |text|, at.0, at.1 - 1); }
    PartWords(text, c.start, c.end);
  }

  /** Starts and ends strictly increase. */
  lemma ChunksAdvance(text: string, chunks: seq<Chunk>, at: seq<Interval>, size: nat, overlap: nat, k: nat)
    requires ChunksAt(text, chunks, at, size, overlap) && k + 1 < |chunks|
    ensures chunks[k].start < chunks[k + 1].start && chunks[k].end < chunks[k + 1].end
  {
    assert ChunkAt(text, chunks[k], at[k], size) && ChunkAt(text, chunks[k + 1], at[k + 1], size);
    assert ChunkLinkAfter(at, k, overlap);
    var g := AllWords(text);
    WordsAscend(text, 0, |text|, at[k].0, at[k + 1].0);
    WordsAscend(text, 0, |text|, at[k].1 - 1, at[k + 1].1 - 1);
    assert WordAt(text, g[at[k].0], 0, |text|) && WordAt(text, g[at[k + 1].1 - 1], 0, |text|);
  }

  /** Every word of the document is in some chunk. */
  lemma {:induction false} EveryWordCovered(text: string, chunks: seq<Chunk>, at: seq<Interval>, size: nat,
                                            overlap: nat, w: nat, n: nat)
    returns (k: nat)
    requires ChunksAt(text, chunks, at, size, overlap) && 0 < n <= |at|
    requires w < at[n - 1].1
    ensures k < n && at[k].0 <= w < at[k].1
    decreases n
  {
    if at[n - 1].0 <= w {
      k := n - 1;
    } else {
      assert n > 1;
      assert ChunkLinkAfter(at, n - 2, overlap);
      k := EveryWordCovered(text, chunks, at, size, overlap, w, n - 1);
    }
  }

  /** A chunk's page range goes from the page of its first character to the page of its last. */
  ghost predicate OnItsPages(pages: seq<string>, leading: nat, c: Chunk) {
    && 1 <= c.pages.first <= c.pages.last <= |pages| && c.start < c.end
    && InPage(pages, c.pages.first - 1, c.start + leading) && InPage(pages, c.pages.last - 1, c.end - 1 + leading)
  }

  lemma ChunkDelimits(text: string, c: Chunk, at: Interval, size: nat)
    requires ChunkAt(text, c, at, size)
    ensures Delimits(text, c.start, c.end)
  {
    FaithfulOffsets(text, c, at, size);
  }

  /** Joining and stripping the pages keeps this true for every chunk, and the fallback to page 1 is not needed. */
  lemma ChunkPages(pages: seq<string>, ranges: seq<PageRange>, text: string, leading: nat, c: Chunk)
    requires text == Strip(Raw(pages)) && leading == LeadingBlanks(Raw(pages))
    requires PageTable(pages, leading, ranges)
    requires Delimits(text, c.start, c.end) && PagedBy(c, ranges)
    ensures OnItsPages(pages, leading, c)
    ensures CoveredPages(ranges, c.start, c.end) != []
  {
    var first, last := Attribution(pages, ranges, text, leading, c.start, c.end);
  }
}
