/**
 Packing units into chunks (document-processor/service.py): a unit joins the open chunk while the word limit
 allows, and otherwise closes it. A grouping is given by the indices at which its groups start.
 */
module ChunkPacking {
  import opened Words
  import opened ChunkUnits

  // ----- Groupings

  ghost function LoadFrom(loads: seq<nat>, i: nat, j: nat): nat
    requires i <= j <= |loads|
    decreases j - i
  {
    if i == j then 0 else LoadFrom(loads, i, j - 1) + loads[j - 1]
  }

  lemma {:induction false} LaterStartLessLoad(loads: seq<nat>, i: nat, k: nat, j: nat)
    requires i <= k <= j <= |loads|
    ensures LoadFrom(loads, k, j) <= LoadFrom(loads, i, j)
    decreases j
  {
    if k < j { LaterStartLessLoad(loads, i, k, j - 1); }
  }

  ghost function GroupEnd(cuts: seq<nat>, k: nat, n: nat): nat
    requires k < |cuts|
  {
    if k + 1 < |cuts| then cuts[k + 1] else n
  }

  /** A group with at least one unit. */
  ghost predicate GroupWithin(cuts: seq<nat>, k: nat, n: nat)
    requires k < |cuts|
  {
    cuts[k] < GroupEnd(cuts, k, n) <= n
  }

  /** An order-preserving grouping of the first n units, every group within the limit. Groups may be empty. */
  ghost predicate Grouping(loads: seq<nat>, cuts: seq<nat>, n: nat, limit: nat) {
    && n <= |loads|
    && (n > 0 ==> cuts != [] && cuts[0] == 0)
    && forall k | 0 <= k < |cuts| :: GroupOk(loads, cuts, k, n, limit)
  }

  ghost predicate GroupOk(loads: seq<nat>, cuts: seq<nat>, k: nat, n: nat, limit: nat)
    requires k < |cuts| && n <= |loads|
  {
    cuts[k] <= GroupEnd(cuts, k, n) <= n && LoadFrom(loads, cuts[k], GroupEnd(cuts, k, n)) <= limit
  }

  /** What the packing loop builds. */
  ghost function Greedy(loads: seq<nat>, n: nat, limit: nat): (cuts: seq<nat>)
    requires n <= |loads|
    ensures n == 0 <==> cuts == []
    ensures n > 0 ==> cuts[0] == 0 && cuts[|cuts| - 1] < n
  {
    if n == 0 then []
    else
      var before := Greedy(loads, n - 1, limit);
      if before != [] && LoadFrom(loads, before[|before| - 1], n - 1) + loads[n - 1] <= limit then before
      else before + [n - 1]
  }

  /** When every unit fits by itself, the greedy grouping is a grouping, and no group is empty. */
  lemma {:induction false} GreedyIsGrouping(loads: seq<nat>, n: nat, limit: nat)
    requires n <= |loads| && forall i | 0 <= i < n :: loads[i] <= limit
    ensures Grouping(loads, Greedy(loads, n, limit), n, limit)
    ensures forall k | 0 <= k < |Greedy(loads, n, limit)| :: GroupWithin(Greedy(loads, n, limit), k, n)
  {
    if n > 0 {
      GreedyIsGrouping(loads, n - 1, limit);
      var before, cuts := Greedy(loads, n - 1, limit), Greedy(loads, n, limit);
      forall k | 0 <= k < |cuts|
        ensures GroupWithin(cuts, k, n) && GroupOk(loads, cuts, k, n, limit)
      {
        if k < |before| {
          assert GroupWithin(before, k, n - 1) && GroupOk(loads, before, k, n - 1, limit);
          assert cuts[k] == before[k];
          assert k + 1 < |before| ==> GroupEnd(cuts, k, n) == GroupEnd(before, k, n - 1);
        } else {
          assert LoadFrom(loads, n - 1, n) == LoadFrom(loads, n - 1, n - 1) + loads[n - 1];
        }
      }
    }
  }

  lemma {:induction false} CutsAscend(loads: seq<nat>, cuts: seq<nat>, n: nat, limit: nat, i: nat, j: nat)
    requires Grouping(loads, cuts, n, limit) && i <= j < |cuts|
    ensures cuts[i] <= cuts[j] <= n
    decreases j
  {
    assert GroupOk(loads, cuts, j, n, limit);
    if i < j {
      CutsAscend(loads, cuts, n, limit, i, j - 1);
      assert GroupOk(loads, cuts, j - 1, n, limit);
    }
  }

  /** Without its last group, a grouping groups the units before it. */
  lemma DropLast(loads: seq<nat>, cuts: seq<nat>, n: nat, limit: nat)
    requires Grouping(loads, cuts, n, limit) && cuts != [] && cuts[|cuts| - 1] > 0
    ensures cuts[|cuts| - 1] <= n && Grouping(loads, cuts[..|cuts| - 1], cuts[|cuts| - 1], limit)
  {
    var last := |cuts| - 1;
    var m, rest := cuts[last], cuts[..last];
    CutsAscend(loads, cuts, n, limit, last, last);
    forall k | 0 <= k < |rest| ensures GroupOk(loads, rest, k, m, limit) {
      assert GroupOk(loads, cuts, k, n, limit);
      assert GroupEnd(rest, k, m) == GroupEnd(cuts, k, n) == cuts[k + 1];
      CutsAscend(loads, cuts, n, limit, k + 1, last);
    }
  }

  /** Without the last unit of a last group that has others, the starts stay the same. */
  lemma Shorten(loads: seq<nat>, cuts: seq<nat>, n: nat, limit: nat)
    requires Grouping(loads, cuts, n, limit) && n > 1 && cuts[|cuts| - 1] < n - 1
    ensures Grouping(loads, cuts, n - 1, limit)
  {
    var last, m := |cuts| - 1, n - 1;
    forall k | 0 <= k < |cuts| ensures GroupOk(loads, cuts, k, m, limit) {
      assert GroupOk(loads, cuts, k, n, limit);
      if k < last {
        CutsAscend(loads, cuts, n, limit, k + 1, last);
      }
    }
  }

  /** `cuts` has fewer groups than `other`, or equally many with the last one starting no earlier. */
  ghost predicate Ahead(cuts: seq<nat>, other: seq<nat>) {
    |cuts| < |other| || (|cuts| == |other| && (cuts == [] || cuts[|cuts| - 1] >= other[|other| - 1]))
  }

  /** One more unit: the last group of `other` is that unit alone. */
  lemma AheadAfterNewGroup(loads: seq<nat>, n: nat, limit: nat, other: seq<nat>)
    requires 0 < n <= |loads| && other != [] && other[|other| - 1] == n - 1
    requires Ahead(Greedy(loads, n - 1, limit), other[..|other| - 1])
    ensures Ahead(Greedy(loads, n, limit), other)
  {
  }

  /** One more unit: the last group of `other` took it in. */
  lemma AheadAfterLongerGroup(loads: seq<nat>, n: nat, limit: nat, other: seq<nat>)
    requires 1 < n <= |loads| && other != [] && other[|other| - 1] < n - 1
    requires LoadFrom(loads, other[|other| - 1], n) <= limit
    requires Ahead(Greedy(loads, n - 1, limit), other)
    ensures Ahead(Greedy(loads, n, limit), other)
  {
    var before := Greedy(loads, n - 1, limit);
    if |before| == |other| {
      LaterStartLessLoad(loads, other[|other| - 1], before[|other| - 1], n - 1);
    }
  }

  /** No grouping has fewer groups, and with equally many none has its last group starting later. */
  lemma {:induction false} GreedyIsOptimal(loads: seq<nat>, n: nat, limit: nat, other: seq<nat>)
    requires Grouping(loads, other, n, limit)
    ensures Ahead(Greedy(loads, n, limit), other)
    ensures |Greedy(loads, n, limit)| <= |other|
    decreases n, |other|
  {
    if n > 0 {
      var last := |other| - 1;
      var start := other[last];
      assert GroupOk(loads, other, last, n, limit);
      if start == n {
        DropLast(loads, other, n, limit);
        GreedyIsOptimal(loads, n, limit, other[..last]);
      } else if start == n - 1 {
        if n > 1 {
          DropLast(loads, other, n, limit);
          GreedyIsOptimal(loads, n - 1, limit, other[..last]);
        }
        AheadAfterNewGroup(loads, n, limit, other);
      } else {
        Shorten(loads, other, n, limit);
        GreedyIsOptimal(loads, n - 1, limit, other);
        AheadAfterLongerGroup(loads, n, limit, other);
      }
    }
  }

  /** More units never need fewer groups. */
  lemma {:induction false} GreedyGrows(loads: seq<nat>, m: nat, n: nat, limit: nat)
    requires m <= n <= |loads|
    ensures |Greedy(loads, m, limit)| <= |Greedy(loads, n, limit)|
    decreases n
  {
    if m < n { GreedyGrows(loads, m, n - 1, limit); }
  }

  // ----- The packing loop

  /** First and last page. */
  datatype Pages = Pages(first: nat, last: nat)

  /** The page range of an offset interval, computed from the page table that the caller has at hand. */
  type PagesOf = (nat, nat) -> Pages

  datatype Chunk = Chunk(text: string, start: nat, end: nat, pages: Pages)

  datatype Packed = Chunks(chunks: seq<Chunk>) | TooManyChunks

  ghost function Loads(units: seq<Unit>): (loads: seq<nat>)
    ensures |loads| == |units| && forall i | 0 <= i < |units| :: loads[i] == Load(units[i])
  {
    seq(|units|, i requires 0 <= i < |units| => Load(units[i]))
  }

  function Values(units: seq<Unit>): (values: seq<string>)
    ensures |values| == |units|
  {
    seq(|units|, i requires 0 <= i < |units| => units[i].value)
  }

  /** The chunk that units i to j - 1 make. */
  ghost function ChunkOf(units: seq<Unit>, i: nat, j: nat, pages: PagesOf): Chunk
    requires i < j <= |units|
  {
    Chunk(Join(Values(units[i..j]), "\n\n"), units[i].start, units[j - 1].end, pages(units[i].start, units[j - 1].end))
  }

  /** Group k makes this chunk. */
  ghost predicate IsGroupChunk(units: seq<Unit>, cuts: seq<nat>, n: nat, k: nat, c: Chunk, pages: PagesOf) {
    && k < |cuts| && n <= |units| && GroupWithin(cuts, k, n)
    && c == ChunkOf(units, cuts[k], GroupEnd(cuts, k, n), pages)
  }

  /** The chunks of the first |chunks| groups. */
  ghost predicate ChunksOf(units: seq<Unit>, cuts: seq<nat>, n: nat, chunks: seq<Chunk>, pages: PagesOf) {
    && |chunks| <= |cuts| && n <= |units|
    && forall k | 0 <= k < |chunks| :: IsGroupChunk(units, cuts, n, k, chunks[k], pages)
  }

  lemma ChunkOfGroup(units: seq<Unit>, cuts: seq<nat>, n: nat, chunks: seq<Chunk>, pages: PagesOf, k: nat)
    returns (i: nat, j: nat)
    requires ChunksOf(units, cuts, n, chunks, pages) && k < |chunks|
    ensures i == cuts[k] && j == GroupEnd(cuts, k, n) && i < j <= n && chunks[k] == ChunkOf(units, i, j, pages)
  {
    assert IsGroupChunk(units, cuts, n, k, chunks[k], pages);
    i, j := cuts[k], GroupEnd(cuts, k, n);
  }

  lemma CloseChunk(units: seq<Unit>, cuts: seq<nat>, n: nat, chunks: seq<Chunk>, pages: PagesOf)
    requires cuts != [] && |chunks| == |cuts| - 1 && ChunksOf(units, cuts, n, chunks, pages)
    requires cuts[|cuts| - 1] < n
    ensures ChunksOf(units, cuts, n, chunks + [ChunkOf(units, cuts[|cuts| - 1], n, pages)], pages)
    ensures n < |units| ==>
              ChunksOf(units, cuts + [n], n + 1, chunks + [ChunkOf(units, cuts[|cuts| - 1], n, pages)], pages)
  {
    var last := |cuts| - 1;
    var closed := chunks + [ChunkOf(units, cuts[last], n, pages)];
    if n < |units| {
      var more := cuts + [n];
      forall k | 0 <= k < |closed| ensures IsGroupChunk(units, more, n + 1, k, closed[k], pages) {
        assert k < last ==> IsGroupChunk(units, cuts, n, k, chunks[k], pages);
        assert GroupEnd(more, k, n + 1) == GroupEnd(cuts, k, n);
      }
    }
  }

  lemma ExtendChunk(units: seq<Unit>, cuts: seq<nat>, n: nat, chunks: seq<Chunk>, pages: PagesOf)
    requires |chunks| < |cuts| && ChunksOf(units, cuts, n, chunks, pages) && n < |units|
    ensures ChunksOf(units, cuts, n + 1, chunks, pages)
  {
    forall k | 0 <= k < |chunks| ensures IsGroupChunk(units, cuts, n + 1, k, chunks[k], pages) {
      assert IsGroupChunk(units, cuts, n, k, chunks[k], pages);
      assert GroupEnd(cuts, k, n + 1) == GroupEnd(cuts, k, n);
    }
  }

  function AtLeastOne(n: nat): nat { if n == 0 then 1 else n }

  /** The variables of the loop: the chunks so far and the open one. */
  datatype Builder = Builder(result: seq<Chunk>, start: nat, end: nat, parts: seq<string>, tokens: nat)
  {
    function Closed(pages: PagesOf): Chunk {
      Chunk(Join(parts, "\n\n"), start, end, pages(start, end))
    }
  }

  /** The open chunk holds units `from` to i - 1. */
  ghost predicate Open(units: seq<Unit>, from: nat, i: nat, b: Builder) {
    && from < i <= |units|
    && b.start == units[from].start && b.end == units[i - 1].end
    && b.parts == Values(units[from..i]) && b.parts != []
    && b.tokens == LoadFrom(Loads(units), from, i)
  }

  /** The loop after i units, grouped by `cuts`: all groups but the last are chunks, and the last is open. */
  ghost predicate State(units: seq<Unit>, cuts: seq<nat>, maxChunks: nat, pages: PagesOf, i: nat, b: Builder) {
    && i <= |units|
    && ChunksOf(units, cuts, i, b.result, pages)
    && (b.result != [] ==> |b.result| < maxChunks)
    && (i == 0 ==> b == Builder([], 0, 0, [], 0))
    && (i > 0 ==> |b.result| == |cuts| - 1 && Open(units, cuts[|cuts| - 1], i, b))
  }

  lemma OneUnitOpen(units: seq<Unit>, i: nat, result: seq<Chunk>)
    requires i < |units|
    ensures Open(units, i, i + 1, Builder(result, units[i].start, units[i].end, [units[i].value], Load(units[i])))
  {
    assert units[i..i + 1] == [units[i]];
    assert LoadFrom(Loads(units), i, i + 1) == LoadFrom(Loads(units), i, i) + Load(units[i]);
  }

  lemma OpenMore(units: seq<Unit>, from: nat, i: nat, b: Builder)
    requires Open(units, from, i, b) && i < |units|
    ensures Open(units, from, i + 1, b.(end := units[i].end, parts := b.parts + [units[i].value],
                                        tokens := b.tokens + Load(units[i])))
  {
    assert units[from..i + 1] == units[from..i] + [units[i]];
  }

  lemma OpenCloses(units: seq<Unit>, from: nat, i: nat, b: Builder, pages: PagesOf)
    requires Open(units, from, i, b)
    ensures b.Closed(pages) == ChunkOf(units, from, i, pages)
  {
  }

  /** The loop after i units: they are grouped greedily. */
  ghost predicate Placed(units: seq<Unit>, size: nat, maxChunks: nat, pages: PagesOf, i: nat, b: Builder) {
    i <= |units| && State(units, Greedy(Loads(units), i, size), maxChunks, pages, i, b)
  }

  /** The open chunk is closed and the next unit opens another one. */
  lemma Reopened(units: seq<Unit>, cuts: seq<nat>, maxChunks: nat, pages: PagesOf, i: nat, b: Builder)
    requires 0 < i < |units| && State(units, cuts, maxChunks, pages, i, b) && |b.result| + 1 < maxChunks
    ensures State(units, cuts + [i], maxChunks, pages, i + 1,
                  Builder(b.result + [b.Closed(pages)], units[i].start, units[i].end, [units[i].value], Load(units[i])))
  {
    OpenCloses(units, cuts[|cuts| - 1], i, b, pages);
    CloseChunk(units, cuts, i, b.result, pages);
    OneUnitOpen(units, i, b.result + [b.Closed(pages)]);
  }

  /** The open chunk takes in the next unit. */
  lemma Extended(units: seq<Unit>, cuts: seq<nat>, maxChunks: nat, pages: PagesOf, i: nat, b: Builder)
    requires 0 < i < |units| && State(units, cuts, maxChunks, pages, i, b)
    ensures State(units, cuts, maxChunks, pages, i + 1,
                  b.(end := units[i].end, parts := b.parts + [units[i].value], tokens := b.tokens + Load(units[i])))
  {
    OpenMore(units, cuts[|cuts| - 1], i, b);
    ExtendChunk(units, cuts, i, b.result, pages);
  }

  lemma Opened(units: seq<Unit>, maxChunks: nat, pages: PagesOf)
    requires units != []
    ensures State(units, [0], maxChunks, pages, 1,
                  Builder([], units[0].start, units[0].end, [units[0].value], Load(units[0])))
  {
    OneUnitOpen(units, 0, []);
  }

  /** Whether the next unit fits is what the greedy grouping asks. */
  lemma GreedyNext(units: seq<Unit>, size: nat, maxChunks: nat, pages: PagesOf, i: nat, b: Builder)
    requires i < |units| && Placed(units, size, maxChunks, pages, i, b)
    ensures var cuts := Greedy(Loads(units), i, size);
            && (b.parts == [] <==> i == 0) && (i == 0 ==> b.result == [])
            && (i > 0 ==> |cuts| == |b.result| + 1)
            && Greedy(Loads(units), i + 1, size)
               == if i == 0 then [0] else if b.tokens + Load(units[i]) > size then cuts + [i] else cuts
  {
  }

  /** One round of the loop that does not fail keeps the state; one that fails has closed as many chunks as are
      allowed. */
  method Place(units: seq<Unit>, size: nat, maxChunks: nat, pages: PagesOf, i: nat, after: nat, b: Builder)
    returns (ok: bool, next: Builder)
    requires after == i + 1 <= |units| && Placed(units, size, maxChunks, pages, i, b)
    ensures ok ==> Placed(units, size, maxChunks, pages, after, next)
    ensures !ok ==> |Greedy(Loads(units), after, size)| > AtLeastOne(maxChunks)
  {
    var unit := units[i];
    var tokens := Load(unit);
    ghost var cuts := Greedy(Loads(units), i, size);
    GreedyNext(units, size, maxChunks, pages, i, b);
    if b.parts != [] && b.tokens + tokens > size {
      var result := b.result + [b.Closed(pages)];
      if |result| >= maxChunks {
        return false, b;
      }
      Reopened(units, cuts, maxChunks, pages, i, b);
      next := Builder(result, unit.start, unit.end, [unit.value], tokens);
    } else if b.parts == [] {
      Opened(units, maxChunks, pages);
      next := Builder(b.result, unit.start, unit.end, [unit.value], tokens);
    } else {
      Extended(units, cuts, maxChunks, pages, i, b);
      next := b.(end := unit.end, parts := b.parts + [unit.value], tokens := b.tokens + tokens);
    }
    return true, next;
  }

  lemma StateEnd(units: seq<Unit>, cuts: seq<nat>, maxChunks: nat, pages: PagesOf, b: Builder)
    requires units != [] && State(units, cuts, maxChunks, pages, |units|, b)
    ensures b.parts != []
    ensures var chunks := b.result + [b.Closed(pages)];
            |chunks| == |cuts| <= AtLeastOne(maxChunks) && ChunksOf(units, cuts, |units|, chunks, pages)
  {
    OpenCloses(units, cuts[|cuts| - 1], |units|, b, pages);
    CloseChunk(units, cuts, |units|, b.result, pages);
  }

  lemma NothingPlaced(units: seq<Unit>, size: nat, maxChunks: nat, pages: PagesOf)
    ensures Placed(units, size, maxChunks, pages, 0, Builder([], 0, 0, [], 0))
  {
  }

  /** The loop over the units; it stops early exactly when the greedy grouping is too large. */
  method PlaceAll(units: seq<Unit>, size: nat, maxChunks: nat, pages: PagesOf) returns (ok: bool, b: Builder)
    ensures ok ==> Placed(units, size, maxChunks, pages, |units|, b)
    ensures !ok ==> |Greedy(Loads(units), |units|, size)| > AtLeastOne(maxChunks)
  {
    b := Builder([], 0, 0, [], 0);
    NothingPlaced(units, size, maxChunks, pages);
    var i := 0;
    while i < |units|
      invariant Placed(units, size, maxChunks, pages, i, b)
    {
      var next := i + 1;
      ok, b := Place(units, size, maxChunks, pages, i, next, b);
      if !ok {
        GreedyGrows(Loads(units), next, |units|, size);
        return;
      }
      i := next;
    }
    ok := true;
  }

  /** The chunks are those of the greedy grouping, and the error comes exactly when there are more than allowed. */
  method Pack(units: seq<Unit>, size: nat, maxChunks: nat, pages: PagesOf) returns (packed: Packed)
    ensures packed.TooManyChunks? <==> |Greedy(Loads(units), |units|, size)| > AtLeastOne(maxChunks)
    ensures packed.Chunks? ==> |packed.chunks| == |Greedy(Loads(units), |units|, size)|
    ensures packed.Chunks? ==> ChunksOf(units, Greedy(Loads(units), |units|, size), |units|, packed.chunks, pages)
  {
    var ok, b := PlaceAll(units, size, maxChunks, pages);
    if !ok {
      return TooManyChunks;
    }
    if b.parts == [] {
      return Chunks([]);
    }
    StateEnd(units, Greedy(Loads(units), |units|, size), maxChunks, pages, b);
    return Chunks(b.result + [b.Closed(pages)]);
  }
}
