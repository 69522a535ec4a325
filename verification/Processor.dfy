/** The processor's side: one request, from page texts to the events it sends. */
module Processor {
  import opened ChunkUnits
  import opened ChunkPacking
  import opened PageAttribution
  import opened Chunker
  import opened ProcessStream

  /** The embedding service: vectors for a batch of texts, or a failure. */
  datatype Embedded = Vectors(vectors: seq<Vector>) | NoVectors

  type Embedder = seq<string> -> Embedded

  function TextsOf(items: seq<Item>): seq<string> {
    seq(|items|, i requires 0 <= i < |items| => items[i].text)
  }

  function VectorsOf(items: seq<Item>): seq<Vector> {
    seq(|items|, i requires 0 <= i < |items| => items[i].embedding)
  }

  /** Item i is chunk i. */
  ghost predicate Carries(item: Item, index: nat, c: Chunk) {
    && item.index == index && item.text == c.text && item.start == c.start && item.end == c.end
    && item.pageStart == c.pages.first && item.pageEnd == c.pages.last && |item.embedding| == DIMENSIONS
  }

  ghost predicate InOrder(items: seq<Item>, chunks: seq<Chunk>) {
    |items| <= |chunks| && forall i | 0 <= i < |items| :: Carries(items[i], i, chunks[i])
  }

  /** Batch k - 1 has its number, chunks as many as fit, and the vectors of its texts. */
  ghost predicate BatchSent(e: Event, k: nat, batchSize: nat, embed: Embedder) {
    && e.ChunkBatch? && e.batchIndex == k - 1 && 1 <= |e.items| <= batchSize
    && embed(TextsOf(e.items)) == Vectors(VectorsOf(e.items))
  }

  /** Metadata, then batches; only the last batch may be smaller than the others. */
  ghost predicate Sends(events: seq<Event>, document: string, text: string, pageCount: nat, chunks: seq<Chunk>,
                        batchSize: nat, embed: Embedder) {
    && events != [] && events[0] == Metadata(document, text, pageCount, |chunks|, DIMENSIONS)
    && (forall k | 1 <= k < |events| :: BatchSent(events[k], k, batchSize, embed))
    && (forall k | 1 <= k < |events| - 1 :: |events[k].items| == batchSize)
    && InOrder(Carried(events, |events|), chunks)
  }

  function ChunkTexts(chunks: seq<Chunk>): seq<string> {
    seq(|chunks|, i requires 0 <= i < |chunks| => chunks[i].text)
  }

  /** One vector of the right length for each of n texts. */
  predicate Usable(response: Embedded, n: nat) {
    response.Vectors? && |response.vectors| == n && forall i | 0 <= i < n :: |response.vectors[i]| == DIMENSIONS
  }

  method EmbedBatch(batch: seq<Chunk>, embed: Embedder) returns (ok: bool, vectors: seq<Vector>)
    ensures ok <==> Usable(embed(ChunkTexts(batch)), |batch|)
    ensures ok ==> |vectors| == |batch| && forall i | 0 <= i < |batch| :: |vectors[i]| == 768
    ensures embed(ChunkTexts(batch)).Vectors? && !ok ==>
              var got := embed(ChunkTexts(batch)).vectors;
              |got| != |batch| || exists i :: 0 <= i < |got| && |got[i]| != 768
    ensures ok ==> embed(ChunkTexts(batch)) == Vectors(vectors)
  {
    var response := embed(ChunkTexts(batch));
    if response.NoVectors? || |response.vectors| != |batch| {
      return false, [];
    }
    if exists i :: 0 <= i < |response.vectors| && |response.vectors[i]| != DIMENSIONS {
      return false, [];
    }
    return true, response.vectors;
  }

  function ItemFor(c: Chunk, index: nat, vector: Vector): Item {
    Item(index, c.text, c.start, c.end, c.pages.first, c.pages.last, vector)
  }

  function ItemsFor(batch: seq<Chunk>, first: nat, vectors: seq<Vector>): (items: seq<Item>)
    requires |vectors| == |batch|
    ensures |items| == |batch|
  {
    seq(|batch|, i requires 0 <= i < |batch| => ItemFor(batch[i], first + i, vectors[i]))
  }

  lemma BatchIsSent(batch: seq<Chunk>, first: nat, vectors: seq<Vector>, k: nat, batchSize: nat, embed: Embedder)
    requires |vectors| == |batch| && 1 <= |batch| <= batchSize && k > 0
    requires embed(ChunkTexts(batch)) == Vectors(vectors)
    ensures BatchSent(ChunkBatch(k - 1, ItemsFor(batch, first, vectors)), k, batchSize, embed)
  {
    var items := ItemsFor(batch, first, vectors);
    assert TextsOf(items) == ChunkTexts(batch);
    assert VectorsOf(items) == vectors;
  }

  lemma BatchInOrder(events: seq<Event>, chunks: seq<Chunk>, batch: seq<Chunk>, first: nat, vectors: seq<Vector>,
                     number: nat)
    requires InOrder(Carried(events, |events|), chunks) && first == |Carried(events, |events|)|
    requires first + |batch| <= |chunks| && batch == chunks[first..first + |batch|]
    requires |vectors| == |batch| && forall i | 0 <= i < |vectors| :: |vectors[i]| == DIMENSIONS
    ensures var more := events + [ChunkBatch(number, ItemsFor(batch, first, vectors))];
            InOrder(Carried(more, |more|), chunks) && |Carried(more, |more|)| == first + |batch|
  {
    var more := events + [ChunkBatch(number, ItemsFor(batch, first, vectors))];
    CarriedBySame(events, more, |events|);
    var items := Carried(more, |more|);
    forall i | 0 <= i < |items| ensures Carries(items[i], i, chunks[i]) {
      if i < first {
        assert items[i] == Carried(events, |events|)[i];
      } else {
        assert items[i] == ItemFor(batch[i - first], i, vectors[i - first]);
      }
    }
  }

  lemma Multiples(size: nat, d: int)
    ensures d >= 1 ==> size * d >= size
    ensures d <= -1 ==> size * d + size <= 0
  {
    if d >= 1 {
      assert size * d == size + size * (d - 1);
    } else if d <= -1 {
      assert size * d == size * (d + 1) - size;
    }
  }

  /** Batch k starts at chunk k * size. */
  lemma BatchNumber(start: nat, k: nat, size: nat)
    requires size > 0 && start == k * size
    ensures start / size == k
  {
    var q := start / size;
    assert size * (k - q) == start - size * q;
    Multiples(size, k - q);
  }

  lemma NextStart(k: nat, size: nat)
    ensures k * size + size == (k + 1) * size
  {
  }

  lemma SentOneMore(events: seq<Event>, e: Event, document: string, text: string, pageCount: nat, chunks: seq<Chunk>,
                    batchSize: nat, embed: Embedder)
    requires Sends(events, document, text, pageCount, chunks, batchSize, embed)
    requires |events| > 1 ==> |events[|events| - 1].items| == batchSize
    requires BatchSent(e, |events|, batchSize, embed) && InOrder(Carried(events + [e], |events| + 1), chunks)
    ensures Sends(events + [e], document, text, pageCount, chunks, batchSize, embed)
  {
    var more := events + [e];
    forall k | 1 <= k < |more| ensures BatchSent(more[k], k, batchSize, embed) {
      assert k < |events| ==> more[k] == events[k];
    }
  }

  function BatchFrom(chunks: seq<Chunk>, start: nat, batchSize: nat): seq<Chunk>
    requires start <= |chunks|
  {
    chunks[start..if start + batchSize < |chunks| then start + batchSize else |chunks|]
  }

  /** The embedding service has usable vectors for the batch that starts there. */
  ghost predicate CanEmbed(chunks: seq<Chunk>, start: nat, batchSize: nat, embed: Embedder)
    requires start <= |chunks|
  {
    Usable(embed(ChunkTexts(BatchFrom(chunks, start, batchSize))), |BatchFrom(chunks, start, batchSize)|)
  }

  /** One batch, from chunk `start` on: its number is the start divided by the batch size. */
  method SendBatch(events: seq<Event>, document: string, text: string, pageCount: nat, chunks: seq<Chunk>,
                   batchSize: nat, embed: Embedder, start: nat) returns (ok: bool, more: seq<Event>)
    requires Sends(events, document, text, pageCount, chunks, batchSize, embed) && batchSize > 0
    requires start / batchSize == |events| - 1 && |Carried(events, |events|)| == start < |chunks|
    requires |events| > 1 ==> |events[|events| - 1].items| == batchSize
    ensures ok ==> Sends(more, document, text, pageCount, chunks, batchSize, embed) && |more| == |events| + 1
    ensures ok ==> |Carried(more, |more|)| == if start + batchSize < |chunks| then start + batchSize else |chunks|
    ensures ok && start + batchSize <= |chunks| ==> |more[|events|].items| == batchSize
    ensures ok <==> CanEmbed(chunks, start, batchSize, embed)
    ensures !ok ==> more == events
  {
    var end := if start + batchSize < |chunks| then start + batchSize else |chunks|;
    var batch := chunks[start..end];
    assert batch == BatchFrom(chunks, start, batchSize);
    var vectors;
    ok, vectors := EmbedBatch(batch, embed);
    if !ok {
      return false, events;
    }
    var event := ChunkBatch(start / batchSize, ItemsFor(batch, start, vectors));
    BatchIsSent(batch, start, vectors, |events|, batchSize, embed);
    BatchInOrder(events, chunks, batch, start, vectors, start / batchSize);
    SentOneMore(events, event, document, text, pageCount, chunks, batchSize, embed);
    more := events + [event];
  }

  /** How things stand before a batch: the processor goes on, it is shutting down while the call is open, or the call is
      over. */
  datatype Standing = Going | Draining | CallOver

  /** How the worker sees the stream end when a batch is not sent: the processor closes it, but a call that is over, or
      a batch that could not be embedded, is an error that is worth another attempt. */
  function EndingOf(s: Standing): Ending {
    if s == Draining then EndOfStream else Aborted(false)
  }

  /** How a request ends: the stream is closed, or the call fails. */
  datatype Sent = Sent(events: seq<Event>, ending: Ending)

  /** Batch k, which starts at chunk `start`, is not sent: the processor does not go on, or cannot embed it. */
  ghost predicate StopsAt(chunks: seq<Chunk>, start: nat, k: nat, batchSize: nat, embed: Embedder,
                          standing: nat -> Standing) {
    start < |chunks| && (standing(k) != Going || !CanEmbed(chunks, start, batchSize, embed))
  }

  ghost predicate Stops(chunks: seq<Chunk>, k: nat, batchSize: nat, embed: Embedder, standing: nat -> Standing) {
    StopsAt(chunks, k * batchSize, k, batchSize, embed, standing)
  }

  ghost predicate NoStopBefore(chunks: seq<Chunk>, k: nat, batchSize: nat, embed: Embedder, standing: nat -> Standing) {
    forall j: nat | j < k :: !Stops(chunks, j, batchSize, embed, standing)
  }

  /** Every batch of the document can be sent. */
  ghost predicate NoStop(chunks: seq<Chunk>, batchSize: nat, embed: Embedder, standing: nat -> Standing) {
    forall k: nat :: !Stops(chunks, k, batchSize, embed, standing)
  }

  /** Batch k is the first that is not sent. */
  ghost predicate FirstStop(chunks: seq<Chunk>, k: nat, batchSize: nat, embed: Embedder, standing: nat -> Standing) {
    Stops(chunks, k, batchSize, embed, standing) && NoStopBefore(chunks, k, batchSize, embed, standing)
  }

  /** All chunks were sent because nothing stops them, or all before the first batch that stops, which ended the stream:
      as if all were sent when the processor was shutting down, and with an error otherwise. */
  ghost predicate EndsBy(sent: Sent, chunks: seq<Chunk>, batchSize: nat, embed: Embedder, standing: nat -> Standing)
    requires sent.events != []
  {
    var k := |sent.events| - 1;
    if |Carried(sent.events, |sent.events|)| == |chunks| then
      NoStop(chunks, batchSize, embed, standing) && sent.ending == EndOfStream
    else
      && FirstStop(chunks, k, batchSize, embed, standing)
      && |Carried(sent.events, |sent.events|)| == k * batchSize
      && sent.ending == EndingOf(standing(k))
  }

  lemma NextNoStop(chunks: seq<Chunk>, start: nat, k: nat, next: nat, batchSize: nat, embed: Embedder,
                   standing: nat -> Standing)
    requires NoStopBefore(chunks, k, batchSize, embed, standing) && next == k + 1
    requires start == k * batchSize && !StopsAt(chunks, start, k, batchSize, embed, standing)
    ensures NoStopBefore(chunks, next, batchSize, embed, standing)
  {
  }

  /** The stream ends before batch k. */
  lemma EndsHere(sent: Sent, chunks: seq<Chunk>, start: nat, k: nat, batchSize: nat, embed: Embedder,
                 standing: nat -> Standing)
    requires |sent.events| == k + 1 && start == k * batchSize && |Carried(sent.events, |sent.events|)| == start
    requires NoStopBefore(chunks, k, batchSize, embed, standing)
    requires StopsAt(chunks, start, k, batchSize, embed, standing) && sent.ending == EndingOf(standing(k))
    ensures EndsBy(sent, chunks, batchSize, embed, standing)
  {
  }

  /** Past the last chunk nothing can stop. */
  lemma NoStopAtAll(chunks: seq<Chunk>, k: nat, batchSize: nat, embed: Embedder, standing: nat -> Standing)
    requires NoStopBefore(chunks, k, batchSize, embed, standing) && |chunks| <= k * batchSize
    ensures NoStop(chunks, batchSize, embed, standing)
  {
    forall j: nat ensures !Stops(chunks, j, batchSize, embed, standing) {
      if j >= k { StartsAscend(k, j, batchSize); }
    }
  }

  lemma StartsAscend(k: nat, j: nat, size: nat)
    requires k <= j
    ensures k * size <= j * size
  {
    assert j * size == k * size + (j - k) * size;
  }

  /** Every batch in turn. Before each one the processor looks whether it goes on; if not, it closes the stream as if it
      were complete, which only a call that is still open gets to see. */
  method SendBatches(document: string, text: string, pageCount: nat, chunks: seq<Chunk>, batchSize: nat,
                     embed: Embedder, standing: nat -> Standing) returns (sent: Sent)
    requires batchSize > 0
    ensures Sends(sent.events, document, text, pageCount, chunks, batchSize, embed)
    ensures EndsBy(sent, chunks, batchSize, embed, standing)
  {
    var events := [Metadata(document, text, pageCount, |chunks|, DIMENSIONS)];
    assert Carried(events, 1) == Carried(events, 0) + [];
    var start, k := 0, 0;
    while start < |chunks|
      invariant Sends(events, document, text, pageCount, chunks, batchSize, embed)
      invariant k == |events| - 1 && start == k * batchSize
      invariant NoStopBefore(chunks, k, batchSize, embed, standing)
      invariant |Carried(events, |events|)| == if start < |chunks| then start else |chunks|
      invariant start <= |chunks| && |events| > 1 ==> |events[|events| - 1].items| == batchSize
      decreases |chunks| - start
    {
      BatchNumber(start, k, batchSize);
      NextStart(k, batchSize);
      if standing(start / batchSize) != Going {
        sent := Sent(events, EndingOf(standing(start / batchSize)));
        EndsHere(sent, chunks, start, k, batchSize, embed, standing);
        return;
      }
      var ok;
      ok, events := SendBatch(events, document, text, pageCount, chunks, batchSize, embed, start);
      if !ok {
        sent := Sent(events, Aborted(false));
        EndsHere(sent, chunks, start, k, batchSize, embed, standing);
        return;
      }
      var next := k + 1;
      NextNoStop(chunks, start, k, next, batchSize, embed, standing);
      start, k := start + batchSize, next;
    }
    NoStopAtAll(chunks, k, batchSize, embed, standing);
    return Sent(events, EndOfStream);
  }

  lemma StripStrips(s: string)
    requires Strip(s) != ""
    ensures Stripped(Strip(s))
  {
    assert Strip(s)[0] == s[LeadingBlanks(s)];
    assert Strip(s)[|Strip(s)| - 1] == s[StrippedEnd(s) - 1];
  }

  lemma ChunksOnPages(pages: seq<string>, ranges: seq<PageRange>, text: string, leading: nat, chunks: seq<Chunk>,
                      at: seq<Interval>, size: nat, overlap: nat)
    requires text == Strip(Raw(pages)) && leading == LeadingBlanks(Raw(pages))
    requires PageTable(pages, leading, ranges) && ChunksAt(text, chunks, at, size, overlap)
    requires forall k | 0 <= k < |chunks| :: PagedBy(chunks[k], ranges)
    ensures forall k | 0 <= k < |chunks| :: OnItsPages(pages, leading, chunks[k])
  {
    forall k | 0 <= k < |chunks| ensures OnItsPages(pages, leading, chunks[k]) {
      assert ChunkAt(text, chunks[k], at[k], size) && PagedBy(chunks[k], ranges);
      ChunkDelimits(text, chunks[k], at[k], size);
      ChunkPages(pages, ranges, text, leading, chunks[k]);
    }
  }

  // ----- Extraction limits

  ghost function PageBytes(pages: seq<string>): nat {
    if pages == [] then 0 else ByteLength(pages[0]) + PageBytes(pages[1..])
  }

  /** The extractor counts the bytes of the pages and gives up as soon as they are too many. */
  method CheckPages(pages: seq<string>, maxPages: nat, maxBytes: nat) returns (ok: bool)
    ensures ok <==> |pages| <= maxPages && PageBytes(pages) <= maxBytes
  {
    if |pages| > maxPages {
      return false;
    }
    var total := 0;
    for k := 0 to |pages|
      invariant total <= maxBytes && total + PageBytes(pages[k..]) == PageBytes(pages)
    {
      assert pages[k..][1..] == pages[k + 1..];
      total := total + ByteLength(pages[k]);
      if total > maxBytes {
        return false;
      }
    }
    return true;
  }

  /** What the processor refuses for good. */
  ghost predicate Refused(pages: seq<string>, size: nat, overlap: nat, maxPages: nat, maxBytes: nat, maxChunks: nat) {
    || |pages| > maxPages || PageBytes(pages) > maxBytes
    || Strip(Raw(pages)) == "" || (Limits(size, overlap)
                                   && !Fits(Strip(Raw(pages)), size, overlap, AtLeastOne(maxChunks)))
  }

  /** A request fails for good when the pages are too large, hold no text or make too many chunks; otherwise the events
      carry the chunks of the joined and stripped text. */
  method Process(document: string, pages: seq<string>, size: nat, overlap: nat, maxPages: nat, maxBytes: nat,
                 maxChunks: nat, batchSize: nat, embed: Embedder, standing: nat -> Standing)
    returns (sent: Sent, chunks: seq<Chunk>, ghost at: seq<Interval>)
    requires Limits(size, overlap) && batchSize > 0
    ensures sent.events == [] <==> Refused(pages, size, overlap, maxPages, maxBytes, maxChunks)
    ensures sent.events == [] ==> sent.ending == Aborted(true)
    ensures sent.events != [] ==>
              && Sends(sent.events, document, Strip(Raw(pages)), |pages|, chunks, batchSize, embed)
              && ChunksAt(Strip(Raw(pages)), chunks, at, size, overlap)
              && (forall k | 0 <= k < |chunks| :: OnItsPages(pages, LeadingBlanks(Raw(pages)), chunks[k]))
    ensures sent.events != [] ==>
              IsChunking(pages, size, overlap, chunks) && EndsBy(sent, chunks, batchSize, embed, standing)
  {
    chunks, at := [], [];
    var ok := CheckPages(pages, maxPages, maxBytes);
    if !ok {
      return Sent([], Aborted(true)), [], [];
    }
    var raw := Raw(pages);
    var leading, text := LeadingBlanks(raw), Strip(raw);
    var ranges := PageRanges(pages, leading);
    if text == "" {
      return Sent([], Aborted(true)), [], [];
    }
    StripStrips(raw);
    var packed, ps, units;
    packed, ps, units, at := MakeChunks(text, size, overlap, maxChunks, ranges);
    if packed.TooManyChunks? {
      return Sent([], Aborted(true)), [], [];
    }
    ChunksOnPages(pages, ranges, text, leading, packed.chunks, at, size, overlap);
    chunks := packed.chunks;
    assert IsChunking(pages, size, overlap, chunks);
    sent := SendBatches(document, text, |pages|, chunks, batchSize, embed, standing);
  }
}
