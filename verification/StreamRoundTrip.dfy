/**
 From the processor's chunks to the worker's rows: what is sent completely within the limits is stored as it was, and
 nothing less is accepted.
 */
module StreamRoundTrip {
  import opened Words
  import opened ChunkUnits
  import opened ChunkPacking
  import opened PageAttribution
  import opened Chunker
  import opened ProcessStream
  import opened Processor

  ghost predicate MetadataAllowed(text: string, pageCount: nat, chunkCount: nat) {
    pageCount <= MAX_PAGES && ByteLength(text) <= MAX_TEXT_BYTES && chunkCount <= MAX_STREAM_CHUNKS
  }

  /** The worker's own limits on a document that the processor lets through. */
  ghost predicate WithinLimits(text: string, pageCount: nat, chunks: seq<Chunk>) {
    && MetadataAllowed(text, pageCount, |chunks|)
    && forall k | 0 <= k < |chunks| :: ByteLength(chunks[k].text) <= MAX_CHUNK_BYTES
  }

  ghost predicate SentAll(events: seq<Event>, chunks: seq<Chunk>) {
    |Carried(events, |events|)| == |chunks|
  }

  /** A chunk as the chunker makes it: some text, and pages of the document. */
  ghost predicate Sound(c: Chunk, pageCount: nat) {
    c.text != "" && 1 <= c.pages.first <= c.pages.last <= pageCount
  }

  ghost predicate Holds(row: Row, i: nat, c: Chunk) {
    && row.chunkIndex == i && row.text == c.text && row.start == c.start && row.end == c.end
    && row.pageStart == c.pages.first && row.pageEnd == c.pages.last && |row.embedding| == DIMENSIONS
  }

  /** Row i holds chunk i. */
  ghost predicate Stored(rows: seq<Row>, chunks: seq<Chunk>) {
    |rows| == |chunks| && forall i | 0 <= i < |rows| :: Holds(rows[i], i, chunks[i])
  }

  /** Every batch carries something, so there are no more batches than chunks. */
  lemma {:induction false} BatchesBounded(events: seq<Event>, n: nat)
    requires 0 < n <= |events| && forall k | 1 <= k < n :: |ItemsOf(events[k])| >= 1
    ensures |Carried(events, n)| >= n - 1
    decreases n
  {
    if n > 1 { BatchesBounded(events, n - 1); }
  }

  lemma SomeBytes(s: string)
    ensures ByteLength(s) >= 1 <==> s != ""
  {
  }

  lemma BatchValid(events: seq<Event>, k: nat, batchSize: nat, embed: Embedder)
    requires 0 < k < |events| && BatchSent(events[k], k, batchSize, embed) && k <= UINT32
    ensures ValidBatch(events, k)
  {
  }

  ghost predicate SmallTexts(chunks: seq<Chunk>, n: nat)
    requires n <= |chunks|
  {
    forall k | 0 <= k < n :: ByteLength(chunks[k].text) <= MAX_CHUNK_BYTES
  }

  lemma ItemsValid(events: seq<Event>, chunks: seq<Chunk>, pageCount: nat)
    requires InOrder(Carried(events, |events|), chunks)
    requires forall k | 0 <= k < |chunks| :: Sound(chunks[k], pageCount)
    ensures AllValid(Carried(events, |events|), pageCount) <==> SmallTexts(chunks, |Carried(events, |events|)|)
  {
    var items := Carried(events, |events|);
    forall i | 0 <= i < |items|
      ensures ValidItem(items[i], i, pageCount) <==> ByteLength(chunks[i].text) <= MAX_CHUNK_BYTES
    {
      assert Carries(items[i], i, chunks[i]) && Sound(chunks[i], pageCount);
      SomeBytes(chunks[i].text);
    }
    if AllValid(items, pageCount) {
      forall k | 0 <= k < |items| ensures ByteLength(chunks[k].text) <= MAX_CHUNK_BYTES {
        assert ValidItem(items[k], k, pageCount);
      }
    }
  }

  /** With metadata that the worker takes, nothing that the processor sent is wrong unless a text is too long. */
  lemma SentStreamValid(events: seq<Event>, document: string, text: string, pageCount: nat, chunks: seq<Chunk>,
                        batchSize: nat, embed: Embedder)
    requires Sends(events, document, text, pageCount, chunks, batchSize, embed)
    requires MetadataAllowed(text, pageCount, |chunks|)
    requires 1 <= pageCount && forall k | 0 <= k < |chunks| :: Sound(chunks[k], pageCount)
    ensures ValidSoFar(events, |events|, document) <==> SmallTexts(chunks, |Carried(events, |events|)|)
  {
    ItemsValid(events, chunks, pageCount);
    forall k | 1 <= k < |events| ensures |ItemsOf(events[k])| >= 1 {
      assert BatchSent(events[k], k, batchSize, embed);
    }
    BatchesBounded(events, |events|);
    forall k | 1 <= k < |events| ensures ValidBatch(events, k) {
      BatchValid(events, k, batchSize, embed);
    }
  }

  /** A stream that was sent to the end is complete for the worker exactly when the document keeps the worker's
      limits. */
  lemma SentStreamComplete(events: seq<Event>, document: string, text: string, pageCount: nat, chunks: seq<Chunk>,
                           batchSize: nat, embed: Embedder)
    requires Sends(events, document, text, pageCount, chunks, batchSize, embed) && SentAll(events, chunks)
    requires 1 <= pageCount && forall k | 0 <= k < |chunks| :: Sound(chunks[k], pageCount)
    ensures Complete(events, document) <==> WithinLimits(text, pageCount, chunks)
  {
    ItemsValid(events, chunks, pageCount);
    if WithinLimits(text, pageCount, chunks) {
      SentStreamValid(events, document, text, pageCount, chunks, batchSize, embed);
    }
  }

  lemma RowsHold(items: seq<Item>, chunks: seq<Chunk>)
    requires InOrder(items, chunks) && |items| == |chunks|
    ensures Stored(RowsOf(items), chunks)
  {
    forall i | 0 <= i < |items| ensures Holds(RowsOf(items)[i], i, chunks[i]) {
      assert Carries(items[i], i, chunks[i]);
    }
  }

  /** What is accepted of a stream sent to the end is the chunk list. */
  lemma StoredAsSent(events: seq<Event>, chunks: seq<Chunk>)
    requires InOrder(Carried(events, |events|), chunks) && SentAll(events, chunks)
    ensures Stored(RowsOf(Carried(events, |events|)), chunks)
  {
    RowsHold(Carried(events, |events|), chunks);
  }

  /** Fewer events carry fewer chunks. */
  lemma FewerChunks(events: seq<Event>, n: nat)
    requires 0 < n < |events| && forall k | 1 <= k < |events| :: |ItemsOf(events[k])| >= 1
    ensures |Carried(events[..n], n)| < |Carried(events, |events|)|
  {
    CarriedBySame(events, events[..n], n);
    CarriedGrows(events, n + 1, |events|);
    assert Carried(events, n + 1) == Carried(events, n) + ItemsOf(events[n]);
  }

  /** Every proper prefix of what the processor sends is refused, wherever the stream is cut. */
  lemma PrefixIncomplete(events: seq<Event>, n: nat, document: string, text: string, pageCount: nat, chunks: seq<Chunk>,
                         batchSize: nat, embed: Embedder)
    requires Sends(events, document, text, pageCount, chunks, batchSize, embed) && n < |events|
    ensures !Complete(events[..n], document)
  {
    if n > 0 {
      forall k | 1 <= k < |events| ensures |ItemsOf(events[k])| >= 1 {
        assert BatchSent(events[k], k, batchSize, embed);
      }
      FewerChunks(events, n);
    }
  }

  lemma ChunksSound(text: string, pages: seq<string>, leading: nat, chunks: seq<Chunk>, at: seq<Interval>, size: nat,
                    overlap: nat)
    requires ChunksAt(text, chunks, at, size, overlap)
    requires forall k | 0 <= k < |chunks| :: OnItsPages(pages, leading, chunks[k])
    ensures |pages| >= 1
    ensures forall k | 0 <= k < |chunks| :: Sound(chunks[k], |pages|)
  {
    assert OnItsPages(pages, leading, chunks[0]);
    forall k | 0 <= k < |chunks| ensures Sound(chunks[k], |pages|) {
      assert ChunkAt(text, chunks[k], at[k], size) && OnItsPages(pages, leading, chunks[k]);
      FaithfulOffsets(text, chunks[k], at[k], size);
      assert SpansIn("", 0, 0) == [];
    }
  }

  lemma Outcome(document: string, pages: seq<string>, text: string, leading: nat, events: seq<Event>,
                chunks: seq<Chunk>, at: seq<Interval>, size: nat, overlap: nat, batchSize: nat, embed: Embedder)
    requires Sends(events, document, text, |pages|, chunks, batchSize, embed)
             && ChunksAt(text, chunks, at, size, overlap)
    requires forall k | 0 <= k < |chunks| :: OnItsPages(pages, leading, chunks[k])
    ensures Complete(events, document) <==> SentAll(events, chunks) && WithinLimits(text, |pages|, chunks)
    ensures SentAll(events, chunks) ==> Stored(RowsOf(Carried(events, |events|)), chunks)
    ensures MetadataAllowed(text, |pages|, |chunks|) ==>
              && |Carried(events, |events|)| <= MAX_STREAM_CHUNKS
              && (ValidSoFar(events, |events|, document) <==> SmallTexts(chunks, |Carried(events, |events|)|))
    ensures events[0].text == text && events[0].pageCount == |pages|
  {
    ChunksSound(text, pages, leading, chunks, at, size, overlap);
    if SentAll(events, chunks) {
      SentStreamComplete(events, document, text, |pages|, chunks, batchSize, embed);
      StoredAsSent(events, chunks);
    }
    if MetadataAllowed(text, |pages|, |chunks|) {
      SentStreamValid(events, document, text, |pages|, chunks, batchSize, embed);
    }
  }

  /** Some batch is the first that is not sent, because the processor is shutting down, or for another reason. */
  ghost predicate StopsWhere(chunks: seq<Chunk>, batchSize: nat, embed: Embedder, standing: nat -> Standing,
                             draining: bool) {
    exists k: nat :: FirstStop(chunks, k, batchSize, embed, standing) && (standing(k) == Draining) == draining
  }

  /** Chunk i is too long for the worker, and lies in one of the first n batches. */
  ghost predicate TooLong(chunks: seq<Chunk>, i: nat, n: nat, batchSize: nat) {
    i < |chunks| && i < n * batchSize && ByteLength(chunks[i].text) > MAX_CHUNK_BYTES
  }

  /** A chunk that is too long for the worker was sent before anything stopped. */
  ghost predicate TooLongSent(chunks: seq<Chunk>, batchSize: nat, embed: Embedder, standing: nat -> Standing) {
    exists n: nat, i: nat :: NoStopBefore(chunks, n, batchSize, embed, standing) && TooLong(chunks, i, n, batchSize)
  }

  /** What becomes of a document that the processor lets through and whose metadata the worker takes: it is stored if
      and only if no batch stops and no chunk is too long. A chunk that is too long fails it for good once it was sent.
      Otherwise the first batch that stops decides: a processor that was shutting down fails it for good, and everything
      else leaves the job for another attempt. */
  ghost predicate DecidedByBatches(chunks: seq<Chunk>, batchSize: nat, embed: Embedder, standing: nat -> Standing,
                                   received: Received) {
    var tooLong := TooLongSent(chunks, batchSize, embed, standing);
    && (received.Accepted? <==> NoStop(chunks, batchSize, embed, standing) && SmallTexts(chunks, |chunks|))
    && (received == Rejected(false) <==> StopsWhere(chunks, batchSize, embed, standing, false) && !tooLong)
    && (received == Rejected(true) <==> StopsWhere(chunks, batchSize, embed, standing, true) || tooLong)
  }

  lemma OnlyOneFirstStop(chunks: seq<Chunk>, k: nat, batchSize: nat, embed: Embedder, standing: nat -> Standing)
    requires FirstStop(chunks, k, batchSize, embed, standing)
    ensures !NoStop(chunks, batchSize, embed, standing)
    ensures StopsWhere(chunks, batchSize, embed, standing, standing(k) == Draining)
    ensures !StopsWhere(chunks, batchSize, embed, standing, standing(k) != Draining)
  {
    assert forall j: nat | FirstStop(chunks, j, batchSize, embed, standing) :: j == k;
  }

  /** Within the worker's limits only the first stop decides. */
  lemma StopsDecide(text: string, pageCount: nat, chunks: seq<Chunk>, batchSize: nat, embed: Embedder,
                    standing: nat -> Standing, received: Received)
    requires WithinLimits(text, pageCount, chunks) && DecidedByBatches(chunks, batchSize, embed, standing, received)
    ensures received.Accepted? <==> NoStop(chunks, batchSize, embed, standing)
    ensures received == Rejected(false) <==> StopsWhere(chunks, batchSize, embed, standing, false)
    ensures received == Rejected(true) <==> StopsWhere(chunks, batchSize, embed, standing, true)
  {
    assert !TooLongSent(chunks, batchSize, embed, standing);
  }

  lemma InFirstBatches(i: nat, n: nat, batchSize: nat)
    requires batchSize > 0 && i < n
    ensures i < n * batchSize
  {
    StartsAscend(1, batchSize, n);
  }

  lemma AllSent(chunks: seq<Chunk>, batchSize: nat, embed: Embedder, standing: nat -> Standing)
    requires batchSize > 0 && NoStop(chunks, batchSize, embed, standing)
    ensures TooLongSent(chunks, batchSize, embed, standing) <==> !SmallTexts(chunks, |chunks|)
  {
    if !SmallTexts(chunks, |chunks|) {
      var i: nat :| i < |chunks| && ByteLength(chunks[i].text) > MAX_CHUNK_BYTES;
      var n := i + 1;
      InFirstBatches(i, n, batchSize);
      assert NoStopBefore(chunks, n, batchSize, embed, standing) && TooLong(chunks, i, n, batchSize);
    }
  }

  lemma SentBefore(chunks: seq<Chunk>, k: nat, count: nat, batchSize: nat, embed: Embedder, standing: nat -> Standing)
    requires FirstStop(chunks, k, batchSize, embed, standing) && count == k * batchSize <= |chunks|
    ensures TooLongSent(chunks, batchSize, embed, standing) <==> !SmallTexts(chunks, count)
  {
    if TooLongSent(chunks, batchSize, embed, standing) {
      var n: nat, i: nat :| NoStopBefore(chunks, n, batchSize, embed, standing) && TooLong(chunks, i, n, batchSize);
      assert Stops(chunks, k, batchSize, embed, standing);
      StartsAscend(n, k, batchSize);
    }
    if !SmallTexts(chunks, count) {
      var i: nat :| i < count && ByteLength(chunks[i].text) > MAX_CHUNK_BYTES;
      assert NoStopBefore(chunks, k, batchSize, embed, standing) && TooLong(chunks, i, k, batchSize);
    }
  }

  /** Everything about one ingestion, in terms of its inputs and of the document's only list of chunks. */
  ghost predicate Ingested(pages: seq<string>, size: nat, overlap: nat, maxPages: nat, maxBytes: nat, maxChunks: nat,
                           batchSize: nat, embed: Embedder, standing: nat -> Standing, chunks: seq<Chunk>,
                           received: Received) {
    var text := Strip(Raw(pages));
    if Refused(pages, size, overlap, maxPages, maxBytes, maxChunks) then received == Rejected(true)
    else
      && IsChunking(pages, size, overlap, chunks)
      && (if MetadataAllowed(text, |pages|, |chunks|) then
            DecidedByBatches(chunks, batchSize, embed, standing, received)
          else received == Rejected(true))
      && (received.Accepted? ==>
            && WithinLimits(text, |pages|, chunks)
            && received.text == text && received.pageCount == |pages| && Stored(received.rows, chunks))
  }

  /** The end of the stream decides, which the first batch that stops has decided. */
  lemma DecidedByEnd(sent: Sent, chunks: seq<Chunk>, batchSize: nat, embed: Embedder, standing: nat -> Standing,
                     received: Received)
    requires batchSize > 0 && sent.events != [] && EndsBy(sent, chunks, batchSize, embed, standing)
    requires |Carried(sent.events, |sent.events|)| <= |chunks|
    requires received.Accepted? <==>
               SentAll(sent.events, chunks) && SmallTexts(chunks, |chunks|) && sent.ending == EndOfStream
    requires received == Rejected(false) <==>
               sent.ending == Aborted(false) && SmallTexts(chunks, |Carried(sent.events, |sent.events|)|)
    ensures DecidedByBatches(chunks, batchSize, embed, standing, received)
  {
    if SentAll(sent.events, chunks) {
      assert forall k: nat :: !FirstStop(chunks, k, batchSize, embed, standing);
      AllSent(chunks, batchSize, embed, standing);
    } else {
      var k, count := |sent.events| - 1, |Carried(sent.events, |sent.events|)|;
      OnlyOneFirstStop(chunks, k, batchSize, embed, standing);
      SentBefore(chunks, k, count, batchSize, embed, standing);
    }
  }

  /** From the chunks on: sending them and reading what was sent. */
  lemma IngestedBy(document: string, pages: seq<string>, text: string, sent: Sent, chunks: seq<Chunk>,
                   at: seq<Interval>, size: nat, overlap: nat, batchSize: nat, embed: Embedder,
                   standing: nat -> Standing, received: Received)
    requires Sends(sent.events, document, text, |pages|, chunks, batchSize, embed)
             && ChunksAt(text, chunks, at, size, overlap)
    requires forall k | 0 <= k < |chunks| :: OnItsPages(pages, LeadingBlanks(Raw(pages)), chunks[k])
    requires batchSize > 0 && EndsBy(sent, chunks, batchSize, embed, standing)
    requires ReceivedAs(document, sent, received)
    ensures MetadataAllowed(text, |pages|, |chunks|) ==> DecidedByBatches(chunks, batchSize, embed, standing, received)
    ensures !MetadataAllowed(text, |pages|, |chunks|) ==> received == Rejected(true)
    ensures received.Accepted? ==>
              && WithinLimits(text, |pages|, chunks)
              && received.text == text && received.pageCount == |pages| && Stored(received.rows, chunks)
  {
    Outcome(document, pages, text, LeadingBlanks(Raw(pages)), sent.events, chunks, at, size, overlap, batchSize, embed);
    if MetadataAllowed(text, |pages|, |chunks|) {
      assert SmallTexts(chunks, |chunks|) <==> WithinLimits(text, |pages|, chunks);
      DecidedByEnd(sent, chunks, batchSize, embed, standing, received);
    }
  }

  /** What the worker makes of a stream. */
  ghost predicate ReceivedAs(document: string, sent: Sent, received: Received) {
    var events := sent.events;
    && (received.Accepted? <==> Complete(events, document) && sent.ending == EndOfStream)
    && (received.Accepted? ==> received == Accepted(events[0].text, events[0].pageCount,
                                                    RowsOf(Carried(events, |events|))))
    && (received == Rejected(false) <==>
          && sent.ending == Aborted(false) && ValidSoFar(events, |events|, document)
          && |Carried(events, |events|)| <= MAX_STREAM_CHUNKS)
  }

  /** A document from its page texts to its rows. */
  method Ingest(document: string, pages: seq<string>, size: nat, overlap: nat, maxPages: nat, maxBytes: nat,
                maxChunks: nat, batchSize: nat, embed: Embedder, standing: nat -> Standing)
    returns (received: Received, chunks: seq<Chunk>, ghost at: seq<Interval>)
    requires Limits(size, overlap) && batchSize > 0
    ensures Ingested(pages, size, overlap, maxPages, maxBytes, maxChunks, batchSize, embed, standing, chunks, received)
    ensures !Refused(pages, size, overlap, maxPages, maxBytes, maxChunks) ==>
              ChunksAt(Strip(Raw(pages)), chunks, at, size, overlap)
  {
    var sent;
    sent, chunks, at := Process(document, pages, size, overlap, maxPages, maxBytes, maxChunks, batchSize, embed,
                                standing);
    received := ProcessDocument(document, sent.events, sent.ending);
    if sent.events != [] {
      assert ReceivedAs(document, sent, received);
      IngestedBy(document, pages, Strip(Raw(pages)), sent, chunks, at, size, overlap, batchSize, embed, standing,
                 received);
    }
  }

  // ----- The two byte limits

  lemma LineEndBytes()
    ensures ByteLength("\n\n") == 2
  {
    assert "\n\n"[1..] == "\n" && "\n"[1..] == "";
  }

  lemma {:induction false} JoinedBytes(pages: seq<string>)
    requires pages != []
    ensures ByteLength(Raw(pages)) == PageBytes(pages) + 2 * (|pages| - 1)
    decreases |pages|
  {
    if |pages| == 1 {
      assert pages[1..] == [];
    } else {
      JoinedBytes(pages[1..]);
      BytesConcat(pages[0] + "\n\n", Raw(pages[1..]));
      BytesConcat(pages[0], "\n\n");
      LineEndBytes();
    }
  }

  lemma InThree(s: string, n: nat, m: nat)
    requires n <= m <= |s|
    ensures s == s[..n] + s[n..m] + s[m..]
  {
  }

  lemma StripShortens(s: string)
    ensures ByteLength(Strip(s)) <= ByteLength(s)
  {
    var n, m := LeadingBlanks(s), StrippedEnd(s);
    if n < |s| {
      assert n < m;
      InThree(s, n, m);
      BytesConcat(s[..n] + s[n..m], s[m..]);
      BytesConcat(s[..n], s[n..m]);
    }
  }

  /** Pages within the byte limit with room for the separators give a text within it. */
  lemma TextFits(pages: seq<string>, limit: nat)
    requires pages != [] && PageBytes(pages) + 2 * (|pages| - 1) <= limit
    ensures ByteLength(Strip(Raw(pages))) <= limit
  {
    JoinedBytes(pages);
    StripShortens(Raw(pages));
  }
}
