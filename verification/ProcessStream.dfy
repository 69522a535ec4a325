/**
 The stream from the document processor to the worker (document-processor/service.py, api/worker.go): metadata, then
 the chunks in numbered batches.
 */
module ProcessStream {
  const DIMENSIONS: nat := 768
  const MAX_PAGES: nat := 500
  const MAX_TEXT_BYTES: nat := 20 * 1024 * 1024
  const MAX_STREAM_CHUNKS: nat := 10000
  const MAX_CHUNK_BYTES: nat := 100000
  const UINT32: nat := 0x1_0000_0000

  type Vector = seq<real>

  datatype Item = Item(index: nat, text: string, start: nat, end: nat, pageStart: nat, pageEnd: nat, embedding: Vector)

  /** One message; a message may carry neither payload. */
  datatype Event =
    | Metadata(document: string, text: string, pageCount: nat, chunkCount: nat, dimensions: nat)
    | ChunkBatch(batchIndex: nat, items: seq<Item>)
    | NoPayload

  // ----- Lengths in UTF-8

  function CharBytes(c: char): nat {
    if c < '\U{80}' then 1 else if c < '\U{800}' then 2 else if c < '\U{10000}' then 3 else 4
  }

  function ByteLength(s: string): nat {
    if s == "" then 0 else CharBytes(s[0]) + ByteLength(s[1..])
  }

  lemma {:induction false} BytesConcat(a: string, b: string)
    ensures ByteLength(a + b) == ByteLength(a) + ByteLength(b)
  {
    if a == "" {
      assert a + b == b;
    } else {
      BytesConcat(a[1..], b);
      assert (a + b)[1..] == a[1..] + b;
    }
  }

  // ----- The chunks carried by the first n events

  function ItemsOf(e: Event): seq<Item> {
    if e.ChunkBatch? then e.items else []
  }

  ghost function Carried(events: seq<Event>, n: nat): seq<Item>
    requires n <= |events|
  {
    if n == 0 then [] else Carried(events, n - 1) + ItemsOf(events[n - 1])
  }

  lemma {:induction false} CarriedGrows(events: seq<Event>, m: nat, n: nat)
    requires m <= n <= |events|
    ensures Carried(events, m) <= Carried(events, n)
    decreases n
  {
    if m < n { CarriedGrows(events, m, n - 1); }
  }

  lemma {:induction false} CarriedBySame(events: seq<Event>, others: seq<Event>, n: nat)
    requires n <= |events| && n <= |others|
    requires forall k | 0 <= k < n :: events[k] == others[k]
    ensures Carried(events, n) == Carried(others, n)
  {
    if n > 0 { CarriedBySame(events, others, n - 1); }
  }

  // ----- What the worker accepts

  predicate ValidMetadata(e: Event, document: string) {
    && e.Metadata?
    && e.dimensions == DIMENSIONS && e.document == document
    && 1 <= e.pageCount <= MAX_PAGES && ByteLength(e.text) <= MAX_TEXT_BYTES && e.chunkCount <= MAX_STREAM_CHUNKS
  }

  predicate ValidItem(c: Item, index: nat, pageCount: nat) {
    && c.index == index && |c.embedding| == DIMENSIONS
    && 1 <= ByteLength(c.text) <= MAX_CHUNK_BYTES
    && 1 <= c.pageStart <= c.pageEnd <= pageCount
  }

  /** Event k is batch k - 1, counted in 32 bits. */
  predicate ValidBatch(events: seq<Event>, k: nat)
    requires 0 < k < |events|
  {
    events[k].ChunkBatch? && events[k].batchIndex == (k - 1) % UINT32
  }

  /** Nothing among the first n events is wrong. */
  ghost predicate ValidSoFar(events: seq<Event>, n: nat, document: string) {
    && n <= |events|
    && (n > 0 ==>
          && ValidMetadata(events[0], document)
          && (forall k | 1 <= k < n :: ValidBatch(events, k))
          && AllValid(Carried(events, n), events[0].pageCount))
  }

  ghost predicate AllValid(items: seq<Item>, pageCount: nat) {
    forall i | 0 <= i < |items| :: ValidItem(items[i], i, pageCount)
  }

  /** A complete stream: metadata first, batches numbered from 0, chunks numbered from 0 across batches, all of them. */
  ghost predicate Complete(events: seq<Event>, document: string) {
    && events != [] && ValidSoFar(events, |events|, document)
    && |Carried(events, |events|)| == events[0].chunkCount
  }

  /** The rows to store for the chunks. */
  datatype Row = Row(chunkIndex: nat, text: string, start: nat, end: nat, pageStart: nat, pageEnd: nat,
                     embedding: Vector)

  function RowOf(c: Item): Row {
    Row(c.index, c.text, c.start, c.end, c.pageStart, c.pageEnd, c.embedding)
  }

  function RowsOf(items: seq<Item>): (rows: seq<Row>)
    ensures |rows| == |items|
  {
    seq(|items|, i requires 0 <= i < |items| => RowOf(items[i]))
  }

  datatype Received = Accepted(text: string, pageCount: nat, rows: seq<Row>) | Rejected(permanent: bool)

  /** How the stream ends after the events: normally, or with an error of the processor. */
  datatype Ending = EndOfStream | Aborted(permanent: bool)

  /** The chunks of one batch, after the rows so far. */
  method ReadBatch(items: seq<Item>, pageCount: nat, before: seq<Row>) returns (ok: bool, rows: seq<Row>)
    requires |before| <= MAX_STREAM_CHUNKS
    ensures ok <==> |before| + |items| <= MAX_STREAM_CHUNKS && forall j | 0 <= j < |items| ::
              ValidItem(items[j], |before| + j, pageCount)
    ensures ok ==> rows == before + RowsOf(items)
  {
    rows := before;
    var nextChunk := |before|;
    for j := 0 to |items|
      invariant |before| + j <= MAX_STREAM_CHUNKS && nextChunk == |before| + j
      invariant forall i | 0 <= i < j :: ValidItem(items[i], |before| + i, pageCount)
      invariant rows == before + RowsOf(items)[..j]
    {
      var chunk := items[j];
      if |rows| >= MAX_STREAM_CHUNKS || chunk.index != nextChunk {
        return false, rows;
      }
      nextChunk := (nextChunk + 1) % UINT32;
      if |chunk.embedding| != DIMENSIONS || ByteLength(chunk.text) == 0 || ByteLength(chunk.text) > MAX_CHUNK_BYTES
         || chunk.pageStart == 0 || chunk.pageEnd < chunk.pageStart || chunk.pageEnd > pageCount {
        assert !ValidItem(items[j], |before| + j, pageCount);
        return false, rows;
      }
      rows := rows + [RowOf(chunk)];
    }
    return true, rows;
  }

  lemma NotValidLater(events: seq<Event>, n: nat, document: string)
    requires n <= |events| && !ValidSoFar(events, n, document)
    ensures !ValidSoFar(events, |events|, document)
  {
    CarriedGrows(events, n, |events|);
    if ValidSoFar(events, |events|, document) {
      assert forall i | 0 <= i < |Carried(events, n)| :: Carried(events, n)[i] == Carried(events, |events|)[i];
    }
  }

  lemma NextBatchValid(events: seq<Event>, n: nat, document: string)
    requires 0 < n < |events| && ValidSoFar(events, n, document) && ValidBatch(events, n)
    ensures var before, items := |Carried(events, n)|, events[n].items;
            ValidSoFar(events, n + 1, document) <==> forall j | 0 <= j < |items| ::
                ValidItem(items[j], before + j, events[0].pageCount)
  {
    var before, items, next := Carried(events, n), events[n].items, n + 1;
    assert Carried(events, next) == before + items;
    ValidAfter(before, items, events[0].pageCount);
  }

  lemma ValidAfter(before: seq<Item>, items: seq<Item>, pageCount: nat)
    requires AllValid(before, pageCount)
    ensures AllValid(before + items, pageCount) <==> forall j | 0 <= j < |items| ::
                ValidItem(items[j], |before| + j, pageCount)
  {
    var all := before + items;
    assert forall j | 0 <= j < |items| :: all[|before| + j] == items[j];
  }

  lemma TooManyItems(events: seq<Event>, n: nat, document: string)
    requires n <= |events| && |Carried(events, n)| > MAX_STREAM_CHUNKS
    ensures !Complete(events, document) && |Carried(events, |events|)| > MAX_STREAM_CHUNKS
  {
    CarriedGrows(events, n, |events|);
  }

  lemma CountOn(n: nat)
    ensures (n % UINT32 + 1) % UINT32 == (n + 1) % UINT32
  {
  }

  lemma RowsConcat(a: seq<Item>, b: seq<Item>)
    ensures RowsOf(a + b) == RowsOf(a) + RowsOf(b)
  {
  }

  /** What the worker stores, in figures. */
  ghost predicate Storable(received: Received) {
    && received.Accepted? && 1 <= received.pageCount <= 500 && ByteLength(received.text) <= 20 * 1024 * 1024
    && |received.rows| <= 10000
    && forall i | 0 <= i < |received.rows| ::
         var row := received.rows[i];
         && row.chunkIndex == i && |row.embedding| == 768 && 1 <= ByteLength(row.text) <= 100000
         && 1 <= row.pageStart <= row.pageEnd <= received.pageCount
  }

  lemma CompleteIsStorable(events: seq<Event>, document: string)
    requires Complete(events, document)
    ensures Storable(Accepted(events[0].text, events[0].pageCount, RowsOf(Carried(events, |events|))))
  {
    var items := Carried(events, |events|);
    assert forall i | 0 <= i < |items| :: ValidItem(items[i], i, events[0].pageCount);
  }

  /** The worker accepts exactly the complete streams that end normally, and stores their chunks in order. A failure is
      temporary only when the processor reports one after events in which nothing is wrong. */
  method ProcessDocument(document: string, events: seq<Event>, ending: Ending) returns (received: Received)
    ensures received.Accepted? <==> Complete(events, document) && ending == EndOfStream
    ensures received.Accepted? ==>
              received == Accepted(events[0].text, events[0].pageCount, RowsOf(Carried(events, |events|)))
    ensures received.Accepted? ==> Storable(received)
    ensures received.Rejected? && !received.permanent <==>
              ending == Aborted(false) && ValidSoFar(events, |events|, document)
                  && |Carried(events, |events|)| <= MAX_STREAM_CHUNKS
  {
    var text, pageCount, expected, metadataReceived, nextBatch := "", 0, 0, false, 0;
    var rows: seq<Row> := [];
    for n := 0 to |events|
      invariant ValidSoFar(events, n, document) && metadataReceived == (n > 0)
      invariant n > 0 ==> text == events[0].text && pageCount == events[0].pageCount && expected == events[0].chunkCount
      invariant nextBatch == (if n == 0 then 0 else n - 1) % UINT32
      invariant rows == RowsOf(Carried(events, n)) && |rows| <= MAX_STREAM_CHUNKS
    {
      var event := events[n];
      if event.Metadata? {
        if metadataReceived || !ValidMetadata(event, document) {
          assert n > 0 ==> !ValidBatch(events, n);
          NotValidLater(events, n + 1, document);
          return Rejected(true);
        }
        text, expected, pageCount, metadataReceived := event.text, event.chunkCount, event.pageCount, true;
        assert Carried(events, 1) == Carried(events, 0) + [];
        continue;
      }
      if event.NoPayload? || !metadataReceived || event.batchIndex != nextBatch {
        assert n > 0 ==> !ValidBatch(events, n);
        NotValidLater(events, n + 1, document);
        return Rejected(true);
      }
      nextBatch := (nextBatch + 1) % UINT32;
      CountOn(n - 1);
      assert ValidBatch(events, n);
      NextBatchValid(events, n, document);
      var ok, more := ReadBatch(event.items, pageCount, rows);
      if !ok {
        if ValidSoFar(events, n + 1, document) {
          TooManyItems(events, n + 1, document);
        } else {
          NotValidLater(events, n + 1, document);
        }
        return Rejected(true);
      }
      RowsConcat(Carried(events, n), event.items);
      rows := more;
    }
    if ending.Aborted? {
      return Rejected(ending.permanent);
    }
    if !metadataReceived || |rows| != expected {
      return Rejected(true);
    }
    CompleteIsStorable(events, document);
    return Accepted(text, pageCount, rows);
  }
}
