/** Documents for which the way from page texts to rows ends otherwise than one would expect. */
module StreamExamples {
  import opened Words
  import opened ChunkUnits
  import opened ChunkPacking
  import opened PageAttribution
  import opened Chunker
  import opened ProcessStream
  import opened Processor
  import opened StreamRoundTrip

  // The limits that are in force when nothing is configured.
  const CHUNK_SIZE: nat := 800
  const CHUNK_OVERLAP: nat := 80
  const CHUNK_LIMIT: nat := 10000
  const BATCH_SIZE: nat := 32

  // ----- Every unit may be a chunk of its own

  ghost function Singles(n: nat): (cuts: seq<nat>)
    ensures |cuts| == n && forall k | 0 <= k < n :: cuts[k] == k
  {
    seq(n, k => k)
  }

  lemma SinglesGroup(loads: seq<nat>, size: nat)
    requires forall k | 0 <= k < |loads| :: loads[k] <= size
    ensures Grouping(loads, Singles(|loads|), |loads|, size)
  {
    var cuts := Singles(|loads|);
    forall k | 0 <= k < |cuts| ensures GroupOk(loads, cuts, k, |loads|, size) {
      assert LoadFrom(loads, k, k + 1) == LoadFrom(loads, k, k) + loads[k];
    }
  }

  /** A document with no more units than chunks allowed fits. */
  lemma FewUnitsFit(text: string, ps: seq<Span>, units: seq<Unit>, size: nat, overlap: nat, n: nat)
    requires AreUnits(text, ps, units, size, overlap) && |units| <= n
    ensures Fits(text, size, overlap, n)
    ensures |Greedy(Loads(units), |units|, size)| <= n
  {
    UnitsHaveWords(text, ps, units, size, overlap);
    SinglesGroup(Loads(units), size);
    GreedyIsOptimal(Loads(units), |units|, size, Singles(|units|));
    assert AreUnits(text, ps, units, size, overlap) && Grouping(Loads(units), Singles(|units|), |units|, size);
  }

  lemma NothingToStrip(s: string)
    requires s != "" && !Blank(s[0]) && !Blank(s[|s| - 1])
    ensures LeadingBlanks(s) == 0 && Strip(s) == s
  {
    assert s[0..|s|] == s;
  }

  // ----- A processor that is shutting down

  lemma OneLetterUnits(text: string)
    requires text == "a"
    ensures AreUnits(text, [(0, 1)], [Unit(0, 1, text)], CHUNK_SIZE, CHUNK_OVERLAP)
  {
    var ps: seq<Span> := [(0, 1)];
    assert IsParagraph(text, 0, 1);
    assert text[0..1] == text;
    OneWord(text, 0, 1);
    assert ParagraphUnits(text, 0, 1, CHUNK_SIZE, CHUNK_OVERLAP) == [Unit(0, 1, text)];
    var parts := ParagraphParts(text, ps, CHUNK_SIZE, CHUNK_OVERLAP);
    assert Flat(parts, 1) == Flat(parts, 0) + parts[0];
  }

  lemma OneLetterChunks(text: string, chunks: seq<Chunk>)
    requires text == "a" && Strip(Raw([text])) == text && IsChunking([text], CHUNK_SIZE, CHUNK_OVERLAP, chunks)
    ensures |chunks| == 1 && chunks[0].text == text
  {
    var ranges, ps, units :| PageTable([text], LeadingBlanks(Raw([text])), ranges)
                             && AreUnits(Strip(Raw([text])), ps, units, CHUNK_SIZE, CHUNK_OVERLAP)
                             && IsPacked(units, CHUNK_SIZE, ranges, chunks);
    OneLetterUnits(text);
    UniqueParagraphs(text, ps, [(0, 1)]);
    OneUnitPacked(Unit(0, 1, text), CHUNK_SIZE, ranges, chunks);
  }

  lemma OneLetterPasses(text: string)
    requires text == "a"
    ensures !Refused([text], CHUNK_SIZE, CHUNK_OVERLAP, MAX_PAGES, MAX_TEXT_BYTES, CHUNK_LIMIT)
    ensures Strip(Raw([text])) == text && ByteLength(text) == 1
  {
    assert Raw([text]) == text;
    NothingToStrip(text);
    assert text[1..] == "" && ByteLength(text) == 1;
    assert [text][1..] == [] && PageBytes([text]) == 1;
    OneLetterUnits(text);
    FewUnitsFit(text, [(0, 1)], [Unit(0, 1, text)], CHUNK_SIZE, CHUNK_OVERLAP, CHUNK_LIMIT);
  }

  lemma FirstBatchStops(chunks: seq<Chunk>, batchSize: nat, embed: Embedder, standing: nat -> Standing)
    requires chunks != [] && standing(0) != Going
    ensures StopsWhere(chunks, batchSize, embed, standing, standing(0) == Draining)
  {
    assert Stops(chunks, 0, batchSize, embed, standing);
    OnlyOneFirstStop(chunks, 0, batchSize, embed, standing);
  }

  lemma OneBatchSent(chunks: seq<Chunk>, batchSize: nat, embed: Embedder, standing: nat -> Standing)
    requires |chunks| <= batchSize && standing(0) == Going && CanEmbed(chunks, 0, batchSize, embed)
    ensures NoStop(chunks, batchSize, embed, standing)
  {
    NextNoStop(chunks, 0, 0, 1, batchSize, embed, standing);
    NoStopAtAll(chunks, 1, batchSize, embed, standing);
  }

  lemma OneLetterWithinLimits(text: string, chunks: seq<Chunk>)
    requires text == "a" && |chunks| == 1 && chunks[0].text == text && ByteLength(text) == 1
    ensures WithinLimits(text, 1, chunks)
  {
  }

  /** An ingestion with the default limits. */
  ghost predicate IngestedByDefault(pages: seq<string>, embed: Embedder, standing: nat -> Standing, chunks: seq<Chunk>,
                                    received: Received) {
    Ingested(pages, CHUNK_SIZE, CHUNK_OVERLAP, MAX_PAGES, MAX_TEXT_BYTES, CHUNK_LIMIT, BATCH_SIZE, embed, standing,
             chunks, received)
  }

  /** A processor that is shutting down before the first batch of the shortest document, which it lets through and which
      keeps every limit of the worker, makes the worker fail it for good. A call that is over by then leaves it for
      another attempt, and otherwise the same request is stored. */
  lemma ShutDownFailsForGood(embed: Embedder, standing: nat -> Standing, chunks: seq<Chunk>, received: Received)
    requires IngestedByDefault(["a"], embed, standing, chunks, received)
    ensures !Refused(["a"], CHUNK_SIZE, CHUNK_OVERLAP, MAX_PAGES, MAX_TEXT_BYTES, CHUNK_LIMIT)
    ensures standing(0) == Draining ==> received == Rejected(true)
    ensures standing(0) == CallOver ==> received == Rejected(false)
    ensures standing(0) == Going && CanEmbed(chunks, 0, BATCH_SIZE, embed) ==> received.Accepted?
  {
    var text := "a";
    OneLetterPasses(text);
    OneLetterChunks(text, chunks);
    OneLetterWithinLimits(text, chunks);
    StopsDecide(text, 1, chunks, BATCH_SIZE, embed, standing, received);
    if standing(0) != Going {
      FirstBatchStops(chunks, BATCH_SIZE, embed, standing);
    } else if CanEmbed(chunks, 0, BATCH_SIZE, embed) {
      OneBatchSent(chunks, BATCH_SIZE, embed, standing);
    }
  }

  // ----- Two byte limits

  /** The same word n times, separated by spaces. */
  ghost function WordPage(w: string, n: nat): string
    requires n > 0
  {
    if n == 1 then w else w + " " + WordPage(w, n - 1)
  }

  ghost function Copies(w: string, n: nat): (ws: seq<string>)
    ensures |ws| == n && forall k | 0 <= k < n :: ws[k] == w
  {
    seq(n, k => w)
  }

  /** A word of one-byte characters. */
  ghost predicate Plain(w: string) {
    IsWord(w) && ByteLength(w) == |w|
  }

  /** One paragraph from its first to its last character. */
  ghost predicate OneParagraph(page: string) {
    |page| >= 2 && !Blank(page[0]) && !Blank(page[|page| - 1]) && forall i | 0 <= i < |page| :: page[i] != '\n'
  }

  lemma {:induction false} CopiesJoined(w: string, n: nat)
    requires n > 0
    ensures Join(Copies(w, n), " ") == WordPage(w, n)
  {
    if n > 1 {
      CopiesJoined(w, n - 1);
      assert Copies(w, n)[1..] == Copies(w, n - 1);
    }
  }

  lemma {:induction false} WordPageBytes(w: string, n: nat)
    requires Plain(w) && n > 0
    ensures ByteLength(WordPage(w, n)) == |WordPage(w, n)|
    ensures |WordPage(w, n)| + 1 == n * (|w| + 1)
  {
    if n > 1 {
      WordPageBytes(w, n - 1);
      BytesConcat(w + " ", WordPage(w, n - 1));
      BytesConcat(w, " ");
      assert " "[1..] == "" && ByteLength(" ") == 1;
      assert n * (|w| + 1) == (n - 1) * (|w| + 1) + (|w| + 1);
    }
  }

  lemma {:induction false} WordPageShape(w: string, n: nat)
    requires IsWord(w) && |w| >= 2 && n > 0
    ensures OneParagraph(WordPage(w, n))
  {
    if n > 1 { WordPageShape(w, n - 1); }
  }

  lemma WordPageWords(w: string, n: nat)
    requires IsWord(w) && n > 0
    ensures WordsOf(WordPage(w, n)) == Copies(w, n)
  {
    CopiesJoined(w, n);
    JoinWords(Copies(w, n));
  }

  /** Two one-paragraph pages make a text of two paragraphs. */
  lemma TwoParagraphs(page: string, text: string)
    requires OneParagraph(page) && text == page + "\n\n" + page
    ensures ParagraphsUpTo(text, [(0, |page|), (|page| + 2, |text|)], |text|)
    ensures text[0..|page|] == page && text[|page| + 2..|text|] == page
  {
    var n := |page|;
    assert text[n] == '\n' && text[n + 1] == '\n';
    assert Break(text, n);
    assert forall i | 0 <= i < n :: text[i] == page[i] && text[n + 2 + i] == page[i];
    assert IsParagraph(text, 0, n);
    assert IsParagraph(text, n + 2, |text|);
    assert Separated(text, n, n + 2) && SeparatedAfter(text, [(0, n), (n + 2, |text|)], 0);
  }

  /** A part of a text that is such a page makes few units, whose texts are not much longer than their words. */
  ghost predicate ShortUnits(units: seq<Unit>, rate: nat) {
    forall k | 0 <= k < |units| :: ByteLength(units[k].value) + 2 <= Load(units[k]) * rate
  }

  lemma Distribute(a: nat, b: nat, c: nat)
    ensures (a + b) * c == a * c + b * c
  {
  }

  lemma DistributeLeft(a: nat, b: nat, c: nat)
    ensures a * (b + c) == a * b + a * c
  {
  }

  lemma CopiesInside(w: string, page: string, spans: seq<Span>, a: nat, b: nat)
    requires Within(page, spans) && Texts(page, spans) == Copies(w, |spans|) && a < b <= |spans|
    ensures Texts(page, spans[a..b]) == Copies(w, b - a)
  {
    forall k | 0 <= k < b - a ensures Texts(page, spans[a..b])[k] == w {
      assert Texts(page, spans[a..b])[k] == Texts(page, spans)[a + k];
    }
  }

  lemma CopiesBytes(w: string, n: nat, rate: nat)
    requires Plain(w) && n > 0 && rate == |w| + 3
    ensures ByteLength(Join(Copies(w, n), " ")) + 2 <= n * rate
  {
    CopiesJoined(w, n);
    WordPageBytes(w, n);
    DistributeLeft(n, |w| + 1, 2);
  }

  lemma CopiesWindow(w: string, n: nat, text: string, s: nat, e: nat, a: nat, b: nat, count: nat)
    requires Plain(w) && n > 0 && s <= e <= |text| && text[s..e] == WordPage(w, n)
    requires |ParagraphSpans(text, s, e)| == n && a < b <= n && count == b - a
    ensures WindowUnit(text, s, e, a, b).value == Join(Copies(w, count), " ")
  {
    WordPageWords(w, n);
    CopiesInside(w, text[s..e], ParagraphSpans(text, s, e), a, b);
  }

  lemma WordWindow(w: string, n: nat, rate: nat, text: string, s: nat, e: nat, a: nat, b: nat)
    requires Plain(w) && n > 0 && rate == |w| + 3 && s <= e <= |text| && text[s..e] == WordPage(w, n)
    requires |ParagraphSpans(text, s, e)| == n && a < b <= n
    ensures ByteLength(WindowUnit(text, s, e, a, b).value) + 2 <= Load(WindowUnit(text, s, e, a, b)) * rate
  {
    var count, unit := b - a, WindowUnit(text, s, e, a, b);
    CopiesWindow(w, n, text, s, e, a, b, count);
    CopiesBytes(w, count, rate);
    WindowLoad(text, s, e, a, b);
    assert Load(unit) == count;
  }

  lemma WordPageUnits(w: string, n: nat, rate: nat, text: string, s: nat, e: nat, size: nat, overlap: nat)
    returns (units: seq<Unit>)
    requires Plain(w) && Limits(size, overlap) && n > size && rate == |w| + 3
    requires s <= e <= |text| && text[s..e] == WordPage(w, n)
    ensures units == ParagraphUnits(text, s, e, size, overlap)
    ensures ShortUnits(units, rate) && |units| >= 1 && (|units| - 1) * (size - overlap) < n
  {
    WordPageWords(w, n);
    assert |WordsOf(text[s..e])| == |ParagraphSpans(text, s, e)|;
    units := ParagraphUnits(text, s, e, size, overlap);
    var windows := Windows(n, 0, size, overlap);
    WindowCount(n, 0, size, overlap);
    forall k | 0 <= k < |windows|
      ensures var u := WindowUnit(text, s, e, windows[k].0, windows[k].1); ByteLength(u.value) + 2 <= Load(u) * rate
    {
      WordWindow(w, n, rate, text, s, e, windows[k].0, windows[k].1);
    }
  }

  lemma JoinedOneMore(before: seq<string>, last: string)
    requires before != []
    ensures ByteLength(Join(before + [last], "\n\n")) == ByteLength(Join(before, "\n\n")) + 2 + ByteLength(last)
  {
    JoinLast(before, last, "\n\n");
    BytesConcat(Join(before, "\n\n") + "\n\n", last);
    BytesConcat(Join(before, "\n\n"), "\n\n");
    LineEndBytes();
  }

  lemma ValuesOneMore(units: seq<Unit>, i: nat, j: nat)
    requires i < j <= |units|
    ensures Values(units[i..j]) == Values(units[i..j - 1]) + [units[j - 1].value]
  {
  }

  /** The text of units i to j - 1 joined. */
  ghost function Joined(units: seq<Unit>, i: nat, j: nat): string
    requires i <= j <= |units|
  {
    Join(Values(units[i..j]), "\n\n")
  }

  lemma JoinedStep(units: seq<Unit>, i: nat, j: nat)
    requires i < j <= |units|
    ensures j > i + 1 ==>
              ByteLength(Joined(units, i, j)) == ByteLength(Joined(units, i, j - 1)) + 2
                  + ByteLength(units[j - 1].value)
    ensures j == i + 1 ==> Joined(units, i, j) == units[i].value
  {
    ValuesOneMore(units, i, j);
    if j > i + 1 {
      JoinedOneMore(Values(units[i..j - 1]), units[j - 1].value);
    } else {
      assert Values(units[i..i]) == [] && [] + [units[i].value] == [units[i].value];
    }
  }

  /** Bytes of each unit's text, with a separator. */
  ghost function Costs(units: seq<Unit>): (costs: seq<nat>)
    ensures |costs| == |units| && forall k | 0 <= k < |units| :: costs[k] == ByteLength(units[k].value) + 2
  {
    seq(|units|, k requires 0 <= k < |units| => ByteLength(units[k].value) + 2)
  }

  lemma LastCost(costs: seq<nat>, i: nat, j: nat)
    requires i < j <= |costs|
    ensures LoadFrom(costs, i, j) == LoadFrom(costs, i, j - 1) + costs[j - 1]
    ensures LoadFrom(costs, i, i) == 0
  {
  }

  lemma {:induction false} JoinedCost(units: seq<Unit>, costs: seq<nat>, i: nat, j: nat)
    requires costs == Costs(units) && i < j <= |units|
    ensures ByteLength(Joined(units, i, j)) + 2 == LoadFrom(costs, i, j)
    decreases j
  {
    var before := j - 1;
    JoinedStep(units, i, j);
    LastCost(costs, i, j);
    if before > i { JoinedCost(units, costs, i, before); }
  }

  lemma {:induction false} RateBound(costs: seq<nat>, loads: seq<nat>, rate: nat, i: nat, j: nat)
    requires |costs| == |loads| && i <= j <= |loads|
    requires forall k | 0 <= k < |loads| :: costs[k] <= loads[k] * rate
    ensures LoadFrom(costs, i, j) <= LoadFrom(loads, i, j) * rate
    decreases j
  {
    if i < j {
      RateBound(costs, loads, rate, i, j - 1);
      Distribute(LoadFrom(loads, i, j - 1), loads[j - 1], rate);
    }
  }

  lemma ShortChunk(units: seq<Unit>, rate: nat, i: nat, j: nat)
    requires ShortUnits(units, rate) && i < j <= |units|
    ensures ByteLength(Joined(units, i, j)) + 2 <= LoadFrom(Loads(units), i, j) * rate
  {
    JoinedCost(units, Costs(units), i, j);
    RateBound(Costs(units), Loads(units), rate, i, j);
  }

  lemma MoreIsMore(a: nat, b: nat, c: nat)
    requires a <= b
    ensures a * c <= b * c
  {
    Distribute(a, b - a, c);
  }

  /** Packed units with short texts make chunks with short texts. */
  lemma PackedShort(units: seq<Unit>, size: nat, ranges: seq<PageRange>, chunks: seq<Chunk>, rate: nat)
    requires IsPacked(units, size, ranges, chunks) && ShortUnits(units, rate)
    requires forall k | 0 <= k < |units| :: 1 <= Loads(units)[k] <= size
    ensures forall k | 0 <= k < |chunks| :: ByteLength(chunks[k].text) <= size * rate
  {
    var loads := Loads(units);
    var cuts := Greedy(loads, |units|, size);
    GreedyIsGrouping(loads, |units|, size);
    forall k | 0 <= k < |chunks| ensures ByteLength(chunks[k].text) <= size * rate {
      assert GroupOk(loads, cuts, k, |units|, size);
      var i, j := ChunkOfGroup(units, cuts, |units|, chunks, PageLookup(ranges), k);
      ShortChunk(units, rate, i, j);
      MoreIsMore(LoadFrom(loads, i, j), size, rate);
    }
  }

  lemma FlatTwo<T>(parts: seq<seq<T>>)
    requires |parts| == 2
    ensures Flat(parts, 2) == parts[0] + parts[1]
  {
    assert Flat(parts, 1) == Flat(parts, 0) + parts[0] == parts[0];
  }

  lemma TwoPartUnits(text: string, ps: seq<Span>, one: seq<Unit>, other: seq<Unit>, size: nat, overlap: nat)
    requires Limits(size, overlap) && |ps| == 2 && ParagraphsUpTo(text, ps, |text|) && Within(text, ps)
    requires one == ParagraphUnits(text, ps[0].0, ps[0].1, size, overlap)
    requires other == ParagraphUnits(text, ps[1].0, ps[1].1, size, overlap)
    ensures AreUnits(text, ps, one + other, size, overlap)
  {
    FlatTwo(ParagraphParts(text, ps, size, overlap));
  }

  lemma FewAndShort(one: seq<Unit>, other: seq<Unit>, rate: nat, step: nat, n: nat)
    requires ShortUnits(one, rate) && ShortUnits(other, rate)
    requires |one| >= 1 && |other| >= 1 && (|one| - 1) * step < n && (|other| - 1) * step < n
    ensures ShortUnits(one + other, rate) && (|one + other| - 2) * step < 2 * n
  {
    Distribute(|one| - 1, |other| - 1, step);
  }

  /** Two such pages: the units of the text are few and short. */
  lemma TwoWordPages(w: string, n: nat, rate: nat, page: string, text: string, ps: seq<Span>, size: nat, overlap: nat)
    returns (units: seq<Unit>)
    requires Plain(w) && Limits(size, overlap) && n > size && rate == |w| + 3 && page == WordPage(w, n)
    requires |ps| == 2 && ParagraphsUpTo(text, ps, |text|) && Within(text, ps)
    requires text[ps[0].0..ps[0].1] == page && text[ps[1].0..ps[1].1] == page
    ensures AreUnits(text, ps, units, size, overlap) && ShortUnits(units, rate)
    ensures (|units| - 2) * (size - overlap) < 2 * n
  {
    var one := WordPageUnits(w, n, rate, text, ps[0].0, ps[0].1, size, overlap);
    var other := WordPageUnits(w, n, rate, text, ps[1].0, ps[1].1, size, overlap);
    FewAndShort(one, other, rate, size - overlap, n);
    TwoPartUnits(text, ps, one, other, size, overlap);
    units := one + other;
  }

  /** The pages of the example: ten-letter words, as many as the extractor's limit lets through. */
  const WORDS: nat := 953251

  lemma TwoPages(page: string)
    ensures PageBytes([page, page]) == 2 * ByteLength(page)
    ensures Raw([page, page]) == page + "\n\n" + page
  {
    assert [page, page][1..] == [page] && [page][1..] == [];
    assert PageBytes([page]) == ByteLength(page) + PageBytes([]);
    assert Raw([page]) == page;
  }

  lemma TwoPagesPass(w: string, page: string, text: string)
    requires Plain(w) && |w| == 10 && page == WordPage(w, WORDS) && text == page + "\n\n" + page
    ensures Strip(Raw([page, page])) == text
    ensures PageBytes([page, page]) == MAX_TEXT_BYTES && ByteLength(text) == MAX_TEXT_BYTES + 2
  {
    WordPageBytes(w, WORDS);
    WordPageShape(w, WORDS);
    TwoPages(page);
    JoinedBytes([page, page]);
    assert text[0] == page[0] && text[|text| - 1] == page[|page| - 1];
    NothingToStrip(text);
  }

  lemma FewWordUnits(w: string, page: string, text: string) returns (ps: seq<Span>, units: seq<Unit>)
    requires Plain(w) && |w| == 10 && page == WordPage(w, WORDS) && text == page + "\n\n" + page
    ensures AreUnits(text, ps, units, CHUNK_SIZE, CHUNK_OVERLAP) && ShortUnits(units, 13) && |units| <= CHUNK_LIMIT
  {
    WordPageShape(w, WORDS);
    TwoParagraphs(page, text);
    ps := [(0, |page|), (|page| + 2, |text|)];
    units := TwoWordPages(w, WORDS, 13, page, text, ps, CHUNK_SIZE, CHUNK_OVERLAP);
  }

  lemma ShortChunksOf(pages: seq<string>, text: string, ps: seq<Span>, units: seq<Unit>, chunks: seq<Chunk>)
    requires Strip(Raw(pages)) == text && AreUnits(text, ps, units, CHUNK_SIZE, CHUNK_OVERLAP) && ShortUnits(units, 13)
    requires |Greedy(Loads(units), |units|, CHUNK_SIZE)| <= CHUNK_LIMIT
    requires IsChunking(pages, CHUNK_SIZE, CHUNK_OVERLAP, chunks)
    ensures |chunks| <= MAX_STREAM_CHUNKS && SmallTexts(chunks, |chunks|)
  {
    var ranges, qs, parts :| PageTable(pages, LeadingBlanks(Raw(pages)), ranges)
                             && AreUnits(Strip(Raw(pages)), qs, parts, CHUNK_SIZE, CHUNK_OVERLAP)
                             && IsPacked(parts, CHUNK_SIZE, ranges, chunks);
    UniqueParagraphs(text, ps, qs);
    UnitsHaveWords(text, ps, units, CHUNK_SIZE, CHUNK_OVERLAP);
    PackedShort(units, CHUNK_SIZE, ranges, chunks, 13);
  }

  /** Two pages of ten-letter words that the extractor lets through, and whose chunks keep every limit of the worker.
      Their joined text is two bytes too long, so the worker refuses the document for good. */
  lemma TextDoesNotFit(w: string, page: string, embed: Embedder, standing: nat -> Standing, chunks: seq<Chunk>,
                       received: Received)
    requires Plain(w) && |w| == 10 && page == WordPage(w, WORDS)
    requires IngestedByDefault([page, page], embed, standing, chunks, received)
    ensures !Refused([page, page], CHUNK_SIZE, CHUNK_OVERLAP, MAX_PAGES, MAX_TEXT_BYTES, CHUNK_LIMIT)
    ensures |chunks| <= MAX_STREAM_CHUNKS && SmallTexts(chunks, |chunks|)
    ensures ByteLength(Strip(Raw([page, page]))) == MAX_TEXT_BYTES + 2
    ensures received == Rejected(true)
  {
    var pages, text := [page, page], page + "\n\n" + page;
    TwoPagesPass(w, page, text);
    var ps, units := FewWordUnits(w, page, text);
    FewUnitsFit(text, ps, units, CHUNK_SIZE, CHUNK_OVERLAP, CHUNK_LIMIT);
    ShortChunksOf(pages, text, ps, units, chunks);
  }

  lemma {:induction false} LetterBytes(w: string)
    requires forall i | 0 <= i < |w| :: w[i] == 'x'
    ensures ByteLength(w) == |w|
  {
    if w != "" { LetterBytes(w[1..]); }
  }

  /** There are such pages. */
  lemma PagesExist() returns (w: string, page: string)
    ensures Plain(w) && |w| == 10 && page == WordPage(w, WORDS)
  {
    w := seq(10, _ => 'x');
    LetterBytes(w);
    page := WordPage(w, WORDS);
  }
}
