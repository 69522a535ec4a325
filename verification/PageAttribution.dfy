/**
 Pages of a chunk (document-processor/service.py): pages are joined by blank lines, the joined text is stripped,
 and each chunk is attributed to the pages whose shifted offsets it overlaps.
 */
module PageAttribution {
  import opened Words
  import opened ChunkPacking

  /** Start offset, end offset and number of a page, in the stripped text. */
  type PageRange = (nat, nat, nat)

  // ----- The page range of an offset interval

  function CoveredPages(ranges: seq<PageRange>, start: nat, end: nat): (covered: seq<nat>)
    ensures forall k | 0 <= k < |ranges| && ranges[k].0 < end && ranges[k].1 > start :: ranges[k].2 in covered
    ensures forall p | p in covered :: exists k ::
              0 <= k < |ranges| && ranges[k].2 == p && ranges[k].0 < end && ranges[k].1 > start
  {
    if ranges == [] then []
    else
      var last := |ranges| - 1;
      var rest := CoveredPages(ranges[..last], start, end);
      if ranges[last].0 < end && ranges[last].1 > start then rest + [ranges[last].2] else rest
  }

  function Smallest(pages: seq<nat>): (p: nat)
    requires pages != []
    ensures p in pages && forall q | q in pages :: p <= q
  {
    if |pages| == 1 then pages[0]
    else
      var rest := Smallest(pages[1..]);
      assert forall q | q in pages :: q == pages[0] || q in pages[1..];
      if pages[0] <= rest then pages[0] else rest
  }

  function Largest(pages: seq<nat>): (p: nat)
    requires pages != []
    ensures p in pages && forall q | q in pages :: p >= q
  {
    if |pages| == 1 then pages[0]
    else
      var rest := Largest(pages[1..]);
      assert forall q | q in pages :: q == pages[0] || q in pages[1..];
      if pages[0] >= rest then pages[0] else rest
  }

  /** An interval that overlaps no page is put on page 1. */
  function PagesFor(ranges: seq<PageRange>, start: nat, end: nat): Pages {
    var covered := CoveredPages(ranges, start, end);
    if covered == [] then Pages(1, 1) else Pages(Smallest(covered), Largest(covered))
  }

  // ----- Joining and stripping

  ghost function PageOffset(pages: seq<string>, k: nat): nat
    requires k <= |pages|
  {
    if k == 0 then 0 else PageOffset(pages, k - 1) + |pages[k - 1]| + 2
  }

  function Raw(pages: seq<string>): string {
    Join(pages, "\n\n")
  }

  /** The position p of the joined text lies in page k, counted from 0. */
  ghost predicate InPage(pages: seq<string>, k: nat, p: nat) {
    k < |pages| && PageOffset(pages, k) <= p < PageOffset(pages, k) + |pages[k]|
  }

  lemma {:induction false} OffsetAfterFirst(pages: seq<string>, k: nat)
    requires k < |pages|
    ensures PageOffset(pages, k + 1) == |pages[0]| + 2 + PageOffset(pages[1..], k)
  {
    if k > 0 { OffsetAfterFirst(pages, k - 1); }
  }

  /** Every character that is not white space lies in a page. */
  lemma {:induction false} FindPage(pages: seq<string>, p: nat) returns (k: nat)
    requires p < |Raw(pages)| && !Blank(Raw(pages)[p])
    ensures InPage(pages, k, p)
    decreases |pages|
  {
    if |pages| == 1 || p < |pages[0]| {
      k := 0;
    } else {
      var tail := Raw(pages[1..]);
      assert Raw(pages) == pages[0] + "\n\n" + tail;
      var skip := |pages[0]| + 2;
      assert p >= skip;
      assert Raw(pages)[p] == tail[p - skip];
      var inner := FindPage(pages[1..], p - skip);
      OffsetAfterFirst(pages, inner);
      k := inner + 1;
    }
  }

  /** Pages lie one after the other, two characters apart. */
  lemma {:induction false} PagesAscend(pages: seq<string>, j: nat, k: nat)
    requires j < k < |pages|
    ensures PageOffset(pages, j) + |pages[j]| + 2 <= PageOffset(pages, k)
    decreases k
  {
    if j + 1 < k { PagesAscend(pages, j, k - 1); }
  }

  function LeadingBlanks(s: string): (n: nat)
    ensures n <= |s| && AllBlank(s, 0, n) && (n < |s| ==> !Blank(s[n]))
  {
    if s == "" || !Blank(s[0]) then 0
    else
      assert forall i | 1 <= i < |s| :: s[i] == s[1..][i - 1];
      LeadingBlanks(s[1..]) + 1
  }

  function StrippedEnd(s: string): (n: nat)
    ensures n <= |s| && AllBlank(s, n, |s|) && (n > 0 ==> !Blank(s[n - 1]))
  {
    if s == "" || !Blank(s[|s| - 1]) then |s| else StrippedEnd(s[..|s| - 1])
  }

  function Strip(s: string): string {
    var n := LeadingBlanks(s);
    if n == |s| then ""
    else
      assert n < StrippedEnd(s);
      s[n..StrippedEnd(s)]
  }

  // ----- The page table

  function Clamp(n: int): nat { if n < 0 then 0 else n }

  ghost function RangeOf(pages: seq<string>, leading: nat, k: nat): PageRange
    requires k < |pages|
  {
    var offset := PageOffset(pages, k);
    (Clamp(offset - leading), Clamp(offset + |pages[k]| - leading), k + 1)
  }

  ghost predicate PageTable(pages: seq<string>, leading: nat, ranges: seq<PageRange>) {
    |ranges| == |pages| && forall k | 0 <= k < |pages| :: ranges[k] == RangeOf(pages, leading, k)
  }

  method PageRanges(pages: seq<string>, leading: nat) returns (ranges: seq<PageRange>)
    ensures PageTable(pages, leading, ranges)
  {
    ranges := [];
    var offset: nat := 0;
    for k := 0 to |pages|
      invariant |ranges| == k && offset == PageOffset(pages, k)
      invariant forall i | 0 <= i < k :: ranges[i] == RangeOf(pages, leading, i)
    {
      ranges := ranges + [(Clamp(offset - leading), Clamp(offset + |pages[k]| - leading), k + 1)];
      offset := offset + |pages[k]| + 2;
    }
  }

  /** `start` and `end` delimit a part of the text that begins and ends with a character. */
  ghost predicate Delimits(text: string, start: nat, end: nat) {
    start < end <= |text| && !Blank(text[start]) && !Blank(text[end - 1])
  }

  /** Stripping takes white space away and keeps every word. */
  lemma StripKeepsWords(s: string)
    ensures WordsOf(Strip(s)) == WordsOf(s)
    ensures Strip(s) != "" ==> !Blank(Strip(s)[0]) && !Blank(Strip(s)[|Strip(s)| - 1])
  {
    var n, e := LeadingBlanks(s), StrippedEnd(s);
    if n == |s| {
      NoWords(s, 0, |s|);
    } else {
      assert n < e;
      StripEnds(s, n, e);
      OnlyMiddleWords(s, n, e);
      PartWords(s, n, e);
    }
  }

  lemma OnlyMiddleWords(s: string, n: nat, e: nat)
    requires n <= e <= |s| && AllBlank(s, 0, n) && AllBlank(s, e, |s|)
    ensures SpansIn(s, 0, |s|) == SpansIn(s, n, e)
  {
    if n > 0 { assert Blank(s[n - 1]); }
    if e < |s| { assert Blank(s[e]); }
    CutSpans(s, 0, n, |s|);
    CutSpans(s, n, e, |s|);
    NoWords(s, 0, n);
    NoWords(s, e, |s|);
    NothingAround(SpansIn(s, n, e));
  }

  lemma NothingAround(spans: seq<Span>)
    ensures [] + (spans + []) == spans
  {
  }

  lemma StripEnds(s: string, n: nat, e: nat)
    requires n < e <= |s| && !Blank(s[n]) && !Blank(s[e - 1])
    ensures s[n..e] != "" && !Blank(s[n..e][0]) && !Blank(s[n..e][|s[n..e]| - 1])
  {
  }

  lemma StrippedAt(s: string, i: nat)
    requires i < |Strip(s)|
    ensures LeadingBlanks(s) + i < |s| && Strip(s)[i] == s[LeadingBlanks(s) + i]
  {
    SliceAt(s, LeadingBlanks(s), StrippedEnd(s), Strip(s), i);
  }

  lemma SliceAt(s: string, n: nat, e: nat, slice: string, i: nat)
    requires n <= |s| && e <= |s| && i < |slice| && slice == if n < |s| && n < e then s[n..e] else ""
    ensures n + i < |s| && slice[i] == s[n + i]
  {
  }

  /** Overlapping pages lie between the page of the first character and the page of the last. */
  lemma CoveredBetween(pages: seq<string>, leading: nat, start: nat, end: nat, first: nat, last: nat, k: nat)
    requires start < end && k < |pages|
    requires InPage(pages, first, start + leading) && InPage(pages, last, end - 1 + leading)
    ensures var r := RangeOf(pages, leading, k);
            r.0 < end && r.1 > start ==> first <= k <= last
    ensures k == first || k == last ==> RangeOf(pages, leading, k).0 < end && RangeOf(pages, leading, k).1 > start
    ensures first <= last
  {
    if k < first { PagesAscend(pages, k, first); }
    if last < k { PagesAscend(pages, last, k); }
    if last < first { PagesAscend(pages, last, first); }
    if first < last { PagesAscend(pages, first, last); }
  }

  /** The page range is exactly from the page of the first character to the page of the last: the fallback to page 1 is
      never used, whatever pages are empty or blank. */
  lemma Attribution(pages: seq<string>, ranges: seq<PageRange>, text: string, leading: nat, start: nat, end: nat)
    returns (first: nat, last: nat)
    requires text == Strip(Raw(pages)) && leading == LeadingBlanks(Raw(pages))
    requires PageTable(pages, leading, ranges) && Delimits(text, start, end)
    ensures InPage(pages, first, start + leading) && InPage(pages, last, end - 1 + leading)
    ensures CoveredPages(ranges, start, end) != []
    ensures PagesFor(ranges, start, end) == Pages(first + 1, last + 1)
    ensures 1 <= first + 1 <= last + 1 <= |pages|
  {
    first, last := EndPages(pages, text, leading, start, end);
    CoveredFromTo(pages, ranges, leading, start, end, first, last);
  }

  /** The pages of the first and the last character. */
  lemma EndPages(pages: seq<string>, text: string, leading: nat, start: nat, end: nat) returns (first: nat, last: nat)
    requires text == Strip(Raw(pages)) && leading == LeadingBlanks(Raw(pages)) && Delimits(text, start, end)
    ensures InPage(pages, first, start + leading) && InPage(pages, last, end - 1 + leading)
  {
    StrippedAt(Raw(pages), start);
    StrippedAt(Raw(pages), end - 1);
    first := FindPage(pages, start + leading);
    last := FindPage(pages, end - 1 + leading);
  }

  lemma CoveredFromTo(pages: seq<string>, ranges: seq<PageRange>, leading: nat, start: nat, end: nat, first: nat,
                      last: nat)
    requires start < end && PageTable(pages, leading, ranges)
    requires InPage(pages, first, start + leading) && InPage(pages, last, end - 1 + leading)
    ensures CoveredPages(ranges, start, end) != [] && first <= last
    ensures PagesFor(ranges, start, end) == Pages(first + 1, last + 1)
  {
    var covered := CoveredPages(ranges, start, end);
    CoveredBetween(pages, leading, start, end, first, last, first);
    CoveredBetween(pages, leading, start, end, first, last, last);
    assert ranges[first].2 in covered && ranges[last].2 in covered;
    forall p | p in covered ensures first + 1 <= p <= last + 1 {
      var k :| 0 <= k < |ranges| && ranges[k].2 == p && ranges[k].0 < end && ranges[k].1 > start;
      CoveredBetween(pages, leading, start, end, first, last, k);
    }
  }
}
