/** What chunks read like and how full they are, said without the functions that join and group
    (document-processor/service.py). */
module ChunkLaws {
  import opened Words
  import opened ChunkUnits
  import opened ChunkPacking
  import opened PageAttribution
  import opened Chunker

  // ----- The text of a unit

  ghost predicate LoneSpace(s: string, i: nat) {
    0 < i < |s| - 1 && s[i] == ' ' && !Blank(s[i - 1]) && !Blank(s[i + 1])
  }

  /** Words with single spaces between them, and nothing else. */
  ghost predicate SingleSpaced(s: string) {
    forall i | 0 <= i < |s| :: !Blank(s[i]) || LoneSpace(s, i)
  }

  lemma SpaceBetween(a: string, b: string)
    requires IsWord(a) && SingleSpaced(b) && b != ""
    ensures SingleSpaced(a + " " + b)
  {
    var s, n := a + " " + b, |a| + 1;
    assert !Blank(b[0]) && s[n] == b[0];
    forall i | 0 <= i < |s| ensures !Blank(s[i]) || LoneSpace(s, i) {
      if i >= n {
        var k := i - n;
        assert s[i] == b[k] && (!Blank(b[k]) || LoneSpace(b, k));
      }
    }
  }

  lemma {:induction false} SpacedWords(ws: seq<string>)
    requires ws != [] && forall w | w in ws :: IsWord(w)
    ensures Join(ws, " ") != "" && SingleSpaced(Join(ws, " "))
    decreases |ws|
  {
    assert IsWord(ws[0]);
    if |ws| > 1 {
      SpacedWords(ws[1..]);
      SpaceBetween(ws[0], Join(ws[1..], " "));
    }
  }

  lemma WindowIsSpaced(text: string, s: nat, e: nat, a: nat, b: nat)
    requires s <= e <= |text| && a < b <= |ParagraphSpans(text, s, e)|
    ensures SingleSpaced(WindowUnit(text, s, e, a, b).value)
  {
    var part := text[s..e];
    assert |part| == e - s;
    WindowIsWords(part, a, b);
    SpacedWords(Texts(part, ParagraphSpans(text, s, e)[a..b]));
  }

  /** The text as it stands. */
  ghost predicate Verbatim(text: string, u: Unit) {
    u.start <= u.end <= |text| && u.value == text[u.start..u.end]
  }

  lemma PartTexts(text: string, s: nat, e: nat, size: nat, overlap: nat, a: nat)
    requires s <= e <= |text| && Limits(size, overlap) && a < |ParagraphUnits(text, s, e, size, overlap)|
    ensures var u := ParagraphUnits(text, s, e, size, overlap)[a];
            Verbatim(text, u) || SingleSpaced(u.value)
  {
    var count := |ParagraphSpans(text, s, e)|;
    if count > size {
      var w := Windows(count, 0, size, overlap)[a];
      WindowIsSpaced(text, s, e, w.0, w.1);
    }
  }

  /** A unit is a piece of the text as it stands, or words with single spaces between them. */
  lemma UnitText(text: string, ps: seq<Span>, units: seq<Unit>, size: nat, overlap: nat, k: nat)
    requires AreUnits(text, ps, units, size, overlap) && k < |units|
    ensures Verbatim(text, units[k]) || SingleSpaced(units[k].value)
  {
    var p, a := FlatElement(ParagraphParts(text, ps, size, overlap), |ps|, k);
    PartTexts(text, ps[p].0, ps[p].1, size, overlap, a);
  }

  // ----- Paragraphs that are kept

  ghost predicate Short(text: string, p: Span, size: nat) {
    p.0 <= p.1 <= |text| && |WordsOf(text[p.0..p.1])| <= size
  }

  /** Unit k is paragraph k as it stands. */
  ghost predicate Kept(text: string, ps: seq<Span>, units: seq<Unit>, k: nat) {
    k < |ps| && k < |units| && units[k].start == ps[k].0 && units[k].end == ps[k].1 && Verbatim(text, units[k])
  }

  lemma ShortPart(text: string, p: Span, size: nat, overlap: nat)
    requires Limits(size, overlap) && Short(text, p, size)
    ensures ParagraphUnits(text, p.0, p.1, size, overlap) == [Unit(p.0, p.1, text[p.0..p.1])]
  {
    var part := text[p.0..p.1];
    assert |part| == p.1 - p.0;
    assert |WordsOf(part)| == |SpansIn(part, 0, |part|)| == |ParagraphSpans(text, p.0, p.1)|;
  }

  lemma {:induction false} OnlyShort(text: string, ps: seq<Span>, n: nat, size: nat, overlap: nat)
    requires Limits(size, overlap) && Within(text, ps) && n <= |ps|
    requires forall p | 0 <= p < |ps| :: Short(text, ps[p], size)
    ensures |TextUnits(text, ps, n, size, overlap)| == n
    ensures forall p | 0 <= p < n :: Kept(text, ps, TextUnits(text, ps, n, size, overlap), p)
    decreases n
  {
    if n > 0 {
      var last: nat := n - 1;
      OnlyShort(text, ps, last, size, overlap);
      assert Short(text, ps[last], size);
      ShortPart(text, ps[last], size, overlap);
      TextUnitsStep(text, ps, last, n, size, overlap);
      OneMoreKept(text, ps, TextUnits(text, ps, last, size, overlap), last);
    }
  }

  lemma TextUnitsStep(text: string, ps: seq<Span>, last: nat, n: nat, size: nat, overlap: nat)
    requires Limits(size, overlap) && Within(text, ps) && n == last + 1 && n <= |ps|
    ensures TextUnits(text, ps, n, size, overlap)
            == TextUnits(text, ps, last, size, overlap) + ParagraphUnits(text, ps[last].0, ps[last].1, size, overlap)
  {
    var parts := ParagraphParts(text, ps, size, overlap);
    FlatStep(parts, last, n, parts[last]);
  }

  lemma FlatStep<T>(parts: seq<seq<T>>, last: nat, n: nat, part: seq<T>)
    requires n == last + 1 && n <= |parts| && part == parts[last]
    ensures Flat(parts, n) == Flat(parts, last) + part
  {
  }

  lemma OneMoreKept(text: string, ps: seq<Span>, before: seq<Unit>, last: nat)
    requires |before| == last < |ps| && ps[last].0 <= ps[last].1 <= |text|
    requires forall p | 0 <= p < last :: Kept(text, ps, before, p)
    ensures var after := before + [Unit(ps[last].0, ps[last].1, text[ps[last].0..ps[last].1])];
            forall p | 0 <= p < |after| :: Kept(text, ps, after, p)
  {
    var after := before + [Unit(ps[last].0, ps[last].1, text[ps[last].0..ps[last].1])];
    forall p | 0 <= p < |after| ensures Kept(text, ps, after, p) {
      assert p < last ==> Kept(text, ps, before, p);
    }
  }

  /** Between paragraph k and the one before it are two line ends and nothing else. */
  ghost predicate LineEndsBefore(text: string, ps: seq<Span>, k: nat) {
    0 < k < |ps| && ps[k - 1].1 <= ps[k].0 <= |text| && text[ps[k - 1].1..ps[k].0] == "\n\n"
  }

  lemma OneMoreSlice(text: string, start: nat, m: nat, n: nat, end: nat)
    requires start <= m <= n <= end <= |text|
    ensures text[start..m] + text[m..n] + text[n..end] == text[start..end]
  {
  }

  lemma {:induction false} GroupIsSlice(text: string, ps: seq<Span>, units: seq<Unit>, i: nat, j: nat)
    requires i < j <= |units| == |ps|
    requires forall k | 0 <= k < |ps| :: Kept(text, ps, units, k)
    requires forall k | 0 < k < |ps| :: LineEndsBefore(text, ps, k)
    ensures units[i].start <= units[j - 1].end <= |text|
    ensures Join(Values(units[i..j]), "\n\n") == text[units[i].start..units[j - 1].end]
    decreases j
  {
    var last: nat := j - 1;
    assert Kept(text, ps, units, last);
    if i == last {
      assert Values(units[i..j]) == [units[i].value];
    } else {
      GroupIsSlice(text, ps, units, i, last);
      var before: nat := last - 1;
      assert Kept(text, ps, units, before) && LineEndsBefore(text, ps, last);
      OneMoreValue(units, i, last, j);
      JoinLast(Values(units[i..last]), units[last].value, "\n\n");
      OneMoreSlice(text, units[i].start, units[before].end, units[last].start, units[last].end);
    }
  }

  /** Where the paragraphs are short enough and lie two line ends apart, a chunk is the text between its offsets. */
  lemma ChunkIsSlice(text: string, ps: seq<Span>, units: seq<Unit>, ranges: seq<PageRange>, chunks: seq<Chunk>,
                     size: nat, overlap: nat, c: nat)
    requires AreUnits(text, ps, units, size, overlap) && IsPacked(units, size, ranges, chunks) && c < |chunks|
    requires forall p | 0 <= p < |ps| :: Short(text, ps[p], size)
    requires forall p | 0 < p < |ps| :: LineEndsBefore(text, ps, p)
    ensures chunks[c].start <= chunks[c].end <= |text|
    ensures chunks[c].text == text[chunks[c].start..chunks[c].end]
  {
    AllKept(text, ps, units, size, overlap);
    SliceOfGroup(text, ps, units, Greedy(Loads(units), |units|, size), chunks, PageLookup(ranges), c);
  }

  lemma AllKept(text: string, ps: seq<Span>, units: seq<Unit>, size: nat, overlap: nat)
    requires AreUnits(text, ps, units, size, overlap) && forall p | 0 <= p < |ps| :: Short(text, ps[p], size)
    ensures |units| == |ps| && forall k | 0 <= k < |ps| :: Kept(text, ps, units, k)
  {
    OnlyShort(text, ps, |ps|, size, overlap);
  }

  lemma SliceOfGroup(text: string, ps: seq<Span>, units: seq<Unit>, cuts: seq<nat>, chunks: seq<Chunk>, pages: PagesOf,
                     c: nat)
    requires |units| == |ps| && (forall k | 0 <= k < |ps| :: Kept(text, ps, units, k))
    requires forall k | 0 < k < |ps| :: LineEndsBefore(text, ps, k)
    requires ChunksOf(units, cuts, |units|, chunks, pages) && c < |chunks|
    ensures chunks[c].start <= chunks[c].end <= |text|
    ensures chunks[c].text == text[chunks[c].start..chunks[c].end]
  {
    var i, j := ChunkOfGroup(units, cuts, |units|, chunks, pages, c);
    GroupIsSlice(text, ps, units, i, j);
  }

  // ----- How full a chunk is

  /** The group and the next unit are too long together. */
  ghost predicate NoRoom(loads: seq<nat>, cuts: seq<nat>, k: nat, limit: nat)
    requires k + 1 < |cuts|
  {
    cuts[k] <= cuts[k + 1] < |loads| && LoadFrom(loads, cuts[k], cuts[k + 1]) + loads[cuts[k + 1]] > limit
  }

  /** A group is closed only before a unit that does not fit. */
  lemma {:induction false} GreedyIsFull(loads: seq<nat>, n: nat, limit: nat)
    requires n <= |loads| && forall i | 0 <= i < n :: loads[i] <= limit
    ensures forall k | 0 <= k < |Greedy(loads, n, limit)| - 1 :: NoRoom(loads, Greedy(loads, n, limit), k, limit)
    decreases n
  {
    if n > 0 {
      var last: nat := n - 1;
      GreedyIsFull(loads, last, limit);
      GreedyIsGrouping(loads, last, limit);
      var before, cuts := Greedy(loads, last, limit), Greedy(loads, n, limit);
      forall k | 0 <= k < |cuts| - 1 ensures NoRoom(loads, cuts, k, limit) {
        assert cuts[k] == before[k] && GroupWithin(before, k, last);
        if k < |before| - 1 { assert NoRoom(loads, before, k, limit); }
      }
    }
  }

  /** Joined units have as many words as the units together. */
  lemma {:induction false} JoinedLoad(units: seq<Unit>, i: nat, j: nat)
    requires i < j <= |units|
    ensures |WordsOf(Join(Values(units[i..j]), "\n\n"))| == LoadFrom(Loads(units), i, j)
    decreases j
  {
    var last: nat := j - 1;
    LoadOneMore(units, i, last, j);
    OneMoreValue(units, i, last, j);
    if i < last {
      JoinedLoad(units, i, last);
      JoinedOneMore(Values(units[i..last]), units[last].value);
    } else {
      NoLoad(units, i);
    }
  }

  lemma NoLoad(units: seq<Unit>, i: nat)
    requires i <= |units|
    ensures LoadFrom(Loads(units), i, i) == 0
  {
  }

  lemma OneMoreValue(units: seq<Unit>, i: nat, last: nat, j: nat)
    requires i <= last && j == last + 1 && j <= |units|
    ensures Values(units[i..j]) == Values(units[i..last]) + [units[last].value]
    ensures i == last ==> Join(Values(units[i..j]), "\n\n") == units[last].value
  {
    assert units[i..j] == units[i..last] + [units[last]];
  }

  lemma JoinedOneMore(values: seq<string>, last: string)
    requires values != []
    ensures |WordsOf(Join(values + [last], "\n\n"))| == |WordsOf(Join(values, "\n\n"))| + |WordsOf(last)|
  {
    JoinLast(values, last, "\n\n");
    JoinedWords(Join(values, "\n\n"), "\n\n", last);
  }

  lemma LoadOneMore(units: seq<Unit>, i: nat, last: nat, j: nat)
    requires i <= last && j == last + 1 && j <= |units|
    ensures LoadFrom(Loads(units), i, j) == LoadFrom(Loads(units), i, last) + |WordsOf(units[last].value)|
  {
  }

  /** The next chunk begins with a unit that had no room in this one. */
  lemma ChunkIsFull(text: string, ps: seq<Span>, units: seq<Unit>, ranges: seq<PageRange>, chunks: seq<Chunk>,
                    size: nat, overlap: nat, c: nat) returns (next: nat)
    requires AreUnits(text, ps, units, size, overlap) && IsPacked(units, size, ranges, chunks) && c + 1 < |chunks|
    ensures next < |units| && chunks[c + 1].start == units[next].start
    ensures |WordsOf(chunks[c].text)| <= size < |WordsOf(chunks[c].text)| + |WordsOf(units[next].value)|
  {
    var loads := Loads(units);
    var cuts := Greedy(loads, |units|, size);
    UnitsHaveWords(text, ps, units, size, overlap);
    GreedyIsFull(loads, |units|, size);
    GreedyIsGrouping(loads, |units|, size);
    assert NoRoom(loads, cuts, c, size) && GroupOk(loads, cuts, c, |units|, size);
    var i, j := ChunkOfGroup(units, cuts, |units|, chunks, PageLookup(ranges), c);
    var end;
    next, end := ChunkOfGroup(units, cuts, |units|, chunks, PageLookup(ranges), c + 1);
    JoinedLoad(units, i, j);
  }
}
