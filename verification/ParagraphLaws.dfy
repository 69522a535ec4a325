/**
 Where paragraphs end and how their windows follow each other, said in terms of characters and of word numbers
 (document-processor/service.py).
 */
module ParagraphLaws {
  import opened Words
  import opened ChunkUnits

  // ----- Line ends

  /** Two line ends with only white space between them. */
  ghost predicate EmptyLine(text: string, i: int, j: int) {
    && 0 <= i < j < |text| && text[i] == '\n' && text[j] == '\n'
    && forall k | i < k < j :: Blank(text[k])
  }

  /** Between two paragraphs the text has white space that begins with a line end and holds another one. */
  lemma GapIsEmptyLine(text: string, ps: seq<Span>, k: nat) returns (j: nat)
    requires ParagraphsUpTo(text, ps, |text|) && k + 1 < |ps|
    ensures ps[k].1 < j < ps[k + 1].0 <= |text|
    ensures text[ps[k].1] == '\n' && text[j] == '\n'
    ensures forall i | ps[k].1 <= i < ps[k + 1].0 :: Blank(text[i])
  {
    var e, s := ps[k].1, ps[k + 1].0;
    assert IsParagraph(text, ps[k].0, e) && IsParagraph(text, s, ps[k + 1].1);
    assert SeparatedAfter(text, ps, k);
    j :| e < j < |text| && text[j] == '\n' && AllBlank(text, e + 1, j);
    assert !Blank(text[s]);
  }

  /** A paragraph has at least two characters, unless the text ends with it. From its third character on it holds no
      line end that follows a character and starts an empty line. */
  lemma NoEmptyLineInside(text: string, ps: seq<Span>, k: nat, f: nat, j: nat)
    requires ParagraphsUpTo(text, ps, |text|) && Stripped(text) && k < |ps|
    ensures ps[k].0 + 2 <= ps[k].1 || ps[k].1 == |text|
    ensures ps[k].0 + 2 <= f < ps[k].1 <= |text| && !Blank(text[f - 1]) ==> !EmptyLine(text, f, j)
  {
    var s, e := ps[k].0, ps[k].1;
    assert IsParagraph(text, s, e);
    if s + 2 <= |text| { assert MayEnd(text, |text|); }
    if s + 2 <= f < e { assert !MayEnd(text, f); }
  }

  /** A text without empty lines is one paragraph. */
  lemma OneParagraph(text: string, ps: seq<Span>)
    requires ParagraphsUpTo(text, ps, |text|)
    requires forall i, j :: !EmptyLine(text, i, j)
    ensures ps == [(0, |text|)]
  {
    if |ps| > 1 {
      var j := GapIsEmptyLine(text, ps, 0);
      assert EmptyLine(text, ps[0].1, j);
    }
  }

  // ----- Where one unit ends and the next begins

  /** Every window but the last is full, and the next one starts `overlap` words before its end. */
  lemma {:induction false} WindowStep(n: nat, start: nat, size: nat, overlap: nat, k: nat)
    requires Limits(size, overlap) && start < n && k + 1 < |Windows(n, start, size, overlap)|
    ensures var w := Windows(n, start, size, overlap);
            && w[k].1 == w[k].0 + size && w[k + 1].0 == w[k].1 - overlap
    decreases n - start
  {
    var next := start + (size - overlap);
    var rest := Windows(n, next, size, overlap);
    assert rest[0].0 == next;
    if k > 0 { WindowStep(n, next, size, overlap, k - 1); }
  }

  lemma MiddleSlice<T>(a: seq<T>, b: seq<T>, c: seq<T>)
    ensures (a + b + c)[|a|..|a| + |b|] == b
  {
  }

  /** The words of a paragraph lie together among those of the text. */
  lemma ParagraphPlace(text: string, ps: seq<Span>, p: nat) returns (first: nat)
    requires ParagraphsUpTo(text, ps, |text|) && p < |ps|
    ensures InParagraph(text, ps[p].0, ps[p].1, first)
  {
    var s, e := ps[p].0, ps[p].1;
    assert IsParagraph(text, s, e);
    if p > 0 {
      assert SeparatedAfter(text, ps, p - 1);
      assert Blank(text[s - 1]);
    }
    CutSpans(text, 0, s, |text|);
    CutSpans(text, s, e, |text|);
    var before, inside, after := SpansIn(text, 0, s), SpansIn(text, s, e), SpansIn(text, e, |text|);
    assert AllWords(text) == before + inside + after;
    MiddleSlice(before, inside, after);
    first := |before|;
  }

  /** The unit starts with word n and ends with word m - 1. */
  ghost predicate StartsWith(text: string, u: Unit, n: nat) {
    n < |AllWords(text)| && u.start == AllWords(text)[n].0
  }

  ghost predicate EndsBefore(text: string, u: Unit, m: nat) {
    0 < m <= |AllWords(text)| && u.end == AllWords(text)[m - 1].1
  }

  /** The word numbers of a window. */
  lemma WindowEdges(text: string, s: nat, e: nat, first: nat, a: nat, b: nat, unit: Unit, n: nat, m: nat)
    requires InParagraph(text, s, e, first) && a < b <= |ParagraphSpans(text, s, e)|
    requires unit == WindowUnit(text, s, e, a, b) && n == first + a && m == first + b
    ensures StartsWith(text, unit, n) && EndsBefore(text, unit, m)
  {
    WindowCovers(text, s, e, first, a, b);
  }

  lemma UnitIsWindow(text: string, s: nat, e: nat, size: nat, overlap: nat, units: seq<Unit>, count: nat, a: nat)
    returns (here: Interval)
    requires Limits(size, overlap) && s <= e <= |text| && count == |ParagraphSpans(text, s, e)|
    requires units == ParagraphUnits(text, s, e, size, overlap) && a < |units| && 1 < |units|
    ensures count > size && |units| == |Windows(count, 0, size, overlap)|
    ensures here == Windows(count, 0, size, overlap)[a] && here.0 < here.1 <= count
    ensures units[a] == WindowUnit(text, s, e, here.0, here.1)
  {
    here := Windows(count, 0, size, overlap)[a];
  }

  /** Inside a long paragraph the next window repeats the last `overlap` words. */
  lemma WindowSeam(text: string, s: nat, e: nat, first: nat, size: nat, overlap: nat, a: nat, units: seq<Unit>)
    returns (from: nat, m: nat, n: nat)
    requires Limits(size, overlap) && InParagraph(text, s, e, first)
    requires units == ParagraphUnits(text, s, e, size, overlap) && a + 1 < |units|
    ensures StartsWith(text, units[a], from) && EndsBefore(text, units[a], m) && from + size == m
    ensures StartsWith(text, units[a + 1], n) && n + overlap == m
  {
    var count := |ParagraphSpans(text, s, e)|;
    var here := UnitIsWindow(text, s, e, size, overlap, units, count, a);
    var next := UnitIsWindow(text, s, e, size, overlap, units, count, a + 1);
    WindowStep(count, 0, size, overlap, a);
    from, m, n := first + here.0, first + here.1, first + next.0;
    var end := first + next.1;
    WindowEdges(text, s, e, first, here.0, here.1, units[a], from, m);
    WindowEdges(text, s, e, first, next.0, next.1, units[a + 1], n, end);
  }

  lemma {:induction false} WindowsReachEnd(n: nat, start: nat, size: nat, overlap: nat)
    requires Limits(size, overlap) && start < n
    ensures var w := Windows(n, start, size, overlap);
            w != [] && w[|w| - 1].1 == n
    decreases n - start
  {
    var next := start + (size - overlap);
    if start + size < n {
      WindowsReachEnd(n, next, size, overlap);
      FirstWindow(n, start, next, size, overlap);
    }
  }

  lemma FirstWindow(n: nat, start: nat, next: nat, size: nat, overlap: nat)
    requires Limits(size, overlap) && start + size < n && next == start + (size - overlap)
    ensures Windows(n, start, size, overlap) == [(start, start + size)] + Windows(n, next, size, overlap)
  {
  }

  /** The last unit of a paragraph ends where the paragraph ends. */
  lemma LastUnitEnds(text: string, s: nat, e: nat, size: nat, overlap: nat, units: seq<Unit>)
    requires Limits(size, overlap) && IsParagraph(text, s, e)
    requires units == ParagraphUnits(text, s, e, size, overlap)
    ensures units != [] && units[|units| - 1].end == e
  {
    var count := |ParagraphSpans(text, s, e)|;
    if count > size {
      WindowsReachEnd(count, 0, size, overlap);
      var w := Windows(count, 0, size, overlap);
      LastWindowEnds(text, s, e, w[|w| - 1].0, count);
    }
  }

  lemma LastWindowEnds(text: string, s: nat, e: nat, a: nat, b: nat)
    requires IsParagraph(text, s, e) && a < b == |ParagraphSpans(text, s, e)|
    ensures WindowUnit(text, s, e, a, b).end == e
  {
    LastWord(text[s..e], 0, e - s);
  }

  /** Where unit k and the next one lie when both are windows of a long paragraph: unit k is full, and the next one
      starts `overlap` words before its end. */
  ghost predicate InnerSeam(text: string, units: seq<Unit>, k: nat, size: nat, overlap: nat, from: nat, m: nat, n: nat)
    requires k + 1 < |units|
  {
    && Load(units[k]) == size
    && StartsWith(text, units[k], from) && EndsBefore(text, units[k], m) && from + size == m
    && StartsWith(text, units[k + 1], n) && n + overlap == m
  }

  /** Inside a paragraph, over the list of its own units. */
  lemma PartSeam(text: string, ps: seq<Span>, size: nat, overlap: nat, p: nat, a: nat, part: seq<Unit>)
    returns (from: nat, m: nat, n: nat)
    requires Limits(size, overlap) && ParagraphsUpTo(text, ps, |text|) && Within(text, ps) && p < |ps|
    requires part == ParagraphUnits(text, ps[p].0, ps[p].1, size, overlap) && a + 1 < |part|
    ensures InnerSeam(text, part, a, size, overlap, from, m, n)
  {
    assert IsParagraph(text, ps[p].0, ps[p].1);
    ParagraphHasWords(text, ps[p].0, ps[p].1);
    ParagraphLoads(text, ps[p].0, ps[p].1, size, overlap);
    assert UnitLoad(part, a, size);
    var first := ParagraphPlace(text, ps, p);
    from, m, n := WindowSeam(text, ps[p].0, ps[p].1, first, size, overlap, a, part);
  }

  lemma TwoOfPart<T>(parts: seq<seq<T>>, n: nat, p: nat, a: nat, next: nat, k: nat, after: nat)
    requires p < n <= |parts| && next == a + 1 && after == k + 1
    requires next < |parts[p]| && k == |Flat(parts, p)| + a && after < |Flat(parts, n)|
    ensures Flat(parts, n)[k] == parts[p][a] && Flat(parts, n)[after] == parts[p][next]
  {
    FlatAt(parts, n, p, a, k);
    FlatAt(parts, n, p, next, after);
  }

  lemma SeamInside(text: string, ps: seq<Span>, units: seq<Unit>, size: nat, overlap: nat, p: nat, a: nat, k: nat)
    returns (from: nat, m: nat, n: nat)
    requires Limits(size, overlap) && ParagraphsUpTo(text, ps, |text|) && Within(text, ps) && p < |ps|
    requires units == TextUnits(text, ps, |ps|, size, overlap) && k + 1 < |units|
    requires k == |TextUnits(text, ps, p, size, overlap)| + a
    requires a + 1 < |ParagraphUnits(text, ps[p].0, ps[p].1, size, overlap)|
    ensures InnerSeam(text, units, k, size, overlap, from, m, n)
  {
    var parts, part := ParagraphParts(text, ps, size, overlap), ParagraphUnits(text, ps[p].0, ps[p].1, size, overlap);
    var next, after := a + 1, k + 1;
    assert parts[p] == part;
    TwoOfPart(parts, |ps|, p, a, next, k, after);
    from, m, n := PartSeam(text, ps, size, overlap, p, a, part);
  }

  lemma SeamBetween(text: string, ps: seq<Span>, units: seq<Unit>, size: nat, overlap: nat, p: nat, a: nat, k: nat)
    returns (j: nat)
    requires Limits(size, overlap) && ParagraphsUpTo(text, ps, |text|) && Within(text, ps) && p + 1 < |ps|
    requires units == TextUnits(text, ps, |ps|, size, overlap) && k < |units|
    requires a + 1 == |ParagraphUnits(text, ps[p].0, ps[p].1, size, overlap)|
    requires units[k] == ParagraphUnits(text, ps[p].0, ps[p].1, size, overlap)[a]
    ensures EmptyLine(text, units[k].end, j)
  {
    assert IsParagraph(text, ps[p].0, ps[p].1);
    LastUnitEnds(text, ps[p].0, ps[p].1, size, overlap, ParagraphUnits(text, ps[p].0, ps[p].1, size, overlap));
    j := GapIsEmptyLine(text, ps, p);
  }

  lemma NotLastPart<T>(parts: seq<seq<T>>, n: nat, p: nat, a: nat, k: nat)
    requires p < n <= |parts| && a + 1 == |parts[p]| && k == |Flat(parts, p)| + a && k + 1 < |Flat(parts, n)|
    ensures p + 1 < n
  {
    assert |Flat(parts, p + 1)| == |Flat(parts, p)| + |parts[p]|;
  }

  /** From one unit to the next: either both are windows of a long paragraph, or the first one is followed by an empty
      line. */
  lemma UnitSeam(text: string, ps: seq<Span>, units: seq<Unit>, size: nat, overlap: nat, k: nat)
    returns (inside: bool, from: nat, m: nat, n: nat, j: nat)
    requires Limits(size, overlap) && ParagraphsUpTo(text, ps, |text|) && Within(text, ps)
    requires units == TextUnits(text, ps, |ps|, size, overlap) && k + 1 < |units|
    ensures if inside then InnerSeam(text, units, k, size, overlap, from, m, n) else EmptyLine(text, units[k].end, j)
  {
    from, m, n, j := 0, 0, 0, 0;
    var parts := ParagraphParts(text, ps, size, overlap);
    var p, a := FlatElement(parts, |ps|, k);
    inside := a + 1 < |parts[p]|;
    if inside {
      from, m, n := SeamInside(text, ps, units, size, overlap, p, a, k);
    } else {
      NotLastPart(parts, |ps|, p, a, k);
      j := SeamBetween(text, ps, units, size, overlap, p, a, k);
    }
  }
}
